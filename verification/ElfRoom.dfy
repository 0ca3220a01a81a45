/** When an image loads: exactly when its headers are valid and its distinct pages fit the page list and free memory. */
module ElfRoom {
  import opened LittleEndian
  import opened ElfLoader
  import opened ElfImage

  /** The page addresses va, va + 4096, ... below `end`. */
  function Range(va: nat, end: nat): (r: set<nat>)
    decreases end - va
  {
    if va >= end then {} else {va} + Range(va + PAGE, end)
  }

  function SegmentPages(s: Segment): (r: set<nat>)
  {
    Range(AlignDown(s.vaddr), AlignUp(s.vaddr + s.memsz))
  }

  /** The distinct pages of all PT_LOAD headers. */
  function ImagePages(hs: seq<Header>, bias: nat): (r: set<nat>)
  {
    if hs == [] then {}
    else
      var h := hs[|hs| - 1];
      ImagePages(hs[..|hs| - 1], bias) + if Skipped(h) then {} else SegmentPages(SegmentOf(h, bias))
  }

  predicate HeaderValid(h: Header, size: nat, bias: nat)
  {
    Skipped(h) || Admitted(h, size, bias)
  }

  function Min(a: nat, b: nat): (r: nat)
  {
    if a < b then a else b
  }

  /** How many pages the loader can hold in the end. */
  function Room(ld: Loader): (r: nat)
  {
    Min(MAX_LOADER_PAGES, ld.frames + |ld.pages|)
  }

  lemma {:induction false} InRange(va: nat, end: nat, p: nat)
    requires va % PAGE == 0 && end % PAGE == 0
    ensures p in Range(va, end) <==> va <= p < end && p % PAGE == 0
    decreases end - va
  {
    if va < end {
      InRange(va + PAGE, end, p);
    }
  }

  /** The pages of a segment are those it reaches, unless rounding its end up wraps around. */
  lemma SegmentPagesAre(s: Segment, p: nat)
    requires s.memsz > 0 && s.vaddr + s.memsz < U64
    ensures p in SegmentPages(s) <==> HasPage(s, p) && !Wraps(s)
  {
    hide Range;
    InRange(AlignDown(s.vaddr), AlignUp(s.vaddr + s.memsz), p);
  }

  /** What a page loop may add to the pages so far. */
  ghost predicate Fits(ld: Loader, more: set<nat>)
  {
    |ld.pages.Keys + more| <= Room(ld)
  }

  /** The loader holds `more` besides what it held, and no memory was lost. */
  ghost predicate Holds(ld: Loader, ld': Loader, more: set<nat>)
  {
    ld'.pages.Keys == ld.pages.Keys + more && ld'.frames + |ld'.pages| == ld.frames + |ld.pages|
  }

  lemma {:induction false} LoadPagesIff(ld: Loader, image: Bytes, s: Segment, va: nat, end: nat)
    requires SegmentOk(s, image) && Sized(ld.pages) && |ld.pages| <= MAX_LOADER_PAGES
    ensures var r := LoadPages(ld, image, s, va, end, []);
            (r.Some? <==> Fits(ld, Range(va, end))) && (r.Some? ==>
                Holds(ld, r.value.0, Range(va, end)) && r.value.1 == [])
    decreases end - va
  {
    hide Copies, LoadOne, Sized;
    var more, rest := Range(va, end), Range(va + PAGE, end);
    if va >= end {
      assert ld.pages.Keys + {} == ld.pages.Keys;
    } else {
      LoadOneIff(ld, image, s, va);
      var one := LoadOne(ld, image, s, va);
      if one.Some? {
        LoadPagesIff(one.value, image, s, va + PAGE, end);
        assert one.value.pages.Keys + rest == ld.pages.Keys + more;
      } else {
        Bigger(ld.pages.Keys + {va}, ld.pages.Keys + more);
      }
    }
  }

  lemma LoadOneIff(ld: Loader, image: Bytes, s: Segment, va: nat)
    requires SegmentOk(s, image) && Sized(ld.pages) && |ld.pages| <= MAX_LOADER_PAGES
    ensures var r := LoadOne(ld, image, s, va);
            && (r.Some? <==> Fits(ld, {va}))
            && (r.Some? ==> Holds(ld, r.value, {va}) && |r.value.pages| <= MAX_LOADER_PAGES)
  {
    hide Touch, Overlaid;
    TouchIff(ld, va, s.writable);
    var t := Touch(ld, va, s.writable);
    if t.Some? {
      var r := LoadOne(ld, image, s, va).value;
      assert r.pages.Keys == t.value.pages.Keys;
    }
  }

  lemma TouchIff(ld: Loader, va: nat, writable: bool)
    requires Sized(ld.pages) && |ld.pages| <= MAX_LOADER_PAGES
    ensures var t := Touch(ld, va, writable);
            && (t.Some? <==> Fits(ld, {va}))
            && (t.Some? ==>
                Holds(ld, t.value, {va}) && Sized(t.value.pages) && |t.value.pages| <= MAX_LOADER_PAGES
                    && va in t.value.pages)
  {
    if va in ld.pages {
      assert ld.pages.Keys + {va} == ld.pages.Keys;
    } else {
      assert |ld.pages.Keys + {va}| == |ld.pages.Keys| + 1;
    }
  }

  lemma Bigger(a: set<nat>, b: set<nat>)
    requires a <= b
    ensures |a| <= |b|
  {
    assert b == a + (b - a);
  }

  lemma {:induction false} ImagePagesAre(image: Bytes, hs: seq<Header>, bias: nat, va: nat)
    requires forall i :: 0 <= i < |hs| ==> HeaderValid(hs[i], |image|, bias)
    ensures va in ImagePages(hs, bias) <==> Mapped(KeptSegments(hs, bias), va)
    decreases |hs|
  {
    hide SegmentPages, HasPage;
    if hs != [] {
      var init, h := hs[..|hs| - 1], hs[|hs| - 1];
      assert forall i :: 0 <= i < |init| ==> init[i] == hs[i];
      ImagePagesAre(image, init, bias, va);
      MappedSnoc(KeptSegments(init, bias), SegmentOf(h, bias), va);
      if !Skipped(h) {
        SegmentPagesAre(SegmentOf(h, bias), va);
      }
    }
  }

  // The streaming loader

  lemma LoadHeaderIff(ld: Loader, image: Bytes, h: Header, bias: nat)
    requires Sized(ld.pages) && |ld.pages| <= MAX_LOADER_PAGES && !Skipped(h)
    ensures var r, more := LoadHeader(ld, image, h, bias, []), SegmentPages(SegmentOf(h, bias));
            && (r.Some? <==> HeaderValid(h, |image|, bias) && !Wraps(SegmentOf(h, bias)) && Fits(ld, more))
            && (r.Some? ==> Holds(ld, r.value.0, more) && r.value.1 == [])
  {
    hide LoadPages, Range, Fits, Holds;
    if Admitted(h, |image|, bias) {
      var s := SegmentOf(h, bias);
      LoadPagesIff(ld, image, s, AlignDown(s.vaddr), AlignUp(s.vaddr + s.memsz));
    }
  }

  ghost predicate NoneWraps(hs: seq<Header>, bias: nat)
  {
    forall i :: 0 <= i < |hs| && !Skipped(hs[i]) ==> !Wraps(SegmentOf(hs[i], bias))
  }

  ghost predicate AllValid(hs: seq<Header>, size: nat, bias: nat)
  {
    forall i :: 0 <= i < |hs| ==> HeaderValid(hs[i], size, bias)
  }

  lemma {:induction false} StreamIff(image: Bytes, hs: seq<Header>, bias: nat, frames: nat)
    ensures var r, pages := LoadHeaders(Loader(map[], frames), image, hs, bias, []), ImagePages(hs, bias);
            && (r.Some? <==>
                AllValid(hs, |image|, bias) && NoneWraps(hs, bias) && |pages| <= Min(MAX_LOADER_PAGES, frames))
            && (r.Some? ==> r.value.0.pages.Keys == pages && r.value.0.frames == frames - |pages| && r.value.1 == [])
    decreases |hs|
  {
    hide LoadHeader, HeaderValid, SegmentPages, Wraps;
    var ld := Loader(map[], frames);
    if hs != [] {
      var init, h := hs[..|hs| - 1], hs[|hs| - 1];
      var pages := ImagePages(init, bias);
      assert forall i :: 0 <= i < |init| ==> init[i] == hs[i];
      StreamIff(image, init, bias, frames);
      Bigger(pages, ImagePages(hs, bias));
      var before := LoadHeaders(ld, image, init, bias, []);
      if before.Some? {
        if Skipped(h) {
          SkipHeader(before.value.0, image, h, bias, []);
          assert HeaderValid(h, |image|, bias) by { SkippedIsValid(h, |image|, bias); }
          assert pages + {} == pages;
        } else {
          LoadHeaderIff(before.value.0, image, h, bias);
        }
      }
    }
  }

  lemma SkippedIsValid(h: Header, size: nat, bias: nat)
    requires Skipped(h)
    ensures HeaderValid(h, size, bias)
  {
  }

  /** `pages` are the pages that the segments reach. */
  ghost predicate PagesOf(segs: seq<Segment>, pages: set<nat>)
  {
    forall va: nat {:trigger va in pages} :: va in pages <==> Mapped(segs, va)
  }

  /** With a reader that does not fail, the streaming loader accepts an image exactly when every header is valid, no
      segment reaches the last page of the address space, and the pages its segments reach fit both the page list and
      the free frames; it takes one frame for each of them. */
  lemma StreamSucceedsIff(image: Bytes, hs: seq<Header>, bias: nat, frames: nat, pages: set<nat>)
    requires PagesOf(Segments(hs, bias), pages)
    ensures var r := LoadHeaders(Loader(map[], frames), image, hs, bias, []);
            && (r.Some? <==>
                AllValid(hs, |image|, bias) && NoneWraps(hs, bias) && |pages| <= Min(MAX_LOADER_PAGES, frames))
            && (r.Some? ==> r.value.0.pages.Keys == pages && r.value.0.frames == frames - |pages|)
  {
    hide LoadHeaders, HeaderValid, Wraps, ImagePages;
    StreamIff(image, hs, bias, frames);
    if AllValid(hs, |image|, bias) && NoneWraps(hs, bias) {
      SameSegments(hs, bias);
      SamePages(image, hs, bias, pages);
    }
  }

  lemma SamePages(image: Bytes, hs: seq<Header>, bias: nat, pages: set<nat>)
    requires AllValid(hs, |image|, bias) && PagesOf(KeptSegments(hs, bias), pages)
    ensures ImagePages(hs, bias) == pages
  {
    hide ImagePages, Mapped, HeaderValid;
    forall va: nat ensures va in ImagePages(hs, bias) <==> va in pages {
      ImagePagesAre(image, hs, bias, va);
    }
  }

  // The in-memory loader

  lemma PlacePagesIff(st: Placement, image: Bytes, s: Segment, va: nat, end: nat)
    requires SegmentOk(s, image) && Sized(st.pages) && |st.pages| <= MAX_LOADER_PAGES && va == AlignDown(s.vaddr)
    requires end == AlignUp(s.vaddr + s.memsz)
    ensures var r, ld := PlacePages(st, image, s, va, end), Loader(st.pages, st.frames);
            && (r.Some? <==> Fits(ld, SegmentPages(s)))
            && (r.Some? ==> Holds(ld, Loader(r.value.pages, r.value.frames), SegmentPages(s)))
  {
    hide PlacePages, LoadPages, Range, Fits, Holds, AlignUp;
    RoundedEnd(s);
    PlacePagesIs(st, image, s, va, end);
    LoadPagesIff(Loader(st.pages, st.frames), image, s, va, end);
  }

  /** The first `i` headers are valid, and `st` holds their pages. */
  ghost predicate UpTo(st: Placement, size: nat, hs: seq<Header>, i: nat, bias: nat, frames: nat)
    requires i <= |hs|
  {
    && AllValid(hs[..i], size, bias) && st.pages.Keys == ImagePages(hs[..i], bias)
    && st.frames + |st.pages| == frames && |st.pages| <= MAX_LOADER_PAGES
  }

  lemma ValidNext(hs: seq<Header>, i: nat, size: nat, bias: nat)
    requires i < |hs|
    ensures AllValid(hs[..i + 1], size, bias) <==> AllValid(hs[..i], size, bias) && HeaderValid(hs[i], size, bias)
    ensures AllValid(hs, size, bias) ==> HeaderValid(hs[i], size, bias)
  {
    hide HeaderValid;
    assert forall k :: 0 <= k < i ==> hs[..i + 1][k] == hs[..i][k];
    assert hs[..i + 1][i] == hs[i];
  }

  lemma UpToSkipped(st: Placement, size: nat, hs: seq<Header>, i: nat, bias: nat, frames: nat)
    requires i < |hs| && UpTo(st, size, hs, i, bias, frames) && Skipped(hs[i])
    ensures UpTo(st, size, hs, i + 1, bias, frames)
  {
    hide ImagePages, AllValid;
    ValidNext(hs, i, size, bias);
    PagesNext(hs, i, bias);
    assert ImagePages(hs[..i], bias) + {} == ImagePages(hs[..i], bias);
  }

  lemma UpToPlaced(st: Placement, image: Bytes, hs: seq<Header>, i: nat, bias: nat, frames: nat)
    requires i < |hs| && Sized(st.pages) && UpTo(st, |image|, hs, i, bias, frames)
    requires !Skipped(hs[i]) && Admitted(hs[i], |image|, bias) && SegmentOk(SegmentOf(hs[i], bias), image)
    ensures var s := SegmentOf(hs[i], bias);
            var placed := PlacePages(st, image, s, AlignDown(s.vaddr), AlignUp(s.vaddr + s.memsz));
            if placed.Some? then UpTo(placed.value, |image|, hs, i + 1, bias, frames)
            else |ImagePages(hs, bias)| > Min(MAX_LOADER_PAGES, frames)
  {
    hide ImagePages, AllValid, PlacePages, SegmentPages, AlignUp, AlignDown;
    var s := SegmentOf(hs[i], bias);
    ValidNext(hs, i, |image|, bias);
    PagesNext(hs, i, bias);
    PagesGrow(hs, i + 1, bias);
    PlacePagesIff(st, image, s, AlignDown(s.vaddr), AlignUp(s.vaddr + s.memsz));
  }

  lemma {:induction false} PlaceIff(st: Placement, image: Bytes, hs: seq<Header>, i: nat, bias: nat, frames: nat)
    requires i <= |hs| && Sized(st.pages) && UpTo(st, |image|, hs, i, bias, frames)
    ensures var r, pages := PlaceHeaders(st, image, hs, i, bias), ImagePages(hs, bias);
            && (r.Some? <==> AllValid(hs, |image|, bias) && |pages| <= Min(MAX_LOADER_PAGES, frames))
            && (r.Some? ==> r.value.pages.Keys == pages && r.value.frames == frames - |pages|)
    decreases |hs| - i
  {
    hide PlacePages, ImagePages, Admitted, UpTo, AllValid;
    if i == |hs| {
      UpToAll(st, |image|, hs, bias, frames);
    } else {
      ValidNext(hs, i, |image|, bias);
      if Skipped(hs[i]) {
        UpToSkipped(st, |image|, hs, i, bias, frames);
        PlaceIff(st, image, hs, i + 1, bias, frames);
      } else if Admitted(hs[i], |image|, bias) {
        var s := SegmentOf(hs[i], bias);
        AdmittedIsOk(hs[i], image, bias);
        UpToPlaced(st, image, hs, i, bias, frames);
        var placed := PlacePages(st, image, s, AlignDown(s.vaddr), AlignUp(s.vaddr + s.memsz));
        if placed.Some? {
          PlaceIff(placed.value, image, hs, i + 1, bias, frames);
        }
      }
    }
  }

  lemma UpToAll(st: Placement, size: nat, hs: seq<Header>, bias: nat, frames: nat)
    requires UpTo(st, size, hs, |hs|, bias, frames)
    ensures AllValid(hs, size, bias) && st.pages.Keys == ImagePages(hs, bias)
            && st.frames == frames - |ImagePages(hs, bias)|
    ensures |ImagePages(hs, bias)| <= Min(MAX_LOADER_PAGES, frames)
  {
    hide ImagePages, AllValid;
    assert hs[..|hs|] == hs;
  }

  lemma AdmittedIsOk(h: Header, image: Bytes, bias: nat)
    requires !Skipped(h) && Admitted(h, |image|, bias)
    ensures SegmentOk(SegmentOf(h, bias), image)
  {
  }

  lemma PagesNext(hs: seq<Header>, i: nat, bias: nat)
    requires i < |hs|
    ensures ImagePages(hs[..i + 1], bias) ==
              ImagePages(hs[..i], bias) + if Skipped(hs[i]) then {} else SegmentPages(SegmentOf(hs[i], bias))
  {
    assert hs[..i + 1][..i] == hs[..i];
  }

  lemma {:induction false} PagesGrow(hs: seq<Header>, i: nat, bias: nat)
    requires i <= |hs|
    ensures ImagePages(hs[..i], bias) <= ImagePages(hs, bias) && |ImagePages(hs[..i], bias)| <= |ImagePages(hs, bias)|
    decreases |hs| - i
  {
    hide SegmentPages;
    if i == |hs| {
      assert hs[..i] == hs;
    } else {
      PagesNext(hs, i, bias);
      PagesGrow(hs, i + 1, bias);
    }
    Bigger(ImagePages(hs[..i], bias), ImagePages(hs, bias));
  }

  /** The in-memory loader accepts an image exactly when every header is valid and the pages of its segments that do
      not wrap around fit both the page list and the free frames; it takes one frame for each of them. */
  lemma PlaceSucceedsIff(image: Bytes, hs: seq<Header>, bias: nat, frames: nat, pages: set<nat>)
    requires PagesOf(KeptSegments(hs, bias), pages)
    ensures var r := LoadImage(image, hs, bias, frames);
            && (r.Some? <==> AllValid(hs, |image|, bias) && |pages| <= Min(MAX_LOADER_PAGES, frames))
            && (r.Some? ==> r.value.pages.Keys == pages && r.value.frames == frames - |pages|)
  {
    hide PlaceHeaders, HeaderValid, Wraps;
    assert hs[..0] == [] && ImagePages([], bias) == {};
    PlaceIff(Placement(map[], frames, EMPTY_MAP), image, hs, 0, bias, frames);
    if AllValid(hs, |image|, bias) {
      SamePages(image, hs, bias, pages);
    }
  }
}
