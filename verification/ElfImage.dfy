/** elf64_load_image_ex (kernel/elf64_loader.c): the loader for images that are in memory already. It has loops of its
    own: bytes are copied straight from the image, the end of a segment is not checked after it is rounded up, and a
    page is handed to vmm_map_page only if it starts inside the segment. */
module ElfImage {
  import opened Options
  import opened LittleEndian
  import opened ElfLoader

  /** Pages recorded so far, free frames, and the write permission with which each page was last mapped. */
  datatype Placement = Placement(pages: map<nat, Page>, frames: nat, mapped: map<nat, bool>)

  /** The page after local_memcpy from the image. */
  function Filled(bytes: Bytes, image: Bytes, s: Segment, va: nat): (r: Bytes)
    requires |bytes| == PAGE && SegmentOk(s, image)
    ensures |r| == PAGE
  {
    var from := if va > s.vaddr then va else s.vaddr;
    var to := if va + PAGE < s.vaddr + s.filesz then va + PAGE else s.vaddr + s.filesz;
    if to <= from then bytes
    else
      var source, target, length := s.offset + (from - s.vaddr), from - va, to - from;
      bytes[..target] + image[source..source + length] + bytes[target + length..]
  }

  /** The page at `va`, found or newly recorded, with the permissions of the segment added. */
  function Found(st: Placement, s: Segment, va: nat): (r: Option<(Page, nat)>)
  {
    if va in st.pages then Some((st.pages[va].(writable := st.pages[va].writable || s.writable), st.frames))
    else if st.frames == 0 || |st.pages| >= MAX_LOADER_PAGES then None
    else Some((Page(seq(PAGE, _ => 0), s.writable), st.frames - 1))
  }

  /** One page of a segment. */
  function PlaceOne(st: Placement, image: Bytes, s: Segment, va: nat): (r: Option<Placement>)
    requires SegmentOk(s, image) && Sized(st.pages)
    ensures r.Some? ==> Sized(r.value.pages)
  {
    var found := Found(st, s, va);
    if found.None? then None
    else
      var (page, frames) := found.value;
      var pages := st.pages[va := page.(bytes := Filled(page.bytes, image, s, va))];
      Some(Placement(pages, frames, if va >= s.vaddr + s.memsz then st.mapped else st.mapped[va := page.writable]))
  }

  function PlacePages(st: Placement, image: Bytes, s: Segment, va: nat, end: nat): (r: Option<Placement>)
    requires SegmentOk(s, image) && Sized(st.pages)
    ensures r.Some? ==> Sized(r.value.pages)
    decreases end - va
  {
    if va >= end then Some(st)
    else
      var one := PlaceOne(st, image, s, va);
      if one.None? then None else PlacePages(one.value, image, s, va + PAGE, end)
  }

  /** The loop over program headers from header `i` on. */
  function PlaceHeaders(st: Placement, image: Bytes, hs: seq<Header>, i: nat, bias: nat): (r: Option<Placement>)
    requires Sized(st.pages) && i <= |hs|
    ensures r.Some? ==> Sized(r.value.pages)
    decreases |hs| - i
  {
    if i == |hs| then Some(st)
    else if Skipped(hs[i]) then PlaceHeaders(st, image, hs, i + 1, bias)
    else if !Admitted(hs[i], |image|, bias) then None
    else
      var s := SegmentOf(hs[i], bias);
      var placed := PlacePages(st, image, s, AlignDown(s.vaddr), AlignUp(s.vaddr + s.memsz));
      if placed.None? then None else PlaceHeaders(placed.value, image, hs, i + 1, bias)
  }

  const EMPTY_MAP: map<nat, bool> := map[]

  function LoadImage(image: Bytes, hs: seq<Header>, bias: nat, frames: nat): (r: Option<Placement>)
  {
    PlaceHeaders(Placement(map[], frames, EMPTY_MAP), image, hs, 0, bias)
  }

  // One page, one segment

  lemma FilledIsOverlaid(bytes: Bytes, image: Bytes, s: Segment, va: nat)
    requires |bytes| == PAGE && SegmentOk(s, image)
    ensures Filled(bytes, image, s, va) == Overlaid(bytes, image, s, va)
  {
    var a, b := Filled(bytes, image, s, va), Overlaid(bytes, image, s, va);
    forall k | 0 <= k < PAGE ensures a[k] == b[k] {
      FilledAt(bytes, image, s, va, k);
    }
    assert a == b;
  }

  lemma FilledAt(bytes: Bytes, image: Bytes, s: Segment, va: nat, k: nat)
    requires |bytes| == PAGE && SegmentOk(s, image) && k < PAGE
    ensures Filled(bytes, image, s, va)[k] == if HasByte(s, va + k) then image[s.offset + (va + k - s.vaddr)]
            else bytes[k]
  {
  }

  /** Every page is mapped, with the permissions it has in the end. */
  ghost predicate AllMapped(st: Placement)
  {
    st.mapped.Keys == st.pages.Keys && forall va :: va in st.pages ==> st.mapped[va] == st.pages[va].writable
  }

  /** A page of the segment is placed as the streaming loader places it, and mapped. */
  lemma PlaceOneIs(st: Placement, image: Bytes, s: Segment, va: nat)
    requires SegmentOk(s, image) && Sized(st.pages) && HasPage(s, va)
    ensures var r, l := PlaceOne(st, image, s, va), LoadOne(Loader(st.pages, st.frames), image, s, va);
            && r.Some? == l.Some?
            && (r.Some? ==> l.value == Loader(r.value.pages, r.value.frames) && (AllMapped(st) ==> AllMapped(r.value)))
  {
    hide Filled, Overlaid;
    var found := Found(st, s, va);
    if found.Some? {
      var (page, _) := found.value;
      assert |page.bytes| == PAGE;
      FilledIsOverlaid(page.bytes, image, s, va);
    }
  }

  lemma {:induction false} PlacePagesIs(st: Placement, image: Bytes, s: Segment, va: nat, end: nat)
    requires SegmentOk(s, image) && Sized(st.pages) && va % PAGE == 0 && AlignDown(s.vaddr) <= va
    requires end % PAGE == 0 && end < s.vaddr + s.memsz + PAGE
    ensures var r, l := PlacePages(st, image, s, va, end),
            LoadPages(Loader(st.pages, st.frames), image, s, va, end, []);
            && r.Some? == l.Some?
            && (r.Some? ==>
                l.value.0 == Loader(r.value.pages, r.value.frames) && (AllMapped(st) ==> AllMapped(r.value)))
    decreases end - va
  {
    hide PlaceOne, LoadOne, HasPage, AllMapped;
    if va < end {
      InSegment(s, va, end);
      PlaceOneIs(st, image, s, va);
      var one := PlaceOne(st, image, s, va);
      if one.Some? {
        PlacePagesIs(one.value, image, s, va + PAGE, end);
      }
    }
  }

  lemma RoundedEnd(s: Segment)
    requires s.vaddr + s.memsz < U64
    ensures var end := AlignUp(s.vaddr + s.memsz);
            end % PAGE == 0 && end < s.vaddr + s.memsz + PAGE && (Wraps(s) <==> end < s.vaddr + s.memsz)
                && (Wraps(s) ==> end == 0)
  {
  }

  // Whole images

  /** The segments that the loader puts into memory: those whose rounded end does not wrap around. */
  function KeptSegments(hs: seq<Header>, bias: nat): (r: seq<Segment>)
  {
    if hs == [] then []
    else
      var rest, h := KeptSegments(hs[..|hs| - 1], bias), hs[|hs| - 1];
      if Skipped(h) || Wraps(SegmentOf(h, bias)) then rest else rest + [SegmentOf(h, bias)]
  }

  /** The first `i` headers are loaded and mapped. */
  ghost predicate Done(st: Placement, image: Bytes, hs: seq<Header>, i: nat, bias: nat)
    requires i <= |hs|
  {
    var segs := KeptSegments(hs[..i], bias);
    AllOk(segs, image) && Loaded(st.pages, image, segs) && AllMapped(st)
  }

  lemma KeptNext(hs: seq<Header>, i: nat, bias: nat)
    requires i < |hs|
    ensures KeptSegments(hs[..i + 1], bias) ==
              if Skipped(hs[i]) || Wraps(SegmentOf(hs[i], bias)) then KeptSegments(hs[..i], bias)
              else KeptSegments(hs[..i], bias) + [SegmentOf(hs[i], bias)]
  {
    assert hs[..i + 1][..i] == hs[..i];
  }

  lemma PlaceHeaderDone(st: Placement, image: Bytes, hs: seq<Header>, i: nat, bias: nat)
    requires i < |hs| && Sized(st.pages) && Done(st, image, hs, i, bias) && !Skipped(hs[i])
             && Admitted(hs[i], |image|, bias)
    requires var s := SegmentOf(hs[i], bias);
             PlacePages(st, image, s, AlignDown(s.vaddr), AlignUp(s.vaddr + s.memsz)).Some?
    ensures var s := SegmentOf(hs[i], bias);
            Done(PlacePages(st, image, s, AlignDown(s.vaddr), AlignUp(s.vaddr + s.memsz)).value, image, hs, i + 1, bias)
  {
    hide Loaded, LoadPages, PlacePages, AlignUp, AllMapped, KeptSegments, Between;
    var s, segs := SegmentOf(hs[i], bias), KeptSegments(hs[..i], bias);
    var va, end := AlignDown(s.vaddr), AlignUp(s.vaddr + s.memsz);
    KeptNext(hs, i, bias);
    RoundedEnd(s);
    if Wraps(s) {
      NothingPlaced(st, image, s, va);
    } else {
      PlacePagesIs(st, image, s, va, end);
      var ld := Loader(st.pages, st.frames);
      BetweenStarts(st.pages, image, segs, s);
      LoadPagesFacts(ld, image, segs, s, va, end, []);
      BetweenEnds(LoadPages(ld, image, s, va, end, []).value.0.pages, image, segs, s);
    }
  }

  lemma NothingPlaced(st: Placement, image: Bytes, s: Segment, va: nat)
    requires SegmentOk(s, image) && Sized(st.pages)
    ensures PlacePages(st, image, s, va, 0) == Some(st)
  {
  }

  lemma {:induction false} PlaceHeadersDone(st: Placement, image: Bytes, hs: seq<Header>, i: nat, bias: nat)
    requires i <= |hs| && Sized(st.pages) && Done(st, image, hs, i, bias) && PlaceHeaders(st, image, hs, i, bias).Some?
    ensures Done(PlaceHeaders(st, image, hs, i, bias).value, image, hs, |hs|, bias)
    decreases |hs| - i
  {
    hide Done, PlacePages;
    if i < |hs| {
      if Skipped(hs[i]) {
        SkipDone(st, image, hs, i, bias);
        PlaceHeadersDone(st, image, hs, i + 1, bias);
      } else {
        PlaceHeaderDone(st, image, hs, i, bias);
        var s := SegmentOf(hs[i], bias);
        PlaceHeadersDone(PlacePages(st, image, s, AlignDown(s.vaddr), AlignUp(s.vaddr + s.memsz)).value, image, hs,
            i + 1, bias);
      }
    }
  }

  lemma SkipDone(st: Placement, image: Bytes, hs: seq<Header>, i: nat, bias: nat)
    requires i < |hs| && Skipped(hs[i]) && Done(st, image, hs, i, bias)
    ensures Done(st, image, hs, i + 1, bias)
  {
    hide Loaded, AllMapped;
    KeptNext(hs, i, bias);
  }

  /** The in-memory loader: success leaves exactly the pages of the segments that do not wrap around, every byte from
      the file or zero, and each page mapped with the permissions of the segments that reach it. */
  lemma PlacedImageIsCorrect(image: Bytes, hs: seq<Header>, bias: nat, frames: nat)
    requires LoadImage(image, hs, bias, frames).Some?
    ensures var st, segs := LoadImage(image, hs, bias, frames).value, KeptSegments(hs, bias);
            AllOk(segs, image) && Loaded(st.pages, image, segs) && AllMapped(st)
  {
    hide Loaded, PlaceHeaders, AllMapped;
    var st := Placement(map[], frames, EMPTY_MAP);
    assert hs[..0] == [] && hs[..|hs|] == hs;
    NothingLoaded(image);
    assert AllMapped(st) by { NothingMapped(frames); }
    PlaceHeadersDone(st, image, hs, 0, bias);
  }

  lemma NothingMapped(frames: nat)
    ensures AllMapped(Placement(map[], frames, EMPTY_MAP))
  {
  }

  // The two loaders

  lemma {:induction false} SameSegments(hs: seq<Header>, bias: nat)
    requires forall i :: 0 <= i < |hs| && !Skipped(hs[i]) ==> !Wraps(SegmentOf(hs[i], bias))
    ensures KeptSegments(hs, bias) == Segments(hs, bias)
  {
    if hs != [] {
      var init := hs[..|hs| - 1];
      assert forall i :: 0 <= i < |init| ==> init[i] == hs[i];
      SameSegments(init, bias);
    }
  }

  /** The two loaders agree: whenever both accept an image, they give the same pages, bytes and flags. */
  lemma LoadersAgree(image: Bytes, hs: seq<Header>, bias: nat, frames: nat, frames': nat, faults: seq<bool>)
    requires LoadHeaders(Loader(map[], frames), image, hs, bias, faults).Some?
    requires LoadImage(image, hs, bias, frames').Some?
    ensures LoadHeaders(Loader(map[], frames), image, hs, bias, faults).value.0.pages
            == LoadImage(image, hs, bias, frames').value.pages
  {
    hide Loaded, LoadHeaders, LoadImage;
    LoadAllFacts(Loader(map[], frames), image, hs, bias, faults);
    PlacedImageIsCorrect(image, hs, bias, frames');
    SameSegments(hs, bias);
    LoadedOnce(LoadHeaders(Loader(map[], frames), image, hs, bias, faults).value.0.pages,
               LoadImage(image, hs, bias, frames').value.pages, image, Segments(hs, bias));
  }

  /** An accepted in-memory load has every page of every segment exactly when no segment reaches into the last page of
      the address space. */
  lemma InMemoryCompleteIff(image: Bytes, hs: seq<Header>, bias: nat, frames: nat)
    requires LoadImage(image, hs, bias, frames).Some?
    ensures var pages := LoadImage(image, hs, bias, frames).value.pages;
            (forall va :: Mapped(Segments(hs, bias), va) ==> va in pages)
            <==> (forall i :: 0 <= i < |hs| && !Skipped(hs[i]) ==> !Wraps(SegmentOf(hs[i], bias)))
  {
    hide PlaceHeaders, PageIs;
    var pages := LoadImage(image, hs, bias, frames).value.pages;
    PlacedImageIsCorrect(image, hs, bias, frames);
    if forall i :: 0 <= i < |hs| && !Skipped(hs[i]) ==> !Wraps(SegmentOf(hs[i], bias)) {
      SameSegments(hs, bias);
    } else {
      var i :| 0 <= i < |hs| && !Skipped(hs[i]) && Wraps(SegmentOf(hs[i], bias));
      var last := U64 - PAGE;
      AdmittedAt(Placement(map[], frames, EMPTY_MAP), image, hs, 0, bias, i);
      LastPageOf(image, hs, bias, i);
      NoWrapsLeft(hs, bias, last);
      assert Mapped(Segments(hs, bias), last) && last !in pages;
    }
  }

  lemma {:induction false} AdmittedAt(st: Placement, image: Bytes, hs: seq<Header>, i: nat, bias: nat, k: nat)
    requires i <= k < |hs| && Sized(st.pages) && PlaceHeaders(st, image, hs, i, bias).Some? && !Skipped(hs[k])
    ensures Admitted(hs[k], |image|, bias)
    decreases |hs| - i
  {
    hide PlacePages;
    if i < k {
      if Skipped(hs[i]) {
        AdmittedAt(st, image, hs, i + 1, bias, k);
      } else {
        var s := SegmentOf(hs[i], bias);
        AdmittedAt(PlacePages(st, image, s, AlignDown(s.vaddr), AlignUp(s.vaddr + s.memsz)).value, image, hs, i + 1,
            bias, k);
      }
    }
  }

  /** A wrapping segment does reach the last page. */
  lemma {:induction false} LastPageOf(image: Bytes, hs: seq<Header>, bias: nat, i: nat)
    requires i < |hs| && !Skipped(hs[i]) && Wraps(SegmentOf(hs[i], bias)) && Admitted(hs[i], |image|, bias)
    ensures Mapped(Segments(hs, bias), U64 - PAGE)
    decreases |hs|
  {
    var init, h := hs[..|hs| - 1], hs[|hs| - 1];
    var segs := Segments(hs, bias);
    if i == |hs| - 1 {
      assert HasPage(segs[|segs| - 1], U64 - PAGE);
    } else {
      LastPageOf(image, init, bias, i);
      var inner := Segments(init, bias);
      var k :| 0 <= k < |inner| && HasPage(inner[k], U64 - PAGE);
      assert segs[k] == inner[k];
    }
  }

  lemma {:induction false} NoWrapsLeft(hs: seq<Header>, bias: nat, last: nat)
    requires last == U64 - PAGE
    ensures !Mapped(KeptSegments(hs, bias), last)
  {
    if hs != [] {
      NoWrapsLeft(hs[..|hs| - 1], bias, last);
    }
  }

  /** For example, a segment that ends at the very top is accepted and nothing of it is loaded, while the streaming
      loader refuses it. */
  lemma WrappedSegmentIsLost(image: Bytes, frames: nat)
    requires |image| == 8
    ensures var h := Header(true, false, 0, U64 - 16, 8, 8);
            && LoadImage(image, [h], 0, frames) == Some(Placement(map[], frames, EMPTY_MAP))
            && LoadHeaders(Loader(map[], frames), image, [h], 0, []).None?
  {
    hide PlacePages;
    var h, st := Header(true, false, 0, U64 - 16, 8, 8), Placement(map[], frames, EMPTY_MAP);
    var s := SegmentOf(h, 0);
    assert [h][..0] == [];
    assert AlignUp(s.vaddr + s.memsz) == 0;
    NothingPlaced(st, image, s, AlignDown(s.vaddr));
    assert PlaceHeaders(st, image, [h], 1, 0) == Some(st);
    assert PlaceHeaders(st, image, [h], 0, 0) == PlaceHeaders(st, image, [h], 1, 0);
  }
}
