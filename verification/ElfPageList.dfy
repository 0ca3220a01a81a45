/** The loader's page list (kernel/elf64_loader.c): an array kept sorted by address, searched by halving and filled by
    insertion, and the loops of the two loaders over it. */
module ElfPageList {
  import opened Options
  import opened LittleEndian
  import opened ElfLoader
  import opened ElfImage

  datatype Entry = Entry(va: nat, page: Page)

  predicate Sorted(s: seq<Entry>)
  {
    forall i, j :: 0 <= i < j < |s| ==> s[i].va < s[j].va
  }

  /** The index of the entry for `va`, or the length when there is none. */
  function Position(s: seq<Entry>, va: nat): (i: nat)
    ensures i <= |s| && (i < |s| ==> s[i].va == va)
    ensures forall k :: 0 <= k < i ==> s[k].va != va
  {
    if s == [] || s[0].va == va then 0 else 1 + Position(s[1..], va)
  }

  predicate Holds(s: seq<Entry>, m: map<nat, Page>)
  {
    forall i :: 0 <= i < |s| ==> s[i].va in m && m[s[i].va] == s[i].page
  }

  predicate Complete(s: seq<Entry>, m: map<nat, Page>)
  {
    forall va {:trigger va in m} :: va in m ==> Position(s, va) < |s|
  }

  /** The list is sorted, without repetition, and holds exactly the pages of the map. */
  predicate ListOk(s: seq<Entry>, m: map<nat, Page>)
    ensures ListOk(s, m) ==> |m| == |s|
  {
    Sorted(s) && |m| == |s| && Holds(s, m) && Complete(s, m)
  }

  lemma EntryHeld(s: seq<Entry>, m: map<nat, Page>, i: nat)
    requires Holds(s, m) && i < |s|
    ensures s[i].va in m && m[s[i].va] == s[i].page
  {
  }

  lemma NotHeld(s: seq<Entry>, m: map<nat, Page>, va: nat)
    requires Complete(s, m) && forall k :: 0 <= k < |s| ==> s[k].va != va
    ensures va !in m
  {
  }

  /** Everything before `i` is below it, everything after `i` above it. */
  lemma InOrder(s: seq<Entry>, i: nat)
    requires Sorted(s) && i < |s|
    ensures (forall k :: 0 <= k < i ==> s[k].va < s[i].va) && (forall k :: i < k < |s| ==> s[k].va > s[i].va)
  {
  }

  function With(s: seq<Entry>, at: nat, e: Entry): (t: seq<Entry>)
    requires at <= |s|
    ensures |t| == |s| + 1 && forall i :: 0 <= i < |t| ==>
            t[i] == if i < at then s[i] else if i == at then e else s[i - 1]
  {
    s[..at] + [e] + s[at..]
  }

  lemma Inserted(s: seq<Entry>, m: map<nat, Page>, at: nat, e: Entry)
    requires ListOk(s, m) && at <= |s| && e.va !in m && (forall k :: at <= k < |s| ==> s[k].va > e.va)
    requires (at > 0 ==> s[at - 1].va <= e.va)
    ensures ListOk(With(s, at, e), m[e.va := e.page])
  {
    hide With, Sorted, Holds, Complete;
    InsertHolds(s, m, at, e);
    InsertComplete(s, m, at, e);
    InsertSorted(s, m, at, e);
  }

  lemma InsertHolds(s: seq<Entry>, m: map<nat, Page>, at: nat, e: Entry)
    requires Holds(s, m) && at <= |s| && e.va !in m
    ensures Holds(With(s, at, e), m[e.va := e.page])
  {
  }

  lemma InsertComplete(s: seq<Entry>, m: map<nat, Page>, at: nat, e: Entry)
    requires Complete(s, m) && at <= |s|
    ensures Complete(With(s, at, e), m[e.va := e.page])
  {
    hide Position;
    var t := With(s, at, e);
    forall va | va in m[e.va := e.page] ensures Position(t, va) < |t| {
      if va == e.va {
        assert t[at] == e;
      } else {
        assert va in m;
        var i := Position(s, va);
        assert t[if i < at then i else i + 1] == s[i];
      }
    }
  }

  lemma InsertSorted(s: seq<Entry>, m: map<nat, Page>, at: nat, e: Entry)
    requires Sorted(s) && Holds(s, m) && e.va !in m && at <= |s| && (forall k :: at <= k < |s| ==> s[k].va > e.va)
    requires (at > 0 ==> s[at - 1].va <= e.va)
    ensures Sorted(With(s, at, e))
  {
    var t := With(s, at, e);
    if at > 0 {
      InOrder(s, at - 1);
      EntryHeld(s, m, at - 1);
    }
    forall i, j | 0 <= i < j < |t| ensures t[i].va < t[j].va {
    }
  }

  lemma Updated(s: seq<Entry>, m: map<nat, Page>, i: nat, page: Page)
    requires ListOk(s, m) && i < |s|
    ensures ListOk(s[i := s[i].(page := page)], m[s[i].va := page])
  {
    hide Sorted, Holds, Complete;
    var t, m' := s[i := s[i].(page := page)], m[s[i].va := page];
    EntryHeld(s, m, i);
    assert m'.Keys == m.Keys && |m'.Keys| == |m.Keys|;
    UpdateHolds(s, m, i, page);
    UpdateComplete(s, t, m, m');
    SameOrder(s, t);
  }

  lemma UpdateHolds(s: seq<Entry>, m: map<nat, Page>, i: nat, page: Page)
    requires Sorted(s) && Holds(s, m) && i < |s|
    ensures Holds(s[i := s[i].(page := page)], m[s[i].va := page])
  {
    InOrder(s, i);
  }

  lemma UpdateComplete(s: seq<Entry>, t: seq<Entry>, m: map<nat, Page>, m': map<nat, Page>)
    requires Complete(s, m) && m'.Keys == m.Keys && |t| == |s| && forall k :: 0 <= k < |s| ==> t[k].va == s[k].va
    ensures Complete(t, m')
  {
    hide Position;
    forall va | va in m' ensures Position(t, va) < |t| {
      assert va in m;
      assert t[Position(s, va)].va == va;
    }
  }

  lemma SameOrder(s: seq<Entry>, t: seq<Entry>)
    requires Sorted(s) && |t| == |s| && forall k :: 0 <= k < |s| ==> t[k].va == s[k].va
    ensures Sorted(t)
  {
  }

  class PageList {
    const pages: array<Entry>
    var count: nat
    var frames: nat
    /** What vmm_map_page was last told about each page: whether it is writable. */
    var mapped: map<nat, bool>
    ghost var view: map<nat, Page>

    ghost predicate Valid()
      reads this, pages
    {
      && pages.Length == MAX_LOADER_PAGES && count <= pages.Length
      && ListOk(pages[..count], view)
    }

    ghost function State(): (r: Loader)
      reads this
    {
      Loader(view, frames)
    }

    ghost function Placed(): (r: Placement)
      reads this
    {
      Placement(view, frames, mapped)
    }

    constructor (frames: nat)
      ensures Valid() && fresh(pages) && State() == Loader(map[], frames) && mapped == EMPTY_MAP
    {
      pages := new Entry[MAX_LOADER_PAGES](_ => Entry(0, Page([], false)));
      count, this.frames, view, mapped := 0, frames, map[], EMPTY_MAP;
    }

    /** find_page: the index of the page at `va`, or the number of pages when there is none. */
    method FindPage(va: nat) returns (i: nat)
      requires Valid()
      ensures i <= count && (i < count ==> pages[i].va == va)
      ensures i < count <==> va in State().pages
      ensures i < count ==> State().pages[va] == pages[i].page
    {
      hide Sorted, Holds, Complete;
      ghost var s := pages[..count];
      var low, high := 0, count;
      while low < high
        invariant 0 <= low <= high <= count
        invariant forall k :: 0 <= k < low ==> s[k].va < va
        invariant forall k :: high <= k < count ==> s[k].va > va
      {
        var middle := low + (high - low) / 2;
        assert s[middle] == pages[middle];
        InOrder(s, middle);
        if pages[middle].va == va {
          EntryHeld(s, view, middle);
          return middle;
        }
        if pages[middle].va < va { low := middle + 1; } else { high := middle; }
      }
      NotHeld(s, view, va);
      i := count;
    }

    /** The shifting loop of record_page: moves the pages above `va` up by one. */
    method ShiftUp(va: nat) returns (at: nat)
      requires count < pages.Length
      modifies pages
      ensures at <= count && (at > 0 ==> pages[at - 1].va <= va)
      ensures forall k :: 0 <= k < at ==> pages[k] == old(pages[k])
      ensures forall k :: at < k <= count ==> pages[k] == old(pages[k - 1])
      ensures forall k :: at <= k < count ==> old(pages[k]).va > va
    {
      at := count;
      while at > 0 && pages[at - 1].va > va
        invariant 0 <= at <= count
        invariant forall k :: 0 <= k < at ==> pages[k] == old(pages[k])
        invariant forall k :: at < k <= count ==> pages[k] == old(pages[k - 1])
        invariant forall k :: at <= k < count ==> old(pages[k]).va > va
      {
        pages[at] := pages[at - 1];
        at := at - 1;
      }
    }

    /** record_page: shifts the pages above `va` up and puts the new one below them. */
    method RecordPage(va: nat, page: Page) returns (ok: bool)
      requires Valid() && va !in State().pages
      modifies this, pages
      ensures Valid() && frames == old(frames) && mapped == old(mapped) && (ok <==> old(count) < MAX_LOADER_PAGES)
      ensures State().pages == if ok then old(State()).pages[va := page] else old(State()).pages
    {
      hide ListOk;
      if count >= MAX_LOADER_PAGES { return false; }
      ghost var s := pages[..count];
      var at := ShiftUp(va);
      var e := Entry(va, page);
      pages[at] := e;
      assert pages[..count + 1] == With(s, at, e);
      Inserted(s, view, at, e);
      count, view := count + 1, view[va := page];
      ok := true;
    }

    /** Replaces the page at index `i`. */
    method SetPage(i: nat, page: Page)
      requires Valid() && i < count
      modifies this, pages
      ensures Valid() && State() == old(State()).(pages := old(State()).pages[old(pages[i]).va := page])
      ensures mapped == old(mapped)
    {
      hide ListOk;
      ghost var s := pages[..count];
      Updated(s, view, i, page);
      view := view[pages[i].va := page];
      pages[i] := pages[i].(page := page);
      assert pages[..count] == s[i := s[i].(page := page)];
    }

    // elf64_load_reader_ex

    /** One page of a segment: find or record it, then read the bytes of the file into it. */
    method LoadPage(image: Bytes, s: Segment, va: nat) returns (ok: bool)
      requires Valid() && SegmentOk(s, image) && Sized(State().pages)
      modifies this, pages
      ensures Valid()
      ensures var r := LoadOne(old(State()), image, s, va); ok == r.Some? && (ok ==> State() == r.value)
    {
      hide Overlaid, ListOk;
      var i := FindPage(va);
      if i < count {
        var p := pages[i].page;
        SetPage(i, Page(Overlaid(p.bytes, image, s, va), p.writable || s.writable));
        return true;
      }
      if frames == 0 || count >= MAX_LOADER_PAGES { return false; }
      frames := frames - 1;
      ok := RecordPage(va, Page(Overlaid(seq(PAGE, _ => 0), image, s, va), s.writable));
    }

    /** The page loop; `faults` are the failures of the reader. */
    method LoadSegment(image: Bytes, s: Segment, start: nat, end: nat, faults: seq<bool>)
            returns (ok: bool, left: seq<bool>)
      requires Valid() && SegmentOk(s, image) && Sized(State().pages)
      modifies this, pages
      ensures Valid()
      ensures var r := LoadPages(old(State()), image, s, start, end, faults);
              ok == r.Some? && (ok ==> State() == r.value.0 && left == r.value.1)
    {
      hide ListOk, LoadOne;
      var va := start;
      left := faults;
      while va < end
        invariant Valid() && Sized(State().pages)
        invariant LoadPages(old(State()), image, s, start, end, faults) == LoadPages(State(), image, s, va, end, left)
      {
        if Copies(s, va) && left != [] {
          if left[0] { return false, left; }
          left := left[1..];
        }
        ok := LoadPage(image, s, va);
        if !ok { return; }
        va := va + PAGE;
      }
      ok := true;
    }

    /** The loop over program headers. */
    method LoadStream(image: Bytes, hs: seq<Header>, bias: nat, faults: seq<bool>) returns (ok: bool)
      requires Valid() && Sized(State().pages)
      modifies this, pages
      ensures Valid()
      ensures var r := LoadHeaders(old(State()), image, hs, bias, faults);
              ok == r.Some? && (ok ==> State() == r.value.0)
    {
      hide ListOk, LoadPages;
      var left := faults;
      var i := 0;
      while i < |hs|
        invariant 0 <= i <= |hs| && Valid() && Sized(State().pages)
        invariant LoadHeaders(old(State()), image, hs[..i], bias, faults) == Some((State(), left))
      {
        assert hs[..i + 1][..i] == hs[..i] && hs[..i + 1][i] == hs[i];
        var h := hs[i];
        i := i + 1;
        if Skipped(h) { continue; }
        var s := SegmentOf(h, bias);
        var end := AlignUp(s.vaddr + s.memsz);
        if !Admitted(h, |image|, bias) || end < s.vaddr + s.memsz {
          PrefixFails(old(State()), image, hs, bias, faults, i);
          return false;
        }
        ok, left := LoadSegment(image, s, AlignDown(s.vaddr), end, left);
        if !ok {
          PrefixFails(old(State()), image, hs, bias, faults, i);
          return;
        }
      }
      assert hs[..|hs|] == hs;
      ok := true;
    }

    // elf64_load_image_ex

    /** One page of a segment: find or record it, copy from the image, and map it if it starts inside the segment. */
    method PlacePage(image: Bytes, s: Segment, va: nat) returns (ok: bool)
      requires Valid() && SegmentOk(s, image) && Sized(State().pages)
      modifies this, pages
      ensures Valid()
      ensures var r := PlaceOne(old(Placed()), image, s, va); ok == r.Some? && (ok ==> Placed() == r.value)
    {
      hide Filled, ListOk;
      var i := FindPage(va);
      var page: Page;
      if i < count {
        page := pages[i].page.(writable := pages[i].page.writable || s.writable);
        SetPage(i, page.(bytes := Filled(page.bytes, image, s, va)));
      } else {
        if frames == 0 || count >= MAX_LOADER_PAGES { return false; }
        frames := frames - 1;
        page := Page(seq(PAGE, _ => 0), s.writable);
        ok := RecordPage(va, page.(bytes := Filled(page.bytes, image, s, va)));
      }
      ok := true;
      if va >= s.vaddr + s.memsz { return; }
      mapped := mapped[va := page.writable];
    }

    /** The page loop. */
    method PlaceSegment(image: Bytes, s: Segment, start: nat, end: nat) returns (ok: bool)
      requires Valid() && SegmentOk(s, image) && Sized(State().pages)
      modifies this, pages
      ensures Valid()
      ensures var r := PlacePages(old(Placed()), image, s, start, end); ok == r.Some? && (ok ==> Placed() == r.value)
    {
      hide ListOk, PlaceOne;
      var va := start;
      while va < end
        invariant Valid() && Sized(State().pages)
        invariant PlacePages(old(Placed()), image, s, start, end) == PlacePages(Placed(), image, s, va, end)
      {
        ok := PlacePage(image, s, va);
        if !ok { return; }
        va := va + PAGE;
      }
      ok := true;
    }

    /** The loop over program headers. */
    method PlaceImage(image: Bytes, hs: seq<Header>, bias: nat) returns (ok: bool)
      requires Valid() && Sized(State().pages)
      modifies this, pages
      ensures Valid()
      ensures var r := PlaceHeaders(old(Placed()), image, hs, 0, bias); ok == r.Some? && (ok ==> Placed() == r.value)
    {
      hide ListOk, PlacePages;
      var i := 0;
      while i < |hs|
        invariant 0 <= i <= |hs| && Valid() && Sized(State().pages)
        invariant PlaceHeaders(old(Placed()), image, hs, 0, bias) == PlaceHeaders(Placed(), image, hs, i, bias)
      {
        if !Skipped(hs[i]) {
          if !Admitted(hs[i], |image|, bias) { return false; }
          var s := SegmentOf(hs[i], bias);
          ok := PlaceSegment(image, s, AlignDown(s.vaddr), AlignUp(s.vaddr + s.memsz));
          if !ok { return; }
        }
        i := i + 1;
      }
      ok := true;
    }
  }

  lemma {:induction false} PrefixFails(ld: Loader, image: Bytes, hs: seq<Header>, bias: nat, faults: seq<bool>, i: nat)
    requires Sized(ld.pages) && i <= |hs| && LoadHeaders(ld, image, hs[..i], bias, faults).None?
    ensures LoadHeaders(ld, image, hs, bias, faults).None?
    decreases |hs| - i
  {
    if i == |hs| {
      assert hs[..i] == hs;
    } else {
      assert hs[..i + 1][..i] == hs[..i];
      PrefixFails(ld, image, hs, bias, faults, i + 1);
    }
  }

  /** The first pass over the headers: the load bias of a position-independent image. */
  method FindBias(hs: seq<Header>, dynamic: bool, base: nat) returns (bias: Option<nat>)
    ensures bias == LoadBias(hs, dynamic, base)
  {
    if !dynamic { return Some(0); }
    var lowest: Option<nat> := None;
    var i := 0;
    while i < |hs|
      invariant 0 <= i <= |hs| && lowest == LowestPage(hs[..i])
    {
      assert hs[..i + 1][..i] == hs[..i];
      if !Skipped(hs[i]) {
        var start := AlignDown(hs[i].vaddr);
        if lowest.None? || start < lowest.value { lowest := Some(start); }
      }
      i := i + 1;
    }
    assert hs[..|hs|] == hs;
    if lowest.None? || base < lowest.value { return None; }
    bias := Some(base - lowest.value);
  }
}
