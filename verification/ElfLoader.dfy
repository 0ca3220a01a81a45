/** Segment loading (kernel/elf64_loader.c) up to relocation: what a loaded image should be, and the streaming loader.
    The pages under construction are a map here; the sorted page array that the kernel searches refines it elsewhere.
    */
module ElfLoader {
  import opened Options
  import opened LittleEndian

  const PAGE: nat := 4096
  const MAX_LOADER_PAGES: nat := 131072
  const MAX_PROGRAM_HEADERS: nat := 256

  /** A program header: whether it is PT_LOAD and writable, and where its bytes are and go. */
  datatype Header = Header(load: bool, writable: bool, offset: nat, vaddr: nat, filesz: nat, memsz: nat)

  /** A segment admitted for loading; `vaddr` includes the load bias. */
  datatype Segment = Segment(writable: bool, offset: nat, vaddr: nat, filesz: nat, memsz: nat)

  datatype Page = Page(bytes: Bytes, writable: bool)

  /** Pages recorded so far and blocks left in the frame allocator. */
  datatype Loader = Loader(pages: map<nat, Page>, frames: nat)

  function AlignDown(n: nat): (r: nat)
  {
    n / PAGE * PAGE
  }

  /** align_up_4k, in 64-bit arithmetic. */
  function AlignUp(n: nat): (r: nat)
  {
    (n + PAGE - 1) % U64 / PAGE * PAGE
  }

  // What a loaded image should be

  predicate SegmentOk(s: Segment, image: Bytes)
  {
    0 < s.memsz && s.filesz <= s.memsz && s.offset + s.filesz <= |image| && s.vaddr + s.memsz < U64
  }

  /** The segment's memory ends too close to the top of the address space for its last page to be counted. */
  predicate Wraps(s: Segment)
  {
    s.vaddr + s.memsz > U64 - PAGE
  }

  predicate HasByte(s: Segment, a: nat)
  {
    s.vaddr <= a < s.vaddr + s.filesz
  }

  predicate HasPage(s: Segment, va: nat)
  {
    va % PAGE == 0 && va < s.vaddr + s.memsz && s.vaddr < va + PAGE
  }

  /** The byte at address `a`: from the last segment whose file range reaches it, or zero. */
  function ByteAt(image: Bytes, segs: seq<Segment>, a: nat): (r: byte)
    requires forall i :: 0 <= i < |segs| ==> SegmentOk(segs[i], image)
  {
    if segs == [] then 0
    else
      var s := segs[|segs| - 1];
      assert SegmentOk(s, image);
      if HasByte(s, a) then image[s.offset + (a - s.vaddr)] else ByteAt(image, segs[..|segs| - 1], a)
  }

  /** Byte `k` of the page at `va`. */
  function PageByte(image: Bytes, segs: seq<Segment>, va: nat, k: nat): (r: byte)
    requires forall i :: 0 <= i < |segs| ==> SegmentOk(segs[i], image)
  {
    ByteAt(image, segs, va + k)
  }

  predicate Mapped(segs: seq<Segment>, va: nat)
  {
    exists i :: 0 <= i < |segs| && HasPage(segs[i], va)
  }

  predicate Writable(segs: seq<Segment>, va: nat)
  {
    exists i :: 0 <= i < |segs| && HasPage(segs[i], va) && segs[i].writable
  }

  /** The page of `segs` at `va`. */
  ghost predicate PageIs(p: Page, image: Bytes, segs: seq<Segment>, va: nat)
    requires forall i :: 0 <= i < |segs| ==> SegmentOk(segs[i], image)
  {
    && |p.bytes| == PAGE && p.writable == Writable(segs, va)
    && forall k :: 0 <= k < PAGE ==> p.bytes[k] == PageByte(image, segs, va, k)
  }

  /** Exactly the pages of `segs` are present, and each is right. */
  ghost predicate Loaded(pages: map<nat, Page>, image: Bytes, segs: seq<Segment>)
    requires forall i :: 0 <= i < |segs| ==> SegmentOk(segs[i], image)
  {
    && (forall va {:trigger va in pages} :: va in pages <==> Mapped(segs, va))
    && (forall va {:trigger pages[va]} :: va in pages ==> PageIs(pages[va], image, segs, va))
  }

  // Loading

  /** Finds the page at `va`, or records a cleared one. */
  function Touch(ld: Loader, va: nat, writable: bool): (r: Option<Loader>)
  {
    if va in ld.pages then Some(ld.(pages := ld.pages[va :=
        ld.pages[va].(writable := ld.pages[va].writable || writable)]))
    else if ld.frames == 0 || |ld.pages| >= MAX_LOADER_PAGES then None
    else Some(Loader(ld.pages[va := Page(seq(PAGE, _ => 0), writable)], ld.frames - 1))
  }

  /** The part of the page at `va` that the segment's file bytes fill. */
  function Overlaid(bytes: Bytes, image: Bytes, s: Segment, va: nat): (r: Bytes)
    requires |bytes| == PAGE && SegmentOk(s, image)
    ensures |r| == PAGE
    ensures forall k ::
            0 <= k < PAGE ==> r[k] == if HasByte(s, va + k) then image[s.offset + (va + k - s.vaddr)] else bytes[k]
  {
    var start := if va > s.vaddr then va else s.vaddr;
    var end := if va + PAGE < s.vaddr + s.filesz then va + PAGE else s.vaddr + s.filesz;
    if end > start then
      bytes[..start - va] + image[s.offset + (start - s.vaddr)..s.offset + (end - s.vaddr)] + bytes[end - va..]
    else bytes
  }

  /** Whether the page takes bytes from the file, so that a reader is called for it. */
  predicate Copies(s: Segment, va: nat)
  {
    (if va + PAGE < s.vaddr + s.filesz then va + PAGE else s.vaddr + s.filesz) > (if va > s.vaddr then va else s.vaddr)
  }

  predicate Sized(pages: map<nat, Page>)
  {
    forall va :: va in pages ==> |pages[va].bytes| == PAGE
  }

  /** One page of a segment: found or recorded, then filled from the file. */
  function LoadOne(ld: Loader, image: Bytes, s: Segment, va: nat): (r: Option<Loader>)
    requires SegmentOk(s, image) && Sized(ld.pages)
    ensures r.Some? ==> Sized(r.value.pages)
  {
    var t := Touch(ld, va, s.writable);
    if t.None? then None
    else
      var p := t.value.pages[va];
      Some(t.value.(pages := t.value.pages[va := p.(bytes := Overlaid(p.bytes, image, s, va))]))
  }

  /** The page loop from `va` to `end`. `faults` says which calls of the reader fail; the in-memory loader makes none.
      */
  function LoadPages(ld: Loader, image: Bytes, s: Segment, va: nat, end: nat,
          faults: seq<bool>): (r: Option<(Loader, seq<bool>)>)
    requires SegmentOk(s, image) && Sized(ld.pages)
    ensures r.Some? ==> Sized(r.value.0.pages)
    decreases end - va
  {
    if va >= end then Some((ld, faults))
    else
      var one := LoadOne(ld, image, s, va);
      if one.None? || (Copies(s, va) && faults != [] && faults[0]) then None
      else LoadPages(one.value, image, s, va + PAGE, end, if Copies(s, va) && faults != [] then faults[1..] else faults)
  }

  // One segment

  /** Pages below `va` already hold `s`; the others do not. */
  ghost predicate Between(pages: map<nat, Page>, image: Bytes, segs: seq<Segment>, s: Segment, va: nat)
    requires (forall i :: 0 <= i < |segs| ==> SegmentOk(segs[i], image)) && SegmentOk(s, image)
  {
    && (forall p: nat {:trigger p in pages} :: p in pages <==> Mapped(segs, p) || (p < va && HasPage(s, p)))
    && (forall p {:trigger pages[p]} :: p in pages ==> PageIs(pages[p], image, if p < va then segs + [s] else segs, p))
  }

  lemma MappedSnoc(segs: seq<Segment>, s: Segment, va: nat)
    ensures Mapped(segs + [s], va) <==> Mapped(segs, va) || HasPage(s, va)
    ensures Writable(segs + [s], va) <==> Writable(segs, va) || (HasPage(s, va) && s.writable)
  {
    var all := segs + [s];
    if HasPage(s, va) {
      assert HasPage(all[|segs|], va);
    }
    forall i | 0 <= i < |segs| ensures all[i] == segs[i] {
    }
  }

  lemma ByteSnoc(image: Bytes, segs: seq<Segment>, s: Segment, a: nat)
    requires (forall i :: 0 <= i < |segs| ==> SegmentOk(segs[i], image)) && SegmentOk(s, image)
    ensures ByteAt(image, segs + [s], a) == if HasByte(s, a) then image[s.offset + (a - s.vaddr)]
            else ByteAt(image, segs, a)
  {
    assert (segs + [s])[..|segs|] == segs;
  }

  /** A page the segment does not reach is the same with and without it. */
  lemma PageApart(p: Page, image: Bytes, segs: seq<Segment>, s: Segment, va: nat)
    requires (forall i :: 0 <= i < |segs| ==> SegmentOk(segs[i], image)) && SegmentOk(s, image) && !HasPage(s, va)
             && va % PAGE == 0
    ensures PageIs(p, image, segs + [s], va) <==> PageIs(p, image, segs, va)
  {
    MappedSnoc(segs, s, va);
    forall k | 0 <= k < PAGE ensures PageByte(image, segs + [s], va, k) == PageByte(image, segs, va, k) {
      ByteSnoc(image, segs, s, va + k);
    }
  }

  lemma MappedAligned(segs: seq<Segment>, va: nat)
    ensures Mapped(segs, va) ==> va % PAGE == 0
  {
  }

  /** Addresses of pages not yet mapped hold no bytes of earlier segments. */
  lemma UnmappedIsZero(image: Bytes, segs: seq<Segment>, va: nat, k: nat)
    requires (forall i :: 0 <= i < |segs| ==> SegmentOk(segs[i], image)) && !Mapped(segs, va) && va % PAGE == 0
             && k < PAGE
    ensures ByteAt(image, segs, va + k) == 0
  {
    if segs != [] {
      var last := segs[|segs| - 1];
      assert !HasPage(last, va);
      var rest := segs[..|segs| - 1];
      assert forall i :: 0 <= i < |rest| ==> rest[i] == segs[i];
      UnmappedIsZero(image, rest, va, k);
    }
  }

  /** Touching and overlaying a page of the segment makes it right. */
  lemma PageDone(ld: Loader, image: Bytes, segs: seq<Segment>, s: Segment, va: nat)
    requires (forall i :: 0 <= i < |segs| ==> SegmentOk(segs[i], image)) && SegmentOk(s, image) && HasPage(s, va)
    requires va in ld.pages <==> Mapped(segs, va)
    requires va in ld.pages ==> PageIs(ld.pages[va], image, segs, va)
    requires Touch(ld, va, s.writable).Some?
    ensures var p := Touch(ld, va, s.writable).value.pages[va];
            |p.bytes| == PAGE && PageIs(p.(bytes := Overlaid(p.bytes, image, s, va)), image, segs + [s], va)
  {
    hide Overlaid;
    var p := Touch(ld, va, s.writable).value.pages[va];
    MappedSnoc(segs, s, va);
    assert p.writable == Writable(segs + [s], va);
    var bytes := Overlaid(p.bytes, image, s, va);
    forall k | 0 <= k < PAGE ensures bytes[k] == PageByte(image, segs + [s], va, k) {
      ByteSnoc(image, segs, s, va + k);
      if va !in ld.pages {
        UnmappedIsZero(image, segs, va, k);
      }
    }
  }

  /** One page further. */
  lemma LoadOneFacts(ld: Loader, image: Bytes, segs: seq<Segment>, s: Segment, va: nat)
    requires (forall i :: 0 <= i < |segs| ==> SegmentOk(segs[i], image)) && SegmentOk(s, image) && Sized(ld.pages)
    requires Between(ld.pages, image, segs, s, va) && HasPage(s, va) && LoadOne(ld, image, s, va).Some?
    ensures Between(LoadOne(ld, image, s, va).value.pages, image, segs, s, va + PAGE)
  {
    hide PageIs, Mapped, Overlaid, Touch;
    TouchKeeps(ld, va, s.writable);
    PageDone(ld, image, segs, s, va);
    var pages := LoadOne(ld, image, s, va).value.pages;
    forall q | q in pages ensures PageIs(pages[q], image, if q < va + PAGE then segs + [s] else segs, q) {
      if q != va && q < va + PAGE && q >= va {
        MappedAligned(segs, q);
      }
    }
    forall q: nat ensures q in pages <==> Mapped(segs, q) || (q < va + PAGE && HasPage(s, q)) {
    }
  }

  /** The page loop of one segment. */
  lemma {:induction false} LoadPagesFacts(ld: Loader, image: Bytes, segs: seq<Segment>, s: Segment, va: nat, end: nat,
          faults: seq<bool>)
    requires (forall i :: 0 <= i < |segs| ==> SegmentOk(segs[i], image)) && SegmentOk(s, image) && Sized(ld.pages)
    requires Between(ld.pages, image, segs, s, va) && va % PAGE == 0 && AlignDown(s.vaddr) <= va && end % PAGE == 0
    requires end < s.vaddr + s.memsz + PAGE
    ensures var r := LoadPages(ld, image, s, va, end, faults);
            r.Some? ==> Between(r.value.0.pages, image, segs, s, if va > end then va else end)
    decreases end - va
  {
    hide Between, LoadOne, HasPage, Sized;
    if va < end && LoadPages(ld, image, s, va, end, faults).Some? {
      InSegment(s, va, end);
      LoadOneFacts(ld, image, segs, s, va);
      var ld1 := LoadOne(ld, image, s, va).value;
      LoadPagesFacts(ld1, image, segs, s, va + PAGE, end, if Copies(s, va) && faults != [] then faults[1..]
          else faults);
    }
  }

  lemma InSegment(s: Segment, va: nat, end: nat)
    requires va % PAGE == 0 && AlignDown(s.vaddr) <= va < end && end % PAGE == 0 && end < s.vaddr + s.memsz + PAGE
    ensures HasPage(s, va)
  {
  }

  lemma TouchKeeps(ld: Loader, va: nat, writable: bool)
    requires Touch(ld, va, writable).Some?
    ensures var t := Touch(ld, va, writable).value;
            va in t.pages && t.pages.Keys == ld.pages.Keys + {va} && forall q :: q in ld.pages && q != va ==>
                t.pages[q] == ld.pages[q]
  {
  }

  // Whole images

  predicate Skipped(h: Header)
  {
    !h.load || h.memsz == 0
  }

  /** The range checks both loaders make on a PT_LOAD header. */
  predicate Admitted(h: Header, size: nat, bias: nat)
  {
    && h.filesz <= h.memsz && h.offset + h.filesz < U64 && h.offset + h.filesz <= size
    && h.vaddr + bias < U64 && h.vaddr + bias + h.filesz < U64 && h.vaddr + bias + h.memsz < U64
  }

  function SegmentOf(h: Header, bias: nat): (r: Segment)
  {
    Segment(h.writable, h.offset, h.vaddr + bias, h.filesz, h.memsz)
  }

  /** The load bias: zero, or what moves the lowest page of a position-independent image to `base`. */
  function LowestPage(hs: seq<Header>): (r: Option<nat>)
  {
    if hs == [] then None
    else
      var rest := LowestPage(hs[..|hs| - 1]);
      var h := hs[|hs| - 1];
      if Skipped(h) then rest
      else if rest.None? || AlignDown(h.vaddr) < rest.value then Some(AlignDown(h.vaddr))
      else rest
  }

  function LoadBias(hs: seq<Header>, dynamic: bool, base: nat): (r: Option<nat>)
  {
    if !dynamic then Some(0)
    else
      var lowest := LowestPage(hs);
      if lowest.None? || base < lowest.value then None else Some(base - lowest.value)
  }

  /** The segments of a list of headers. */
  function Segments(hs: seq<Header>, bias: nat): (r: seq<Segment>)
  {
    if hs == [] then []
    else
      var rest, h := Segments(hs[..|hs| - 1], bias), hs[|hs| - 1];
      if Skipped(h) then rest else rest + [SegmentOf(h, bias)]
  }

  /** The loop over program headers of elf64_load_reader_ex. */
  function LoadHeaders(ld: Loader, image: Bytes, hs: seq<Header>, bias: nat,
          faults: seq<bool>): (r: Option<(Loader, seq<bool>)>)
    requires Sized(ld.pages)
    ensures r.Some? ==> Sized(r.value.0.pages)
    decreases |hs|
  {
    if hs == [] then Some((ld, faults))
    else
      var before := LoadHeaders(ld, image, hs[..|hs| - 1], bias, faults);
      if before.None? then None
      else LoadHeader(before.value.0, image, hs[|hs| - 1], bias, before.value.1)
  }

  function LoadHeader(ld: Loader, image: Bytes, h: Header, bias: nat,
          faults: seq<bool>): (r: Option<(Loader, seq<bool>)>)
    requires Sized(ld.pages)
    ensures r.Some? ==> Sized(r.value.0.pages)
  {
    if Skipped(h) then Some((ld, faults))
    else if !Admitted(h, |image|, bias) then None
    else
      var s := SegmentOf(h, bias);
      var end := AlignUp(s.vaddr + s.memsz);
      if end < s.vaddr + s.memsz then None
      else LoadPages(ld, image, s, AlignDown(s.vaddr), end, faults)
  }

  ghost predicate AllOk(segs: seq<Segment>, image: Bytes)
  {
    forall i :: 0 <= i < |segs| ==> SegmentOk(segs[i], image)
  }

  lemma BetweenStarts(pages: map<nat, Page>, image: Bytes, segs: seq<Segment>, s: Segment)
    requires AllOk(segs, image) && SegmentOk(s, image) && Loaded(pages, image, segs)
    ensures Between(pages, image, segs, s, AlignDown(s.vaddr))
  {
    hide PageIs, Mapped;
    forall p | p in pages ensures PageIs(pages[p], image, if p < AlignDown(s.vaddr) then segs + [s] else segs, p) {
      MappedAligned(segs, p);
      if p < AlignDown(s.vaddr) {
        PageApart(pages[p], image, segs, s, p);
      }
    }
  }

  lemma BetweenEnds(pages: map<nat, Page>, image: Bytes, segs: seq<Segment>, s: Segment)
    requires AllOk(segs, image) && SegmentOk(s, image) && !Wraps(s)
    requires Between(pages, image, segs, s, AlignUp(s.vaddr + s.memsz))
    ensures Loaded(pages, image, segs + [s])
  {
    hide PageIs, Mapped;
    var end := AlignUp(s.vaddr + s.memsz);
    forall va: nat ensures va in pages <==> Mapped(segs + [s], va) {
      MappedSnoc(segs, s, va);
    }
    forall p | p in pages ensures PageIs(pages[p], image, segs + [s], p) {
      MappedAligned(segs, p);
      if p >= end {
        PageApart(pages[p], image, segs, s, p);
      }
    }
  }

  lemma LoadHeaderFacts(ld: Loader, image: Bytes, segs: seq<Segment>, h: Header, bias: nat, faults: seq<bool>)
    requires AllOk(segs, image) && Sized(ld.pages) && Loaded(ld.pages, image, segs) && !Skipped(h)
    requires LoadHeader(ld, image, h, bias, faults).Some?
    ensures var s := SegmentOf(h, bias);
            SegmentOk(s, image) && !Wraps(s) && Loaded(LoadHeader(ld, image, h, bias, faults).value.0.pages, image,
                segs + [s])
  {
    hide Loaded, Between, LoadPages;
    var s := SegmentOf(h, bias);
    var end := AlignUp(s.vaddr + s.memsz);
    BetweenStarts(ld.pages, image, segs, s);
    LoadPagesFacts(ld, image, segs, s, AlignDown(s.vaddr), end, faults);
    BetweenEnds(LoadPages(ld, image, s, AlignDown(s.vaddr), end, faults).value.0.pages, image, segs, s);
  }

  lemma {:induction false} LoadAllFacts(ld: Loader, image: Bytes, hs: seq<Header>, bias: nat, faults: seq<bool>)
    requires ld.pages == map[]
    requires LoadHeaders(ld, image, hs, bias, faults).Some?
    ensures var segs := Segments(hs, bias);
            AllOk(segs, image) && Loaded(LoadHeaders(ld, image, hs, bias, faults).value.0.pages, image, segs)
    ensures forall i :: 0 <= i < |hs| && !Skipped(hs[i]) ==> !Wraps(SegmentOf(hs[i], bias))
    decreases |hs|
  {
    hide Loaded, LoadHeader;
    if hs == [] {
      assert Loaded(ld.pages, image, []) by { NothingLoaded(image); }
    } else {
      var init, h := hs[..|hs| - 1], hs[|hs| - 1];
      LoadAllFacts(ld, image, init, bias, faults);
      var before := LoadHeaders(ld, image, init, bias, faults).value;
      if !Skipped(h) {
        LoadHeaderFacts(before.0, image, Segments(init, bias), h, bias, before.1);
      } else {
        SkipHeader(before.0, image, h, bias, before.1);
      }
      forall i | 0 <= i < |hs| && !Skipped(hs[i]) ensures !Wraps(SegmentOf(hs[i], bias)) {
        if i < |hs| - 1 {
          assert init[i] == hs[i];
        }
      }
    }
  }

  lemma SkipHeader(ld: Loader, image: Bytes, h: Header, bias: nat, faults: seq<bool>)
    requires Skipped(h) && Sized(ld.pages)
    ensures LoadHeader(ld, image, h, bias, faults) == Some((ld, faults))
  {
  }

  lemma NothingLoaded(image: Bytes)
    ensures Loaded(map[], image, [])
  {
  }

  // Main results

  /** The streaming loader: success leaves exactly the pages of the image's segments, every byte from the file or zero,
      and a page writable exactly when a writable segment reaches it, whatever the reader did. */
  lemma StreamedImageIsCorrect(image: Bytes, hs: seq<Header>, bias: nat, frames: nat, faults: seq<bool>)
    requires LoadHeaders(Loader(map[], frames), image, hs, bias, faults).Some?
    ensures AllOk(Segments(hs, bias), image)
    ensures Loaded(LoadHeaders(Loader(map[], frames), image, hs, bias, faults).value.0.pages, image, Segments(hs, bias))
  {
    hide Loaded, LoadHeaders;
    LoadAllFacts(Loader(map[], frames), image, hs, bias, faults);
  }

  lemma LoadedOnce(a: map<nat, Page>, b: map<nat, Page>, image: Bytes, segs: seq<Segment>)
    requires AllOk(segs, image) && Loaded(a, image, segs) && Loaded(b, image, segs)
    ensures a == b
  {
    forall va | va in a ensures va in b && a[va] == b[va] {
      assert va in b <==> Mapped(segs, va);
      assert PageIs(a[va], image, segs, va) && PageIs(b[va], image, segs, va);
      assert a[va].bytes == b[va].bytes;
    }
    forall va | va in b ensures va in a {
      assert va in a <==> Mapped(segs, va);
    }
    assert a.Keys == b.Keys;
  }

  // Disjoint segments

  ghost predicate DisjointFiles(segs: seq<Segment>)
  {
    forall i, j {:trigger segs[i], segs[j]} :: 0 <= i < |segs| && 0 <= j < |segs| && i != j ==>
      segs[i].vaddr + segs[i].filesz <= segs[j].vaddr || segs[j].vaddr + segs[j].filesz <= segs[i].vaddr
          || segs[i].filesz == 0 || segs[j].filesz == 0
  }

  /** With disjoint file ranges each segment's bytes are where its header says, and all other bytes are zero. */
  lemma {:induction false} DisjointBytes(image: Bytes, segs: seq<Segment>, i: nat, j: nat)
    requires AllOk(segs, image) && DisjointFiles(segs) && i < |segs| && j < segs[i].filesz
    ensures ByteAt(image, segs, segs[i].vaddr + j) == image[segs[i].offset + j]
    decreases |segs|
  {
    if i < |segs| - 1 {
      var init := segs[..|segs| - 1];
      assert init[i] == segs[i] && !HasByte(segs[|segs| - 1], segs[i].vaddr + j);
      assert forall a, b :: 0 <= a < |init| && 0 <= b < |init| ==> init[a] == segs[a] && init[b] == segs[b];
      DisjointBytes(image, init, i, j);
    }
  }

  lemma {:induction false} OtherBytesAreZero(image: Bytes, segs: seq<Segment>, a: nat)
    requires AllOk(segs, image) && forall i :: 0 <= i < |segs| ==> !HasByte(segs[i], a)
    ensures ByteAt(image, segs, a) == 0
    decreases |segs|
  {
    if segs != [] {
      var init := segs[..|segs| - 1];
      assert forall i :: 0 <= i < |init| ==> init[i] == segs[i];
      OtherBytesAreZero(image, init, a);
    }
  }

  /** The load bias of a position-independent image puts its lowest page at `base` and every other segment above it. */
  lemma {:induction false} BiasMovesLowest(hs: seq<Header>, base: nat)
    requires LoadBias(hs, true, base).Some?
    ensures var bias := LoadBias(hs, true, base).value;
            && (forall i :: 0 <= i < |hs| && !Skipped(hs[i]) ==> AlignDown(hs[i].vaddr) + bias >= base)
            && exists i :: 0 <= i < |hs| && !Skipped(hs[i]) && AlignDown(hs[i].vaddr) + bias == base
  {
    LowestFacts(hs);
  }

  lemma {:induction false} LowestFacts(hs: seq<Header>)
    ensures var r := LowestPage(hs);
            && (r.None? ==> forall i :: 0 <= i < |hs| ==> Skipped(hs[i]))
            && (r.Some? ==> (forall i :: 0 <= i < |hs| && !Skipped(hs[i]) ==> AlignDown(hs[i].vaddr) >= r.value)
                            && exists i :: 0 <= i < |hs| && !Skipped(hs[i]) && AlignDown(hs[i].vaddr) == r.value)
  {
    hide AlignDown;
    if hs != [] {
      var init := hs[..|hs| - 1];
      LowestFacts(init);
      assert forall i :: 0 <= i < |init| ==> init[i] == hs[i];
    }
  }
}
