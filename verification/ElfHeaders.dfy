/** What a loaded image is, said of its program headers alone: which pages there are, whether they are writable, and
    where every byte comes from. */
module ElfHeaders {
  import opened Options
  import opened LittleEndian
  import opened ElfLoader
  import opened ElfImage

  /** The header asks for memory on the 4096-byte page at `va`. */
  predicate Reaches(h: Header, bias: nat, va: nat)
  {
    h.load && h.memsz > 0 && va % 4096 == 0 && va < h.vaddr + bias + h.memsz && h.vaddr + bias < va + 4096
  }

  /** The header puts a byte of the file at address `a`. */
  predicate Fills(h: Header, bias: nat, a: nat)
  {
    h.load && h.memsz > 0 && h.vaddr + bias <= a < h.vaddr + bias + h.filesz
  }

  /** Headers that count: all of them, or those whose memory stays clear of the last page of the address space. */
  predicate Counts(all: bool, h: Header, bias: nat)
  {
    all || h.vaddr + bias + h.memsz <= 0xFFFF_FFFF_FFFF_F000
  }

  ghost predicate SomeReaches(all: bool, hs: seq<Header>, bias: nat, va: nat)
  {
    exists i :: 0 <= i < |hs| && Counts(all, hs[i], bias) && Reaches(hs[i], bias, va)
  }

  ghost predicate SomeWrites(all: bool, hs: seq<Header>, bias: nat, va: nat)
  {
    exists i :: 0 <= i < |hs| && Counts(all, hs[i], bias) && Reaches(hs[i], bias, va) && hs[i].writable
  }

  /** No header after `i` puts a byte at `a`. */
  predicate NoneAfter(all: bool, hs: seq<Header>, bias: nat, a: nat, i: int)
    requires -1 <= i < |hs|
  {
    forall j :: i < j < |hs| && Counts(all, hs[j], bias) ==> !Fills(hs[j], bias, a)
  }

  /** The byte at `a` is that of the last header that puts one there, and zero if none does. */
  ghost predicate RightByte(all: bool, image: Bytes, hs: seq<Header>, bias: nat, a: nat, b: byte)
  {
    && (NoneAfter(all, hs, bias, a, -1) ==> b == 0)
    && (forall i ::
        0 <= i < |hs| && Counts(all, hs[i], bias) && Fills(hs[i], bias, a) && NoneAfter(all, hs, bias, a, i) ==>
          var at := hs[i].offset + (a - hs[i].vaddr - bias); at < |image| && b == image[at])
  }

  ghost predicate RightPage(all: bool, page: Page, image: Bytes, hs: seq<Header>, bias: nat, va: nat)
  {
    && |page.bytes| == 4096 && (page.writable <==> SomeWrites(all, hs, bias, va))
    && forall k :: 0 <= k < 4096 ==> RightByte(all, image, hs, bias, va + k, page.bytes[k])
  }

  /** The pages are those of the headers that count, byte for byte. */
  ghost predicate ImageOf(all: bool, pages: map<nat, Page>, image: Bytes, hs: seq<Header>, bias: nat)
  {
    && (forall va {:trigger va in pages} :: va in pages <==> SomeReaches(all, hs, bias, va))
    && (forall va {:trigger pages[va]} :: va in pages ==> RightPage(all, pages[va], image, hs, bias, va))
  }

  // Segments are the headers that count

  function SegmentsOf(all: bool, hs: seq<Header>, bias: nat): (segs: seq<Segment>)
  {
    if all then Segments(hs, bias) else KeptSegments(hs, bias)
  }

  lemma {:induction false} MappedIff(all: bool, hs: seq<Header>, bias: nat, va: nat)
    ensures Mapped(SegmentsOf(all, hs, bias), va) <==> SomeReaches(all, hs, bias, va)
    ensures Writable(SegmentsOf(all, hs, bias), va) <==> SomeWrites(all, hs, bias, va)
    decreases |hs|
  {
    if hs != [] {
      var before, h := hs[..|hs| - 1], hs[|hs| - 1];
      var segs, rest := SegmentsOf(all, hs, bias), SegmentsOf(all, before, bias);
      MappedIff(all, before, bias, va);
      assert SomeReaches(all, hs, bias, va) <==>
               SomeReaches(all, before, bias, va) || (Counts(all, h, bias) && Reaches(h, bias, va)) by {
        ReachesLast(all, hs, bias, va);
      }
      assert SomeWrites(all, hs, bias, va) <==>
               SomeWrites(all, before, bias, va) || (Counts(all, h, bias) && Reaches(h, bias, va) && h.writable) by {
        ReachesLast(all, hs, bias, va);
      }
      MappedLast(rest, SegmentOf(h, bias), va);
    }
  }

  lemma ReachesLast(all: bool, hs: seq<Header>, bias: nat, va: nat)
    requires hs != []
    ensures var before, h := hs[..|hs| - 1], hs[|hs| - 1];
            && (SomeReaches(all, hs, bias, va) <==>
                  SomeReaches(all, before, bias, va) || (Counts(all, h, bias) && Reaches(h, bias, va)))
            && (SomeWrites(all, hs, bias, va) <==>
                  SomeWrites(all, before, bias, va) || (Counts(all, h, bias) && Reaches(h, bias, va) && h.writable))
  {
    hide Counts, Reaches;
    var before := hs[..|hs| - 1];
    assert forall i :: 0 <= i < |before| ==> before[i] == hs[i];
  }

  lemma MappedLast(segs: seq<Segment>, s: Segment, va: nat)
    ensures Mapped(segs + [s], va) <==> Mapped(segs, va) || HasPage(s, va)
    ensures Writable(segs + [s], va) <==> Writable(segs, va) || (HasPage(s, va) && s.writable)
  {
    hide HasPage;
    assert forall i :: 0 <= i < |segs| ==> (segs + [s])[i] == segs[i];
    assert (segs + [s])[|segs|] == s;
  }

  lemma RightLast(all: bool, image: Bytes, hs: seq<Header>, bias: nat, a: nat, b: byte)
    requires hs != []
    requires var h := hs[|hs| - 1];
             if Counts(all, h, bias) && Fills(h, bias, a)
             then var at := h.offset + (a - h.vaddr - bias); at < |image| && b == image[at]
             else RightByte(all, image, hs[..|hs| - 1], bias, a, b)
    ensures RightByte(all, image, hs, bias, a, b)
  {
    hide Counts, NoneAfter, Fills;
    var n, before := |hs| - 1, hs[..|hs| - 1];
    forall i | -1 <= i < n
      ensures NoneAfter(all, hs, bias, a, i) <==>
                NoneAfter(all, before, bias, a, i) && !(Counts(all, hs[n], bias) && Fills(hs[n], bias, a))
    {
      AfterLast(all, hs, bias, a, i);
    }
    assert forall i :: 0 <= i < n ==> before[i] == hs[i];
  }

  lemma AfterLast(all: bool, hs: seq<Header>, bias: nat, a: nat, i: int)
    requires hs != [] && -1 <= i < |hs| - 1
    ensures var n := |hs| - 1;
            NoneAfter(all, hs, bias, a, i) <==>
              NoneAfter(all, hs[..n], bias, a, i) && !(Counts(all, hs[n], bias) && Fills(hs[n], bias, a))
  {
    hide Counts, Fills;
    assert forall j :: 0 <= j < |hs| - 1 ==> hs[..|hs| - 1][j] == hs[j];
  }

  /** The last segment is that of the last header, if it counts. */
  lemma SegmentsLast(all: bool, hs: seq<Header>, bias: nat)
    requires hs != []
    ensures var h, rest := hs[|hs| - 1], SegmentsOf(all, hs[..|hs| - 1], bias);
            SegmentsOf(all, hs, bias) ==
              if h.load && h.memsz > 0 && Counts(all, h, bias)
              then rest + [Segment(h.writable, h.offset, h.vaddr + bias, h.filesz, h.memsz)] else rest
  {
  }

  lemma {:induction false} ByteIs(all: bool, image: Bytes, hs: seq<Header>, bias: nat, a: nat)
    requires AllOk(SegmentsOf(all, hs, bias), image)
    ensures RightByte(all, image, hs, bias, a, ByteAt(image, SegmentsOf(all, hs, bias), a))
    decreases |hs|
  {
    hide Counts, RightByte, SegmentsOf;
    SegmentsLastOr(all, hs, bias);
    var segs := SegmentsOf(all, hs, bias);
    if hs == [] {
      NoHeaders(all, image, bias, a);
    } else {
      var before := hs[..|hs| - 1];
      var rest := SegmentsOf(all, before, bias);
      assert forall i :: 0 <= i < |rest| ==> rest[i] == segs[i];
      ByteIs(all, image, before, bias, a);
      assert segs != rest ==> segs[..|segs| - 1] == rest;
      RightLast(all, image, hs, bias, a, ByteAt(image, segs, a));
    }
  }

  lemma SegmentsLastOr(all: bool, hs: seq<Header>, bias: nat)
    ensures hs == [] ==> SegmentsOf(all, hs, bias) == []
    ensures hs != [] ==>
              var h, rest := hs[|hs| - 1], SegmentsOf(all, hs[..|hs| - 1], bias);
              SegmentsOf(all, hs, bias) ==
                if h.load && h.memsz > 0 && Counts(all, h, bias)
                then rest + [Segment(h.writable, h.offset, h.vaddr + bias, h.filesz, h.memsz)] else rest
  {
    if hs != [] {
      SegmentsLast(all, hs, bias);
    }
  }

  lemma NoHeaders(all: bool, image: Bytes, bias: nat, a: nat)
    ensures RightByte(all, image, [], bias, a, 0)
  {
  }

  // The loaders

  lemma LoadedIsImage(all: bool, pages: map<nat, Page>, image: Bytes, hs: seq<Header>, bias: nat)
    requires AllOk(SegmentsOf(all, hs, bias), image) && Loaded(pages, image, SegmentsOf(all, hs, bias))
    ensures ImageOf(all, pages, image, hs, bias)
  {
    hide SegmentsOf, Mapped, Writable, SomeReaches, SomeWrites, RightByte, AllOk, ByteAt;
    var segs := SegmentsOf(all, hs, bias);
    assert forall i :: 0 <= i < |segs| ==> SegmentOk(segs[i], image) by { AllAre(segs, image); }
    forall va ensures va in pages <==> SomeReaches(all, hs, bias, va) {
      if va in pages {
        MappedIff(all, hs, bias, va);
      } else if SomeReaches(all, hs, bias, va) {
        MappedIff(all, hs, bias, va);
      }
    }
    forall va | va in pages ensures RightPage(all, pages[va], image, hs, bias, va) {
      MappedIff(all, hs, bias, va);
      assert PageIs(pages[va], image, segs, va);
      forall k | 0 <= k < 4096 ensures RightByte(all, image, hs, bias, va + k, pages[va].bytes[k]) {
        ByteIs(all, image, hs, bias, va + k);
        assert pages[va].bytes[k] == PageByte(image, segs, va, k);
      }
    }
  }

  lemma AllAre(segs: seq<Segment>, image: Bytes)
    requires AllOk(segs, image)
    ensures forall i :: 0 <= i < |segs| ==> SegmentOk(segs[i], image)
  {
  }

  /** The streaming loader: what it loads is the image of all headers. */
  lemma StreamedHeaders(image: Bytes, hs: seq<Header>, bias: nat, frames: nat, faults: seq<bool>)
    requires LoadHeaders(Loader(map[], frames), image, hs, bias, faults).Some?
    ensures ImageOf(true, LoadHeaders(Loader(map[], frames), image, hs, bias, faults).value.0.pages, image, hs, bias)
  {
    hide LoadHeaders, ImageOf, Loaded;
    StreamedImageIsCorrect(image, hs, bias, frames, faults);
    LoadedIsImage(true, LoadHeaders(Loader(map[], frames), image, hs, bias, faults).value.0.pages, image, hs, bias);
  }

  /** The in-memory loader: what it loads is the image of the headers clear of the last page, and every page is mapped
      with its permission. */
  lemma PlacedHeaders(image: Bytes, hs: seq<Header>, bias: nat, frames: nat)
    requires LoadImage(image, hs, bias, frames).Some?
    ensures var st := LoadImage(image, hs, bias, frames).value;
            && ImageOf(false, st.pages, image, hs, bias)
            && st.mapped == map va | va in st.pages :: st.pages[va].writable
  {
    hide LoadImage, ImageOf, Loaded;
    PlacedImageIsCorrect(image, hs, bias, frames);
    LoadedIsImage(false, LoadImage(image, hs, bias, frames).value.pages, image, hs, bias);
  }

  /** The load bias: none for a fixed image; for a dynamic one the distance from its lowest page to the base, if that is
      not negative and there is anything to load. */
  lemma BiasIs(hs: seq<Header>, dynamic: bool, base: nat)
    ensures !dynamic ==> LoadBias(hs, dynamic, base) == Some(0)
    ensures dynamic ==>
              (LoadBias(hs, dynamic, base).None? <==>
                 forall i :: 0 <= i < |hs| && hs[i].load && hs[i].memsz > 0 ==> base < hs[i].vaddr / 4096 * 4096)
  {
    LowestFacts(hs);
  }

  /** A header is refused exactly when its file part is longer than its memory or outside the file, or its memory is not
      below 2^64. */
  lemma AdmittedIff(h: Header, size: nat, bias: nat)
    requires size < 0x1_0000_0000_0000_0000
    ensures Admitted(h, size, bias) <==>
              h.filesz <= h.memsz && h.offset + h.filesz <= size && h.vaddr + bias + h.memsz < 0x1_0000_0000_0000_0000
  {
  }
}
