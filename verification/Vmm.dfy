/** The memory manager as kernel/vmm.c writes it: methods that walk and rewrite the page tables of
    physical memory in place. Each is proved to compute the function of the same operation in modules
    PageTables, CowSpaces, CowTeardown, CowFork and CowRuns, about which the theorems are stated.
    Clearing and copying a whole frame are single assignments. */
module Vmm {
  import opened PmmFrames
  import opened PageTables
  import opened CowSpaces
  import opened CowTeardown
  import opened CowFork
  import opened CowRuns

  /** The table indices of a page: its number in base 512. */
  function PageAt(n: nat): (v: VPage)
    ensures v.Ok()
  {
    var n2 := n / ENTRIES;
    var n3 := n2 / ENTRIES;
    VPage(n3 / ENTRIES % ENTRIES, n3 % ENTRIES, n2 % ENTRIES, n % ENTRIES)
  }

  /** Below 2^36 a page number is determined by its indices. */
  lemma PageNumber(n: nat)
    requires n < 0x10_0000_0000
    ensures var v := PageAt(n); n == ((v.i4 * ENTRIES + v.i3) * ENTRIES + v.i2) * ENTRIES + v.i1
  {
    var n2 := n / ENTRIES;
    var n3 := n2 / ENTRIES;
    var n4 := n3 / ENTRIES;
    assert n4 % ENTRIES == n4;
  }

  lemma PageAtInjective(n: nat, k: nat)
    requires n < 0x10_0000_0000 && k < 0x10_0000_0000 && PageAt(n) == PageAt(k)
    ensures n == k
  {
    PageNumber(n);
    PageNumber(k);
  }

  const U64: nat := 0x1_0000_0000_0000_0000
  const USER_SPACE_START: nat := 0x100_0000_0000
  const USER_SPACE_END: nat := 0x8000_0000_0000

  predicate InUserHalf(virt: nat, length: nat)
  {
    USER_SPACE_START <= virt && virt + length <= USER_SPACE_END
  }

  /** One page of vmm_prepare_user_write. */
  function PrepareOne(m: Machine, root: nat, v: VPage): (r: (Machine, bool))
  {
    match Walk(m.mem, root, v, 1)
    case Fault => (m, false)
    case Reached(pt, _, _) =>
      var e := Load(m.mem, pt, v.i1);
      if !e.flags.present || !e.flags.user then (m, false)
      else if e.flags.writable then (m, true)
      else CowFault(m, root, v)
  }

  /** The page loop of vmm_prepare_user_write over page numbers. */
  function Prepare(m: Machine, root: nat, at: nat -> VPage, page: nat, last: nat): (r: (Machine, bool))
    decreases last - page
  {
    var (m1, ok) := PrepareOne(m, root, at(page));
    if !ok then (m1, false)
    else if page >= last then (m1, true)
    else Prepare(m1, root, at, page + 1, last)
  }

  class AddressSpaces {
    const pmm: FrameAllocator
    var mem: Memory
    const boot: nat

    ghost predicate Valid()
      reads this, pmm
    {
      pmm.Valid()
    }

    /** The machine the theorems speak of. */
    ghost function M(): (m: Machine)
      requires Valid()
      reads this, pmm, pmm.bitmap, pmm.refcounts
    {
      Machine(pmm.View(), mem)
    }

    constructor (pmm: FrameAllocator, mem: Memory, boot: nat)
      requires pmm.Valid()
      ensures this.pmm == pmm && this.boot == boot && Valid() && M() == Machine(pmm.View(), mem)
    {
      this.pmm, this.mem, this.boot := pmm, mem, boot;
    }

    /** find_page_entry: the level-1 table, when every level above is present and no entry is huge. */
    method FindPageEntry(root: nat, v: VPage) returns (found: bool, pt: nat)
      ensures found == Walk(mem, root, v, 1).Reached?
      ensures found ==> pt == Walk(mem, root, v, 1).table
    {
      found, pt := false, 0;
      var e4 := Load(mem, root, v.i4);
      if !e4.flags.present { return; }
      var e3 := Load(mem, e4.frame, v.i3);
      if !e3.flags.present { return; }
      var e2 := Load(mem, e3.frame, v.i2);
      if !e2.flags.present || e2.flags.huge {
        assert Walk(mem, root, v, 3).Reached?;
        return;
      }
      WalkChain(mem, root, v, e4.frame, e3.frame, e2.frame);
      return true, e2.frame;
    }

    /** Allocate, clear and link one table. */
    method NewTable(t: nat, i: nat, flags: Flags) returns (n: nat)
      requires Valid()
      modifies this`mem, pmm`free, pmm`oomReported, pmm.bitmap, pmm.refcounts
      ensures Valid() && (M(), n) == AddTable(old(M()), t, i, flags)
    {
      n := pmm.AllocBlock();
      if n != 0 {
        mem := Zeroed(mem, n);
        mem := Store(mem, t, i, Word(n, flags));
      }
    }

    /** split_huge_pd_entry. */
    method SplitHugeEntry(pd: nat, i: nat) returns (ok: bool)
      requires Valid()
      modifies this`mem, pmm`free, pmm`oomReported, pmm.bitmap, pmm.refcounts
      ensures Valid() && (M(), ok) == SplitHuge(old(M()), pd, i)
    {
      var prior := Load(mem, pd, i);
      var n := pmm.AllocBlock();
      if n == 0 { return false; }
      var words: seq<Word> := seq(ENTRIES, _ => ZERO);
      for k := 0 to ENTRIES
        invariant |words| == ENTRIES && forall j :: 0 <= j < k ==> words[j] == SplitWords(prior)[j]
      {
        words := words[k := Word(prior.frame / ENTRIES * ENTRIES + k, prior.flags.(huge := false))];
      }
      assert words == SplitWords(prior);
      mem := SetFrame(mem, n, words);
      mem := Store(mem, pd, i, Word(n, Flags(prior.flags.present, prior.flags.writable, prior.flags.user, false, false,
          0)));
      return true;
    }

    method EnsureTableAt(t: nat, i: nat) returns (ok: bool)
      requires Valid()
      modifies this`mem, pmm`free, pmm`oomReported, pmm.bitmap, pmm.refcounts
      ensures Valid() && (M(), ok) == EnsureTable(old(M()), t, i)
    {
      if Load(mem, t, i).flags.present { return true; }
      var n := NewTable(t, i, TABLE_FLAGS);
      return n != 0;
    }

    /** vmm_map_page. */
    method MapPage(root: nat, v: VPage, frame: nat, flags: Flags) returns (ok: bool)
      requires Valid()
      modifies this`mem, pmm`free, pmm`oomReported, pmm.bitmap, pmm.refcounts
      ensures Valid() && (M(), ok) == PageTables.MapPage(old(M()), root, v, frame, flags)
    {
      ok := EnsureTableAt(root, v.i4);
      if !ok { return; }
      var pdpt := Load(mem, root, v.i4).frame;
      ok := EnsureTableAt(pdpt, v.i3);
      if !ok { return; }
      var pd := Load(mem, pdpt, v.i3).frame;
      var e := Load(mem, pd, v.i2);
      if e.flags.present && e.flags.huge {
        ok := SplitHugeEntry(pd, v.i2);
        if !ok { return; }
      }
      ok := EnsureTableAt(pd, v.i2);
      if !ok { return; }
      var pt := Load(mem, pd, v.i2).frame;
      mem := Store(mem, pt, v.i1, Word(frame, flags));
    }

    /** vmm_unmap_page. */
    method UnmapPage(root: nat, v: VPage) returns (frame: nat)
      requires Valid()
      modifies this`mem
      ensures Valid() && (M(), frame) == Unmap(old(M()), root, v)
    {
      if v.i4 < 2 { return 0; }
      var found, pt := FindPageEntry(root, v);
      if !found { return 0; }
      var e := Load(mem, pt, v.i1);
      if !e.flags.present { return 0; }
      mem := Store(mem, pt, v.i1, ZERO);
      return e.frame;
    }

    /** Allocate a frame, copy the page into it, drop the old reference and switch the entry. */
    method CopyPage(pt: nat, l: nat, flags: Flags) returns (ok: bool)
      requires Valid()
      modifies this`mem, pmm`free, pmm`oomReported, pmm.bitmap, pmm.refcounts
      ensures Valid() && (M(), ok) == CopyOut(old(M()), pt, l, flags)
    {
      var phys := Load(mem, pt, l).frame;
      var n := pmm.AllocBlock();
      if n == 0 { return false; }
      mem := CopyFrame(mem, n, phys);
      pmm.FreeBlock(phys);
      mem := Store(mem, pt, l, Word(n, flags));
      return true;
    }

    /** vmm_handle_cow_fault. */
    method HandleCowFault(root: nat, v: VPage) returns (ok: bool)
      requires Valid()
      modifies this`mem, pmm`free, pmm`oomReported, pmm.bitmap, pmm.refcounts
      ensures Valid() && (M(), ok) == CowFault(old(M()), root, v)
    {
      var found, pt := FindPageEntry(root, v);
      if !found { return false; }
      var e := Load(mem, pt, v.i1);
      if !e.flags.present || !e.flags.cow { return false; }
      var flags := e.flags.(cow := false, present := true, writable := true);
      var count := pmm.BlockRefcount(e.frame);
      if count > 1 {
        ok := CopyPage(pt, v.i1, flags);
      } else {
        mem := Store(mem, pt, v.i1, Word(e.frame, flags));
        ok := true;
      }
    }

    /** vmm_protect_page. */
    method ProtectPage(root: nat, v: VPage, flags: Flags) returns (ok: bool)
      requires Valid()
      modifies this`mem, pmm`free, pmm`oomReported, pmm.bitmap, pmm.refcounts
      ensures Valid() && (M(), ok) == Protect(old(M()), root, v, flags)
    {
      var found, pt := FindPageEntry(root, v);
      if !found { return false; }
      var e := Load(mem, pt, v.i1);
      if !e.flags.present { return false; }
      var kept := flags;
      if flags.writable {
        var count := pmm.BlockRefcount(e.frame);
        if e.flags.cow || count > 1 {
          ok := CopyPage(pt, v.i1, flags);
          return;
        }
      } else if e.flags.cow {
        kept := flags.(cow := true);
      }
      mem := Store(mem, pt, v.i1, Word(e.frame, kept));
      return true;
    }

    method PreparePage(root: nat, v: VPage) returns (ok: bool)
      requires Valid()
      modifies this`mem, pmm`free, pmm`oomReported, pmm.bitmap, pmm.refcounts
      ensures Valid() && (M(), ok) == PrepareOne(old(M()), root, v)
    {
      var found, pt := FindPageEntry(root, v);
      if !found { return false; }
      var e := Load(mem, pt, v.i1);
      if !e.flags.present || !e.flags.user { return false; }
      if e.flags.writable { return true; }
      ok := HandleCowFault(root, v);
    }

    /** vmm_prepare_user_write: every page that [virt, virt + length) touches. */
    method PrepareUserWrite(root: nat, virt: nat, length: nat) returns (ok: bool)
      requires Valid() && virt < U64 && length < U64
      modifies this`mem, pmm`free, pmm`oomReported, pmm.bitmap, pmm.refcounts
      ensures Valid()
      ensures length == 0 ==> ok && M() == old(M())
      ensures length > 0 && !InUserHalf(virt, length) ==> !ok && M() == old(M())
      ensures length > 0 && InUserHalf(virt, length) ==>
                (M(), ok) == Prepare(old(M()), root, PageAt, virt / 4096, (virt + length - 1) / 4096)
    {
      if length == 0 { return true; }
      var end := if virt + length - 1 < U64 then virt + length - 1 else virt + length - 1 - U64;
      if end < virt || virt < USER_SPACE_START || end >= USER_SPACE_END { return false; }
      ok := PreparePages(root, PageAt, virt / 4096, end / 4096);
    }

    method PreparePages(root: nat, at: nat -> VPage, first: nat, last: nat) returns (ok: bool)
      requires Valid() && first <= last
      modifies this`mem, pmm`free, pmm`oomReported, pmm.bitmap, pmm.refcounts
      ensures Valid() && (M(), ok) == Prepare(old(M()), root, at, first, last)
    {
      var page := first;
      ok := PreparePage(root, at(page));
      while ok && page != last
        invariant Valid() && first <= page <= last
        invariant Prepare(old(M()), root, at, first, last) ==
                  if !ok then (M(), false) else if page == last then (M(), true)
                      else Prepare(M(), root, at, page + 1, last)
        decreases ok, last - page
      {
        page := page + 1;
        ok := PreparePage(root, at(page));
      }
    }

    /** table_has_present_entries. */
    method TableHasPresent(t: nat) returns (any: bool)
      ensures any == HasPresent(mem, t)
    {
      for i := 0 to ENTRIES
        invariant forall k :: 0 <= k < i ==> !Load(mem, t, k).flags.present
      {
        if Load(mem, t, i).flags.present { return true; }
      }
      return false;
    }

    /** One of the four nested loops of vmm_free_user_space: the slots of a table of the given level. */
    method FreeTableSlots(level: nat, t: nat)
      requires Valid() && 1 <= level <= 4
      modifies this`mem, pmm`free, pmm`oomReported, pmm.bitmap, pmm.refcounts
      ensures Valid() && M() == FreeSlots(old(M()), level, t, 0)
      decreases level, 1
    {
      var i := 0;
      while i < ENTRIES
        invariant 0 <= i <= ENTRIES && Valid() && FreeSlots(M(), level, t, i) == FreeSlots(old(M()), level, t, 0)
      {
        FreeTableSlot(level, t, i);
        i := i + 1;
      }
    }

    /** The body of that loop. */
    method FreeTableSlot(level: nat, t: nat, i: nat)
      requires Valid() && 1 <= level <= 4 && i < ENTRIES
      modifies this`mem, pmm`free, pmm`oomReported, pmm.bitmap, pmm.refcounts
      ensures Valid() && M() == FreeSlot(old(M()), level, t, i)
      decreases level, 0
    {
      var e := Load(mem, t, i);
      if !Owned(false, level, i) || !e.flags.present || !e.flags.user { return; }
      if level == 1 {
        pmm.FreeBlock(e.frame);
        mem := Store(mem, t, i, ZERO);
      } else if level == 2 && e.flags.huge {
        pmm.FreeBlock(e.frame / ENTRIES * ENTRIES);
        mem := Store(mem, t, i, ZERO);
      } else {
        FreeTableSlots(level - 1, e.frame);
        var any := TableHasPresent(e.frame);
        if !any {
          pmm.FreeBlock(e.frame);
          mem := Store(mem, t, i, ZERO);
        }
      }
    }

    /** vmm_destroy_user_space. */
    method DestroyUserSpace(root: nat)
      requires Valid()
      modifies this`mem, pmm`free, pmm`oomReported, pmm.bitmap, pmm.refcounts
      ensures Valid() && M() == Destroy(old(M()), root, boot)
    {
      FreeTableSlots(4, root);
      if root != boot { pmm.FreeBlock(root); }
    }

    /** vmm_create_user_space. */
    method CreateUserSpace(source: nat) returns (d: nat)
      requires Valid()
      modifies this`mem, pmm`free, pmm`oomReported, pmm.bitmap, pmm.refcounts
      ensures Valid() && (M(), d) == Create(old(M()), source)
    {
      d := pmm.AllocBlock();
      if d == 0 { return; }
      mem := Zeroed(mem, d);
      ghost var start, pool := mem, pmm.View();
      var i := 0;
      while i < ENTRIES
        invariant 0 <= i <= ENTRIES && Valid() && pmm.View() == pool
        invariant CopyKernel(mem, source, d, i) == CopyKernel(start, source, d, 0)
      {
        if !UserSlot(i) { mem := Store(mem, d, i, Load(mem, source, i)); }
        i := i + 1;
      }
    }

    /** One of the four nested loops of vmm_copy_p4; false stands for the jump to copy_failed. */
    method CopyTableSlots(level: nat, src: nat, dst: nat) returns (ok: bool)
      requires Valid() && 1 <= level <= 4
      modifies this`mem, pmm`free, pmm`oomReported, pmm.bitmap, pmm.refcounts
      ensures Valid() && (M(), ok) == CopySlots(old(M()), level, src, dst, 0)
      decreases level, 1
    {
      var i := 0;
      ok := true;
      while ok && i < ENTRIES
        invariant 0 <= i <= ENTRIES && Valid()
        invariant CopySlots(old(M()), level, src, dst, 0) == if ok then CopySlots(M(), level, src, dst, i)
                  else (M(), false)
        decreases ok, ENTRIES - i
      {
        ok := CopyTableSlot(level, src, dst, i);
        i := i + 1;
      }
    }

    /** The body of that loop. */
    method CopyTableSlot(level: nat, src: nat, dst: nat, i: nat) returns (ok: bool)
      requires Valid() && 1 <= level <= 4 && i < ENTRIES
      modifies this`mem, pmm`free, pmm`oomReported, pmm.bitmap, pmm.refcounts
      ensures Valid() && (M(), ok) == CopySlot(old(M()), level, src, dst, i)
      decreases level, 0
    {
      var e := Load(mem, src, i);
      if !e.flags.present { return true; }
      if !Owned(false, level, i) || (level == 1 && !e.flags.user) {
        mem := Store(mem, dst, i, e);
        return true;
      }
      if level == 1 {
        ok := pmm.RetainBlock(e.frame);
        if !ok { return false; }
        mem := Store(mem, src, i, Shared(e));
        mem := Store(mem, dst, i, Shared(e));
        return true;
      }
      if level == 2 && e.flags.huge { return false; }
      var n := NewTable(dst, i, e.flags);
      if n == 0 { return false; }
      ok := CopyTableSlots(level - 1, e.frame, n);
    }

    /** vmm_copy_p4. */
    method CopySpace(src: nat) returns (d: nat)
      requires Valid()
      modifies this`mem, pmm`free, pmm`oomReported, pmm.bitmap, pmm.refcounts
      ensures Valid() && (M(), d) == Fork(old(M()), src, boot)
    {
      d := pmm.AllocBlock();
      if d == 0 { return; }
      mem := Zeroed(mem, d);
      var ok := CopyTableSlots(4, src, d);
      if !ok {
        DestroyUserSpace(d);
        d := 0;
      }
    }
  }
}
