/** The allocator as kernel/pmm.c writes it: one bit per block packed in bytes, an array of counts and
    a counter, updated in place. Each method is proved against the functions of module Pmm. */
module PmmFrames {
  import opened Pmm

  const MAX_BLOCKS: nat := 262144
  const BYTES: nat := 32768
  const BLOCK_SIZE: nat := 4096
  const ONE_GIB: nat := 1073741824
  const LOW_BLOCKS: nat := 256
  const FALLBACK_BLOCKS: nat := 32768

  /** (uint8_t)(1 << k) for k < 8. */
  function Mask(k: nat): (m: bv8)
    requires k < 8
  {
    if k == 0 then 1 else if k == 1 then 2 else if k == 2 then 4 else if k == 3 then 8
    else if k == 4 then 16 else if k == 5 then 32 else if k == 6 then 64 else 128
  }

  lemma MaskSet(b: bv8, k: nat, j: nat)
    requires k < 8 && j < 8
    ensures ((b | Mask(k)) & Mask(j) != 0) <==> (j == k || b & Mask(j) != 0)
  {
  }

  lemma MaskClear(b: bv8, k: nat, j: nat)
    requires k < 8 && j < 8
    ensures ((b & !Mask(k)) & Mask(j) != 0) <==> (j != k && b & Mask(j) != 0)
  {
  }

  predicate BitOf(bytes: seq<bv8>, i: nat)
    requires i / 8 < |bytes|
  {
    bytes[i / 8] & Mask(i % 8) != 0
  }

  function Bits(bytes: seq<bv8>, n: nat): (r: seq<bool>)
    requires n <= 8 * |bytes|
    ensures |r| == n && forall i :: 0 <= i < n ==> r[i] == BitOf(bytes, i)
  {
    seq(n, i requires 0 <= i < n => BitOf(bytes, i))
  }

  function SetIn(bytes: seq<bv8>, b: nat): (r: seq<bv8>)
    requires b / 8 < |bytes|
    ensures |r| == |bytes|
  {
    bytes[b / 8 := bytes[b / 8] | Mask(b % 8)]
  }

  function ClearIn(bytes: seq<bv8>, b: nat): (r: seq<bv8>)
    requires b / 8 < |bytes|
    ensures |r| == |bytes|
  {
    bytes[b / 8 := bytes[b / 8] & !Mask(b % 8)]
  }

  lemma SetInAt(bytes: seq<bv8>, b: nat, i: nat)
    requires b / 8 < |bytes| && i / 8 < |bytes|
    ensures BitOf(SetIn(bytes, b), i) <==> (i == b || BitOf(bytes, i))
  {
    if i / 8 == b / 8 {
      MaskSet(bytes[b / 8], b % 8, i % 8);
    }
  }

  lemma ClearInAt(bytes: seq<bv8>, b: nat, i: nat)
    requires b / 8 < |bytes| && i / 8 < |bytes|
    ensures BitOf(ClearIn(bytes, b), i) <==> (i != b && BitOf(bytes, i))
  {
    if i / 8 == b / 8 {
      MaskClear(bytes[b / 8], b % 8, i % 8);
    }
  }

  /** Setting a bit of the packed map sets exactly that bit. */
  lemma BitsSet(bytes: seq<bv8>, n: nat, b: nat)
    requires n <= 8 * |bytes| && b < n
    ensures Bits(SetIn(bytes, b), n) == Bits(bytes, n)[b := true]
  {
    var r := Bits(SetIn(bytes, b), n);
    forall i | 0 <= i < n ensures r[i] == Bits(bytes, n)[b := true][i] {
      SetInAt(bytes, b, i);
    }
  }

  lemma BitsClear(bytes: seq<bv8>, n: nat, b: nat)
    requires n <= 8 * |bytes| && b < n
    ensures Bits(ClearIn(bytes, b), n) == Bits(bytes, n)[b := false]
  {
    var r := Bits(ClearIn(bytes, b), n);
    forall i | 0 <= i < n ensures r[i] == Bits(bytes, n)[b := false][i] {
      ClearInAt(bytes, b, i);
    }
  }

  /** Block `b` holds a byte of [start, end). */
  predicate Touched(start: nat, end: nat, b: nat)
  {
    start < end && start / BLOCK_SIZE <= b < (end + BLOCK_SIZE - 1) / BLOCK_SIZE
  }

  /** Block `b` is one of those the loop over a region visits: it steps by whole blocks from `addr`. */
  predicate Covered(addr: nat, len: nat, b: nat)
  {
    addr / BLOCK_SIZE <= b && addr + (b - addr / BLOCK_SIZE) * BLOCK_SIZE < addr + len
  }

  /** One more than the last block that a region reaches below 1 GiB. */
  function EndBlock(addr: nat, len: nat): (n: nat)
    ensures n <= MAX_BLOCKS
  {
    ((if addr + len > ONE_GIB then ONE_GIB else addr + len) + BLOCK_SIZE - 1) / BLOCK_SIZE
  }

  function Max(a: nat, b: nat): (m: nat)
  {
    if a > b then a else b
  }

  /** The highest end of all regions. */
  function Highest(regions: seq<(nat, nat)>): (n: nat)
  {
    if regions == [] then 0
    else
      var r := regions[|regions| - 1];
      Max(Highest(regions[..|regions| - 1]), EndBlock(r.0, r.1))
  }

  predicate Offered(regions: seq<(nat, nat)>, b: nat)
  {
    exists r :: r in regions && Covered(r.0, r.1, b)
  }

  predicate Kept(images: seq<(nat, nat)>, b: nat)
  {
    exists r :: r in images && Touched(r.0, r.1, b)
  }

  /** Bits above `n` that are all set add nothing to the count. */
  lemma {:induction false} ClearBitsBelow(used: seq<bool>, n: nat)
    requires n <= |used| && forall b :: n <= b < |used| ==> used[b]
    ensures ClearBits(used[..n]) == ClearBits(used)
    decreases |used|
  {
    if n == |used| {
      assert used[..n] == used;
    } else {
      var u := used[..|used| - 1];
      assert u[..n] == used[..n];
      ClearBitsBelow(u, n);
    }
  }

  lemma PoolFromBits(bits: seq<bool>, refs: seq<nat>, total: nat, free: nat)
    requires |bits| == |refs| && 0 < total <= |bits| && bits[0] && free == ClearBits(bits)
    requires (forall b :: total <= b < |bits| ==> bits[b]) && forall b :: 0 <= b < |refs| ==> refs[b] == 0
    ensures PoolOk(Pool(bits[..total], refs[..total], free))
  {
    ClearBitsBelow(bits, total);
    assert 0 in Reserved(Pool(bits[..total], refs[..total], free));
  }

  class FrameAllocator {
    const bitmap: array<bv8>
    const refcounts: array<nat>
    var total: nat
    var free: nat
    var oomReported: bool

    ghost predicate Valid()
      reads this
    {
      bitmap.Length == BYTES && refcounts.Length == MAX_BLOCKS && total <= MAX_BLOCKS
    }

    ghost function AllBits(): (r: seq<bool>)
      requires Valid()
      reads this, bitmap
    {
      Bits(bitmap[..], MAX_BLOCKS)
    }

    /** The abstract state: what lies below total_blocks. */
    ghost function View(): (p: Pool)
      requires Valid()
      reads this, bitmap, refcounts
    {
      Pool(AllBits()[..total], refcounts[..total], free)
    }

    constructor ()
      ensures Valid() && fresh(bitmap) && fresh(refcounts)
    {
      bitmap := new bv8[BYTES];
      refcounts := new nat[MAX_BLOCKS];
      total, free, oomReported := MAX_BLOCKS, 0, false;
    }

    method TestBit(b: nat) returns (set_: bool)
      requires Valid() && b < MAX_BLOCKS
      ensures set_ == AllBits()[b]
    {
      set_ := bitmap[b / 8] & Mask(b % 8) != 0;
    }

    method SetBit(b: nat)
      requires Valid() && b < MAX_BLOCKS
      modifies bitmap
      ensures AllBits() == old(AllBits())[b := true]
    {
      BitsSet(bitmap[..], MAX_BLOCKS, b);
      bitmap[b / 8] := bitmap[b / 8] | Mask(b % 8);
      assert bitmap[..] == SetIn(old(bitmap[..]), b);
    }

    method ClearBit(b: nat)
      requires Valid() && b < MAX_BLOCKS
      modifies bitmap
      ensures AllBits() == old(AllBits())[b := false]
    {
      BitsClear(bitmap[..], MAX_BLOCKS, b);
      bitmap[b / 8] := bitmap[b / 8] & !Mask(b % 8);
      assert bitmap[..] == ClearIn(old(bitmap[..]), b);
    }

    // ---- pmm_init ----

    /** While booting: the counter counts the clear bits, which all lie below total_blocks. */
    ghost predicate Counted()
      requires Valid()
      reads this, bitmap
    {
      free == ClearBits(AllBits()) && forall b :: total <= b < MAX_BLOCKS ==> AllBits()[b]
    }

    method MarkUsed(b: nat)
      requires Valid() && Counted() && b < MAX_BLOCKS
      modifies this`free, bitmap
      ensures Counted() && AllBits() == old(AllBits())[b := true]
    {
      ClearBitsUpdate(AllBits(), b, true);
      var taken := TestBit(b);
      if !taken && free > 0 { free := free - 1; }
      SetBit(b);
    }

    method MarkFree(b: nat)
      requires Valid() && Counted() && b < total
      modifies this`free, bitmap
      ensures Counted() && AllBits() == old(AllBits())[b := false]
    {
      ClearBitsUpdate(AllBits(), b, false);
      var taken := TestBit(b);
      if taken {
        ClearBit(b);
        free := free + 1;
      } else {
        assert AllBits()[b := false] == AllBits();
      }
    }

    /** mark_used_range: every block that [start, end) touches. */
    method MarkUsedRange(start: nat, end: nat)
      requires Valid() && Counted()
      modifies this`free, bitmap
      ensures Counted()
      ensures forall b :: 0 <= b < MAX_BLOCKS ==> AllBits()[b] == (old(AllBits())[b] || Touched(start, end, b))
    {
      if end <= start { return; }
      var first := start / BLOCK_SIZE;
      var last := (end + BLOCK_SIZE - 1) / BLOCK_SIZE;
      if first >= MAX_BLOCKS { return; }
      if last > MAX_BLOCKS { last := MAX_BLOCKS; }
      var b := first;
      while b < last
        invariant first <= b <= last <= MAX_BLOCKS && Counted()
        invariant forall k :: 0 <= k < MAX_BLOCKS ==> AllBits()[k] == (old(AllBits())[k] || first <= k < b)
      {
        MarkUsed(b);
        b := b + 1;
      }
    }

    /** One available region of the memory map: raise total_blocks, clear its blocks. */
    method AddRegion(addr: nat, len: nat)
      requires Valid() && Counted()
      modifies this`total, this`free, bitmap
      ensures Valid() && Counted() && total == Max(old(total), EndBlock(addr, len))
      ensures forall b :: 0 <= b < MAX_BLOCKS ==> AllBits()[b] == (old(AllBits())[b] && !Covered(addr, len, b))
    {
      var end := if addr + len > ONE_GIB then ONE_GIB else addr + len;
      if end > total * BLOCK_SIZE { total := (end + BLOCK_SIZE - 1) / BLOCK_SIZE; }
      var a := addr;
      while a < addr + len && a < ONE_GIB
        invariant addr <= a && (a - addr) % BLOCK_SIZE == 0 && Valid() && Counted()
        invariant total == Max(old(total), EndBlock(addr, len))
        invariant end <= total * BLOCK_SIZE
        invariant a < addr + len ==> a / BLOCK_SIZE == addr / BLOCK_SIZE + (a - addr) / BLOCK_SIZE
        invariant forall b :: 0 <= b < MAX_BLOCKS ==>
                    AllBits()[b] == (old(AllBits())[b] && !(Covered(addr, len, b)
                        && b < addr / BLOCK_SIZE + (a - addr) / BLOCK_SIZE))
        decreases addr + len - a
      {
        MarkFree(a / BLOCK_SIZE);
        a := a + BLOCK_SIZE;
      }
    }

    /** pmm_init: `found` says whether the boot information had a memory map, `regions` are its available
        regions, `images` the ranges that must stay (kernel, boot information, modules). */
    method Init(found: bool, regions: seq<(nat, nat)>, images: seq<(nat, nat)>)
      requires Valid()
      modifies this, bitmap, refcounts
      ensures Valid() && PoolOk(View())
      ensures total == if !found then FALLBACK_BLOCKS else if Highest(regions) == 0 then MAX_BLOCKS
              else Highest(regions)
      ensures forall b :: 0 <= b < total ==> View().refs[b] == 0
      ensures forall b :: 0 <= b < total ==>
                (b in Reserved(View()) <==> (found && !Offered(regions, b)) || b < LOW_BLOCKS || Kept(images, b))
    {
      ResetMaps();
      if found {
        AddRegions(regions);
        if total == 0 { total := MAX_BLOCKS; }
      } else {
        AddFallback();
      }
      ReserveAll(images);
      PoolFromBits(AllBits(), refcounts[..], total, free);
    }

    /** The loop over the memory map. */
    method AddRegions(regions: seq<(nat, nat)>)
      requires Valid() && Counted() && total == 0 && forall b :: 0 <= b < MAX_BLOCKS ==> AllBits()[b]
      modifies this`total, this`free, bitmap
      ensures Valid() && Counted() && total == Highest(regions)
      ensures forall b :: 0 <= b < MAX_BLOCKS ==> AllBits()[b] == !Offered(regions, b)
    {
      hide EndBlock, Covered;
      for n := 0 to |regions|
        invariant Valid() && Counted() && total == Highest(regions[..n])
        invariant forall b :: 0 <= b < MAX_BLOCKS ==> AllBits()[b] == !Offered(regions[..n], b)
      {
        AddRegion(regions[n].0, regions[n].1);
        assert regions[..n + 1] == regions[..n] + [regions[n]];
        assert regions[..n + 1][..n] == regions[..n];
      }
      assert regions[..|regions|] == regions;
    }

    /** 128 MiB without a memory map. */
    method AddFallback()
      requires Valid() && Counted() && total == 0 && forall b :: 0 <= b < MAX_BLOCKS ==> AllBits()[b]
      modifies this`total, this`free, bitmap
      ensures Valid() && Counted() && total == FALLBACK_BLOCKS
      ensures forall b :: 0 <= b < MAX_BLOCKS ==> AllBits()[b] == !(b < FALLBACK_BLOCKS)
    {
      total := FALLBACK_BLOCKS;
      for b := 0 to FALLBACK_BLOCKS
        invariant Valid() && Counted() && total == FALLBACK_BLOCKS
        invariant forall k :: 0 <= k < MAX_BLOCKS ==> AllBits()[k] == !(k < b)
      {
        MarkFree(b);
      }
    }

    method ResetMaps()
      requires Valid()
      modifies this, bitmap, refcounts
      ensures Valid() && total == 0 && Counted() && (forall b :: 0 <= b < MAX_BLOCKS ==>
              refcounts[b] == 0 && AllBits()[b])
    {
      total, free, oomReported := 0, 0, false;
      for i := 0 to BYTES
        invariant Valid() && total == 0 && free == 0 && forall k :: 0 <= k < i ==> bitmap[k] == 0xFF
      {
        bitmap[i] := 0xFF;
      }
      for i := 0 to MAX_BLOCKS
        invariant Valid() && total == 0 && free == 0 && forall k :: 0 <= k < i ==> refcounts[k] == 0
        invariant forall k :: 0 <= k < BYTES ==> bitmap[k] == 0xFF
      {
        refcounts[i] := 0;
      }
      NoClearBits(AllBits());
    }

    /** The blocks below 1 MiB and the images. */
    method ReserveAll(images: seq<(nat, nat)>)
      requires Valid() && Counted()
      modifies this`free, bitmap
      ensures Counted()
      ensures forall b ::
              0 <= b < MAX_BLOCKS ==> AllBits()[b] == (old(AllBits())[b] || b < LOW_BLOCKS || Kept(images, b))
    {
      for b := 0 to LOW_BLOCKS
        invariant Counted()
        invariant forall k :: 0 <= k < MAX_BLOCKS ==> AllBits()[k] == (old(AllBits())[k] || k < b)
      {
        MarkUsed(b);
      }
      for n := 0 to |images|
        invariant Counted()
        invariant forall k ::
                  0 <= k < MAX_BLOCKS ==> AllBits()[k] == (old(AllBits())[k] || k < LOW_BLOCKS || Kept(images[..n], k))
      {
        MarkUsedRange(images[n].0, images[n].1);
        assert images[..n + 1] == images[..n] + [images[n]];
      }
      assert images[..|images|] == images;
    }

    /** pmm_alloc_block. */
    method AllocBlock() returns (block: nat)
      requires Valid()
      modifies this`free, this`oomReported, bitmap, refcounts
      ensures Valid() && (View(), block) == Alloc(old(View()))
    {
      ghost var was := View();
      var i := 0;
      while i < total
        invariant 0 <= i <= total && View() == was
        invariant forall k :: 0 <= k < i ==> was.used[k]
      {
        var taken := TestBit(i);
        if !taken {
          FirstClearIs(was.used, 0, i);
          SetBit(i);
          refcounts[i] := 1;
          if free > 0 { free := free - 1; }
          oomReported := false;
          return i;
        }
        i := i + 1;
      }
      FirstClearIs(was.used, 0, total);
      oomReported := true;
      return 0;
    }

    /** pmm_retain_block. */
    method RetainBlock(b: nat) returns (ok: bool)
      requires Valid()
      modifies refcounts
      ensures Valid() && (View(), ok) == Retain(old(View()), b)
    {
      if b >= total { return false; }
      var taken := TestBit(b);
      if !taken || refcounts[b] == 0 || refcounts[b] == REFCOUNT_MAX { return false; }
      refcounts[b] := refcounts[b] + 1;
      return true;
    }

    /** pmm_free_block. */
    method FreeBlock(b: nat)
      requires Valid()
      modifies this`free, this`oomReported, bitmap, refcounts
      ensures Valid() && View() == Free(old(View()), b)
    {
      if b >= total || refcounts[b] == 0 { return; }
      if refcounts[b] > 1 {
        refcounts[b] := refcounts[b] - 1;
        return;
      }
      refcounts[b] := 0;
      var taken := TestBit(b);
      if taken {
        ClearBit(b);
        free := free + 1;
        oomReported := false;
      }
    }

    /** pmm_block_refcount. */
    method BlockRefcount(b: nat) returns (n: nat)
      requires Valid()
      ensures n == Refcount(View(), b)
    {
      if b >= total { return 0; }
      return refcounts[b];
    }
  }

  lemma {:induction false} FirstClearIs(used: seq<bool>, from: nat, i: nat)
    requires from <= i <= |used| && (forall k :: from <= k < i ==> used[k]) && (i < |used| ==> !used[i])
    ensures FirstClear(used, from) == i
    decreases i - from
  {
    if from < i {
      FirstClearIs(used, from + 1, i);
    }
  }
}
