/** Physical frame allocator (kernel/pmm.c): a used-bitmap, a reference count per block and
    a counter of free blocks.

    `Pool` is the allocator's abstract state over the blocks below total_blocks. Blocks are
    numbered; block 0 stands for address 0, so a returned 0 is the null pointer. */
module Pmm {
  const REFCOUNT_MAX: nat := 65535

  datatype Pool = Pool(used: seq<bool>, refs: seq<nat>, free: nat)

  /** Number of clear bits. */
  ghost function ClearBits(used: seq<bool>): (n: nat)
  {
    if used == [] then 0
    else ClearBits(used[..|used| - 1]) + (if used[|used| - 1] then 0 else 1)
  }

  /** Blocks whose bit is set although nobody holds a reference: firmware, kernel image, boot data. */
  ghost function Reserved(p: Pool): (r: set<nat>)
  {
    set b: nat | b < |p.used| && b < |p.refs| && p.used[b] && p.refs[b] == 0
  }

  /** What every operation of the allocator keeps. */
  ghost predicate PoolOk(p: Pool)
  {
    && |p.refs| == |p.used|
    && 0 in Reserved(p)
    && (forall b :: 0 <= b < |p.refs| ==> p.refs[b] <= REFCOUNT_MAX)
    && (forall b :: 0 <= b < |p.refs| && p.refs[b] > 0 ==> p.used[b])
    && p.free == ClearBits(p.used)
  }

  /** First clear bit at or after `from`, or the number of bits. */
  function FirstClear(used: seq<bool>, from: nat): (i: nat)
    requires from <= |used|
    ensures from <= i <= |used|
    ensures forall k :: from <= k < i ==> used[k]
    ensures i < |used| ==> !used[i]
    decreases |used| - from
  {
    if from == |used| then from
    else if !used[from] then from
    else FirstClear(used, from + 1)
  }

  /** pmm_alloc_block: the first clear block, now used with one reference; 0 when there is none. */
  function Alloc(p: Pool): (r: (Pool, nat))
  {
    var i := FirstClear(p.used, 0);
    if i < |p.used| && i < |p.refs| then
      (Pool(p.used[i := true], p.refs[i := 1], if p.free > 0 then p.free - 1 else 0), i)
    else (p, 0)
  }

  /** pmm_retain_block: one more reference, refused for a free, reserved or saturated block. */
  function Retain(p: Pool, b: nat): (r: (Pool, bool))
  {
    if b >= |p.used| || b >= |p.refs| || !p.used[b] || p.refs[b] == 0 || p.refs[b] == REFCOUNT_MAX then (p, false)
    else (p.(refs := p.refs[b := p.refs[b] + 1]), true)
  }

  /** pmm_free_block: one reference less; the last one also clears the bit. */
  function Free(p: Pool, b: nat): (r: Pool)
  {
    if b >= |p.used| || b >= |p.refs| || p.refs[b] == 0 then p
    else if p.refs[b] > 1 then p.(refs := p.refs[b := p.refs[b] - 1])
    else if p.used[b] then Pool(p.used[b := false], p.refs[b := 0], p.free + 1)
    else p.(refs := p.refs[b := 0])
  }

  /** pmm_block_refcount. */
  function Refcount(p: Pool, b: nat): (n: nat)
  {
    if b < |p.refs| then p.refs[b] else 0
  }

  lemma {:induction false} ClearBitsUpdate(used: seq<bool>, i: nat, v: bool)
    requires i < |used|
    ensures ClearBits(used[i := v]) == ClearBits(used) + (if used[i] then 1 else 0) - (if v then 1 else 0)
  {
    var n := |used| - 1;
    if i == n {
      assert used[i := v][..n] == used[..n];
    } else {
      assert used[i := v][..n] == used[..n][i := v];
      ClearBitsUpdate(used[..n], i, v);
    }
  }

  lemma {:induction false} ClearBitsPositive(used: seq<bool>, i: nat)
    requires i < |used| && !used[i]
    ensures ClearBits(used) > 0
  {
    ClearBitsUpdate(used, i, true);
  }

  /** Allocation hands out a block that was clear (hence neither reserved nor referenced), gives it
      exactly one reference and touches no other block; it fails only when every bit is set. */
  lemma AllocKeeps(p: Pool)
    requires PoolOk(p)
    ensures var (q, b) := Alloc(p);
            && PoolOk(q)
            && Reserved(q) == Reserved(p)
            && (b == 0 ==> q == p && forall k :: 0 <= k < |p.used| ==> p.used[k])
            && (b != 0 ==> b < |p.used| && !p.used[b] && p.refs[b] == 0
                           && q.used == p.used[b := true] && q.refs == p.refs[b := 1])
  {
    var i := FirstClear(p.used, 0);
    if i < |p.used| {
      assert 0 in Reserved(p);
      ClearBitsUpdate(p.used, i, true);
      ClearBitsPositive(p.used, i);
      var q := Alloc(p).0;
      assert forall b: nat :: b < |p.used| ==> (b in Reserved(q) <==> b in Reserved(p));
    }
  }

  /** Retaining adds one reference to a block that already had some, and fails exactly otherwise. */
  lemma RetainKeeps(p: Pool, b: nat)
    requires PoolOk(p)
    ensures var (q, ok) := Retain(p, b);
            && PoolOk(q)
            && Reserved(q) == Reserved(p)
            && (ok <==> 0 < Refcount(p, b) < REFCOUNT_MAX)
            && (!ok ==> q == p)
            && (ok ==> b < |p.refs| && q.used == p.used && q.refs == p.refs[b := p.refs[b] + 1])
  {
    var q := Retain(p, b).0;
    assert forall k: nat :: k < |p.used| ==> (k in Reserved(q) <==> k in Reserved(p));
  }

  /** Freeing drops one reference, clears the bit with the last one, and does nothing to a block
      without references, so a reserved block can never be freed. */
  lemma FreeKeeps(p: Pool, b: nat)
    requires PoolOk(p)
    ensures var q := Free(p, b);
            && PoolOk(q)
            && Reserved(q) == Reserved(p)
            && (Refcount(p, b) == 0 ==> q == p)
            && (Refcount(p, b) > 0 ==> b < |p.refs| && q.refs == p.refs[b := p.refs[b] - 1]
                                       && q.used == p.used[b := p.refs[b] > 1])
  {
    var q := Free(p, b);
    if b < |p.refs| && p.refs[b] > 0 {
      if p.refs[b] == 1 {
        ClearBitsUpdate(p.used, b, false);
      } else {
        assert p.used[b := true] == p.used;
      }
      assert 0 in Reserved(p);
      assert b != 0;
    }
    assert forall k: nat :: k < |p.used| ==> (k in Reserved(q) <==> k in Reserved(p));
  }

  /** The counts and the reserved set determine the bitmap and the free counter. */
  lemma PoolDetermined(p: Pool, q: Pool)
    requires PoolOk(p) && PoolOk(q) && q.refs == p.refs && Reserved(q) == Reserved(p)
    ensures q == p
  {
    forall b | 0 <= b < |p.used| ensures q.used[b] == p.used[b] {
      assert b in Reserved(p) <==> b in Reserved(q);
    }
    assert q.used == p.used;
  }

  lemma {:induction false} NoClearBits(used: seq<bool>)
    requires forall b :: 0 <= b < |used| ==> used[b]
    ensures ClearBits(used) == 0
    decreases |used|
  {
    if used != [] {
      NoClearBits(used[..|used| - 1]);
    }
  }

  /** pmm_alloc_block fails exactly when the free counter is zero. */
  lemma AllocFailsIff(p: Pool)
    requires PoolOk(p)
    ensures Alloc(p).1 == 0 <==> p.free == 0
    ensures Alloc(p).1 != 0 ==> Alloc(p).0.free == p.free - 1
  {
    if FirstClear(p.used, 0) < |p.used| {
      ClearBitsPositive(p.used, FirstClear(p.used, 0));
    } else {
      NoClearBits(p.used);
    }
    assert 0 in Reserved(p);
  }
}
