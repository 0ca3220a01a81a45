/** Four-level page tables in physical memory (kernel/vmm.c): the walk, the huge-entry split and
    vmm_map_page, and the proof that they implement one flat map from virtual page to frame.

    Physical memory is a sequence of frames of 512 words. A 64-bit word is kept as its frame
    number (bits 12 and up) and its low twelve bits, of which five are named; the remaining ones
    travel together in `rest`. Tables and data pages are frames of the same memory. */
module PageTables {
  import opened Pmm

  const ENTRIES: nat := 512

  datatype Flags = Flags(present: bool, writable: bool, user: bool, huge: bool, cow: bool, rest: nat)

  datatype Word = Word(frame: nat, flags: Flags)

  const ZERO := Word(0, Flags(false, false, false, false, false, 0))

  /** PRESENT | WRITABLE | USER, the flags vmm_map_page gives to the tables it adds. */
  const TABLE_FLAGS := Flags(true, true, true, false, false, 0)

  type Memory = seq<seq<Word>>

  datatype Machine = Machine(pool: Pool, mem: Memory)

  /** A virtual page by its four table indices. */
  datatype VPage = VPage(i4: nat, i3: nat, i2: nat, i1: nat) {
    predicate Ok() { i4 < ENTRIES && i3 < ENTRIES && i2 < ENTRIES && i1 < ENTRIES }

    function At(level: nat): (i: nat)
    {
      if level == 4 then i4 else if level == 3 then i3 else if level == 2 then i2 else i1
    }
  }

  function Load(mem: Memory, t: nat, i: nat): (w: Word)
  {
    if t < |mem| && i < |mem[t]| then mem[t][i] else ZERO
  }

  function Store(mem: Memory, t: nat, i: nat, w: Word): (r: Memory)
    ensures |r| == |mem|
    ensures forall f :: 0 <= f < |mem| ==> |r[f]| == |mem[f]| && (f != t ==> r[f] == mem[f])
    ensures forall f: nat, k: nat :: Load(r, f, k) ==
                   (if f == t && k == i && t < |mem| && i < |mem[t]| then w else Load(mem, f, k))
  {
    if t < |mem| && i < |mem[t]| then mem[t := mem[t][i := w]] else mem
  }

  /** Overwrite one whole frame. */
  function SetFrame(mem: Memory, n: nat, words: seq<Word>): (r: Memory)
    requires |words| == ENTRIES
    ensures |r| == |mem|
    ensures forall f :: 0 <= f < |mem| ==> r[f] == if f == n then words else mem[f]
    ensures forall f: nat, k: nat :: Load(r, f, k) ==
                   (if f == n && n < |mem| then (if k < ENTRIES then words[k] else ZERO) else Load(mem, f, k))
  {
    if n < |mem| then mem[n := words] else mem
  }

  /** memset(frame, 0, 4096). */
  function Zeroed(mem: Memory, n: nat): (r: Memory)
  {
    SetFrame(mem, n, seq(ENTRIES, _ => ZERO))
  }

  /** An entry of a level 2..4 table that names a lower table. */
  predicate Points(level: nat, w: Word)
  {
    w.flags.present && !(level == 2 && w.flags.huge)
  }

  ghost predicate MemOk(m: Machine)
  {
    && PoolOk(m.pool)
    && |m.mem| == |m.pool.used|
    && forall f :: 0 <= f < |m.mem| ==> |m.mem[f]| == ENTRIES
  }

  // ---- The forest of table frames ----

  /** Where a table frame sits: its level (4 is a root), the root above it, and the parent slot
      that points to it. */
  datatype Node = Node(level: nat, root: nat, parent: nat, slot: nat)

  type Forest = map<nat, Node>

  /** Top-level slots of the user half: 2^40 <= slot * 2^39 and slot < 256. */
  predicate UserSlot(i: nat) { 2 <= i < 256 }

  /** Slots the forest follows: every one of a lower table; of a root either all or the user half. */
  predicate Owned(all: bool, level: nat, i: nat)
  {
    level < 4 || all || UserSlot(i)
  }

  ghost predicate NodeOk(all: bool, mem: Memory, F: Forest, t: nat)
    requires t in F
  {
    var nd := F[t];
    && 1 <= nd.level <= 4
    && (nd.level == 4 ==> nd.root == t)
    && (nd.level < 4 ==>
          && nd.parent in F
          && F[nd.parent].level == nd.level + 1
          && F[nd.parent].root == nd.root
          && nd.slot < ENTRIES
          && Owned(all, nd.level + 1, nd.slot)
          && Points(nd.level + 1, Load(mem, nd.parent, nd.slot))
          && Load(mem, nd.parent, nd.slot).frame == t)
  }

  ghost predicate EntryOk(all: bool, mem: Memory, F: Forest, t: nat, i: nat)
    requires t in F
  {
    F[t].level > 1 && Owned(all, F[t].level, i) && Points(F[t].level, Load(mem, t, i)) ==>
      && Load(mem, t, i).frame in F
      && F[Load(mem, t, i).frame] == Node(F[t].level - 1, F[t].root, t, i)
  }

  /** Table frames form disjoint trees: each is reached through exactly one slot of one parent. */
  ghost predicate ForestOk(all: bool, m: Machine, F: Forest)
  {
    && MemOk(m)
    && (forall t :: t in F ==> t < |m.mem| && m.pool.used[t])
    && (forall t :: t in F ==> NodeOk(all, m.mem, F, t))
    && Closed(all, m.mem, F)
  }

  /** Entries of tables of the forest lead into the forest. */
  ghost predicate Closed(all: bool, mem: Memory, F: Forest)
  {
    forall t, i :: t in F && 0 <= i < ENTRIES ==> EntryOk(all, mem, F, t, i)
  }

  ghost predicate IsRoot(F: Forest, r: nat) { r in F && F[r].level == 4 }

  // ---- The walk ----

  /** The table reached at some level and the rights collected on the way. */
  datatype Cursor = Fault | Reached(table: nat, writable: bool, user: bool)

  /** The table of `level` on the path of `v`, as in find_page_entry. */
  function Walk(mem: Memory, root: nat, v: VPage, level: nat): (c: Cursor)
    requires 1 <= level <= 4
    decreases 4 - level
  {
    if level == 4 then Reached(root, true, true)
    else
      match Walk(mem, root, v, level + 1)
      case Fault => Fault
      case Reached(t, w, u) =>
        var e := Load(mem, t, v.At(level + 1));
        if Points(level + 1, e) then Reached(e.frame, w && e.flags.writable, u && e.flags.user) else Fault
  }

  /** What an address translates to: frame, leaf flags and the effective rights. */
  datatype Mapping = Unmapped | Mapped(frame: nat, flags: Flags, writable: bool, user: bool)

  /** The flat map the tables stand for: a 2 MiB entry covers 512 consecutive frames. */
  function Translate(mem: Memory, root: nat, v: VPage): (r: Mapping)
  {
    match Walk(mem, root, v, 2)
    case Fault => Unmapped
    case Reached(t, w, u) =>
      var e := Load(mem, t, v.i2);
      if !e.flags.present then Unmapped
      else if e.flags.huge then
        Mapped(e.frame / ENTRIES * ENTRIES + v.i1, e.flags.(huge := false), w && e.flags.writable, u && e.flags.user)
      else
        var leaf := Load(mem, e.frame, v.i1);
        if !leaf.flags.present then Unmapped
        else Mapped(leaf.frame, leaf.flags,
                    w && e.flags.writable && leaf.flags.writable, u && e.flags.user && leaf.flags.user)
  }

  lemma {:induction false} WalkInForest(all: bool, mem: Memory, F: Forest, root: nat, v: VPage, level: nat)
    requires Closed(all, mem, F) && IsRoot(F, root) && F[root].root == root
    requires v.Ok() && Owned(all, 4, v.i4) && 1 <= level <= 4
    ensures var c := Walk(mem, root, v, level);
            c.Reached? ==>
              && c.table in F && F[c.table].level == level && F[c.table].root == root
              && (level < 4 ==> Walk(mem, root, v, level + 1).Reached?
                                && F[c.table] == Node(level, root, Walk(mem, root, v, level + 1).table,
                                    v.At(level + 1)))
    decreases 4 - level
  {
    if level < 4 {
      WalkInForest(all, mem, F, root, v, level + 1);
      var c := Walk(mem, root, v, level + 1);
      if c.Reached? {
        assert EntryOk(all, mem, F, c.table, v.At(level + 1));
      }
    }
  }

  /** Two walks meet in one table only if they follow the same root and the same indices. */
  lemma {:induction false} WalkInjective(all: bool, mem: Memory, F: Forest, r1: nat, v1: VPage, r2: nat, v2: VPage,
          level: nat)
    requires Closed(all, mem, F) && IsRoot(F, r1) && IsRoot(F, r2) && 1 <= level <= 4
    requires F[r1].root == r1 && F[r2].root == r2
    requires v1.Ok() && v2.Ok() && Owned(all, 4, v1.i4) && Owned(all, 4, v2.i4)
    requires Walk(mem, r1, v1, level).Reached? && Walk(mem, r2, v2, level).Reached?
    requires Walk(mem, r1, v1, level).table == Walk(mem, r2, v2, level).table
    ensures r1 == r2 && forall k :: level < k <= 4 ==> v1.At(k) == v2.At(k)
    decreases 4 - level
  {
    WalkInForest(all, mem, F, r1, v1, level);
    WalkInForest(all, mem, F, r2, v2, level);
    if level < 4 {
      WalkInjective(all, mem, F, r1, v1, r2, v2, level + 1);
    }
  }

  /** A walk depends only on the entries of the tables above its end. */
  lemma {:induction false} WalkAgrees(all: bool, mem: Memory, F: Forest, mem': Memory, root: nat, v: VPage, level: nat)
    requires Closed(all, mem, F) && IsRoot(F, root) && F[root].root == root
    requires v.Ok() && Owned(all, 4, v.i4) && 1 <= level <= 4
    requires forall t, i ::
             t in F && F[t].root == root && F[t].level > level && 0 <= i < ENTRIES && Owned(all, F[t].level, i) ==>
               Load(mem', t, i) == Load(mem, t, i)
    ensures Walk(mem', root, v, level) == Walk(mem, root, v, level)
    decreases 4 - level
  {
    if level < 4 {
      WalkAgrees(all, mem, F, mem', root, v, level + 1);
      WalkInForest(all, mem, F, root, v, level + 1);
    }
  }

  // ---- Adding a table ----

  /** Allocate a frame, clear it and link it at slot `i` of table `t`; 0 when out of memory. */
  function AddTable(m: Machine, t: nat, i: nat, flags: Flags): (r: (Machine, nat))
  {
    var (pool, n) := Alloc(m.pool);
    if n == 0 then (m.(pool := pool), 0)
    else (Machine(pool, Store(Zeroed(m.mem, n), t, i, Word(n, flags))), n)
  }

  lemma AddTableKeeps(all: bool, m: Machine, F: Forest, t: nat, i: nat, flags: Flags)
    requires ForestOk(all, m, F) && t in F && F[t].level > 1 && i < ENTRIES && Owned(all, F[t].level, i)
    requires !Load(m.mem, t, i).flags.present && flags.present && !flags.huge
    ensures var (m', n) := AddTable(m, t, i, flags);
            if n == 0 then m' == m
            else
              && n !in F && n < |m.mem| && !m.pool.used[n]
              && ForestOk(all, m', F[n := Node(F[t].level - 1, F[t].root, t, i)])
  {
    AllocKeeps(m.pool);
    var (m', n) := AddTable(m, t, i, flags);
    if n != 0 {
      var F' := F[n := Node(F[t].level - 1, F[t].root, t, i)];
      forall x | x in F' ensures NodeOk(all, m'.mem, F', x) {
        if x != n { assert NodeOk(all, m.mem, F, x); }
      }
      forall x, k | x in F' && 0 <= k < ENTRIES ensures EntryOk(all, m'.mem, F', x, k) {
        if x != n { assert EntryOk(all, m.mem, F, x, k); }
      }
    }
  }

  /** Every address of every root translates as before. */
  ghost predicate SameTranslation(all: bool, F: Forest, mem: Memory, mem': Memory)
  {
    forall r, v: VPage :: IsRoot(F, r) && v.Ok() && Owned(all, 4, v.i4) ==>
      Translate(mem', r, v) == Translate(mem, r, v)
  }

  /** mem' is mem with one more, empty table `n` linked at slot `i` of `t`. */
  ghost predicate Linked(mem: Memory, F: Forest, t: nat, i: nat, n: nat, mem': Memory)
  {
    && t in F && F[t].level > 1 && n !in F
    && !Load(mem, t, i).flags.present
    && Points(F[t].level, Load(mem', t, i)) && Load(mem', t, i).frame == n
    && (forall f, k: nat :: f in F && !(f == t && k == i) ==> Load(mem', f, k) == Load(mem, f, k))
    && (forall k: nat :: Load(mem', n, k) == ZERO)
  }

  /** Linking a new table keeps every table a walk reached; what faulted still faults, except that
      the walk may now end in the new, empty table. */
  lemma {:induction false} LinkedWalk(all: bool, mem: Memory, F: Forest, t: nat, i: nat, n: nat, mem': Memory, r: nat,
          v: VPage, level: nat)
    requires Closed(all, mem, F) && Linked(mem, F, t, i, n, mem')
    requires IsRoot(F, r) && F[r].root == r && v.Ok() && Owned(all, 4, v.i4) && 1 <= level <= 4
    ensures var c, c' := Walk(mem, r, v, level), Walk(mem', r, v, level);
            && (c.Reached? ==> c' == c)
            && (c.Fault? && c'.Reached? ==> c'.table == n && level == F[t].level - 1)
    decreases 4 - level
  {
    if level < 4 {
      LinkedWalk(all, mem, F, t, i, n, mem', r, v, level + 1);
      WalkInForest(all, mem, F, r, v, level + 1);
    }
  }

  lemma LinkedTranslation(all: bool, mem: Memory, F: Forest, t: nat, i: nat, n: nat, mem': Memory, r: nat, v: VPage)
    requires Closed(all, mem, F) && Linked(mem, F, t, i, n, mem')
    requires IsRoot(F, r) && F[r].root == r && v.Ok() && Owned(all, 4, v.i4)
    ensures Translate(mem', r, v) == Translate(mem, r, v)
  {
    LinkedWalk(all, mem, F, t, i, n, mem', r, v, 2);
    WalkInForest(all, mem, F, r, v, 2);
    var c := Walk(mem, r, v, 2);
    if c.Reached? {
      assert EntryOk(all, mem, F, c.table, v.i2);
    }
  }

  lemma AddTableTranslation(all: bool, m: Machine, F: Forest, t: nat, i: nat, flags: Flags)
    requires ForestOk(all, m, F) && t in F && F[t].level > 1 && i < ENTRIES && Owned(all, F[t].level, i)
    requires !Load(m.mem, t, i).flags.present && flags.present && !flags.huge
    ensures SameTranslation(all, F, m.mem, AddTable(m, t, i, flags).0.mem)
  {
    AllocKeeps(m.pool);
    var (m', n) := AddTable(m, t, i, flags);
    if n != 0 {
      assert Linked(m.mem, F, t, i, n, m'.mem);
      forall r, v: VPage | IsRoot(F, r) && v.Ok() && Owned(all, 4, v.i4)
        ensures Translate(m'.mem, r, v) == Translate(m.mem, r, v)
      {
        assert NodeOk(all, m.mem, F, r);
        LinkedTranslation(all, m.mem, F, t, i, n, m'.mem, r, v);
      }
    }
  }

  // ---- Splitting a 2 MiB entry ----

  function SplitWords(e: Word): (s: seq<Word>)
  {
    seq(ENTRIES, k requires 0 <= k => Word(e.frame / ENTRIES * ENTRIES + k, e.flags.(huge := false)))
  }

  /** split_huge_pd_entry: a table of 512 entries with the same frames and flags takes the place of
      the huge entry. */
  function SplitHuge(m: Machine, pd: nat, i: nat): (r: (Machine, bool))
  {
    var e := Load(m.mem, pd, i);
    var (pool, n) := Alloc(m.pool);
    if n == 0 then (m.(pool := pool), false)
    else
      var flags := Flags(e.flags.present, e.flags.writable, e.flags.user, false, false, 0);
      (Machine(pool, Store(SetFrame(m.mem, n, SplitWords(e)), pd, i, Word(n, flags))), true)
  }

  /** mem' is mem with the huge entry replaced by table `n`. */
  ghost predicate SplitMem(mem: Memory, F: Forest, pd: nat, i: nat, n: nat, mem': Memory)
  {
    && |mem'| == |mem| && (forall f :: 0 <= f < |mem| && |mem[f]| == ENTRIES ==> |mem'[f]| == ENTRIES)
    && (forall f, k :: f in F && 0 <= k < ENTRIES && !(f == pd && k == i) ==> Load(mem', f, k) == Load(mem, f, k))
    && Points(2, Load(mem', pd, i)) && Load(mem', pd, i).frame == n
  }

  lemma SplitForest(all: bool, m: Machine, F: Forest, pd: nat, i: nat, n: nat, m': Machine)
    requires ForestOk(all, m, F) && pd in F && F[pd].level == 2 && i < ENTRIES && Load(m.mem, pd, i).flags.huge
    requires SplitMem(m.mem, F, pd, i, n, m'.mem) && n !in F && n < |m.mem|
    requires PoolOk(m'.pool) && m'.pool.used == m.pool.used[n := true]
    ensures ForestOk(all, m', F[n := Node(1, F[pd].root, pd, i)])
  {
    var F' := F[n := Node(1, F[pd].root, pd, i)];
    forall x | x in F' ensures NodeOk(all, m'.mem, F', x) {
      if x != n { assert NodeOk(all, m.mem, F, x); }
    }
    forall x, k | x in F' && 0 <= k < ENTRIES ensures EntryOk(all, m'.mem, F', x, k) {
      if x != n { assert EntryOk(all, m.mem, F, x, k); }
    }
  }

  lemma SplitKeeps(all: bool, m: Machine, F: Forest, pd: nat, i: nat) returns (F': Forest)
    requires ForestOk(all, m, F) && pd in F && F[pd].level == 2 && i < ENTRIES
    requires Load(m.mem, pd, i).flags.present && Load(m.mem, pd, i).flags.huge
    ensures var (m', ok) := SplitHuge(m, pd, i);
            && ForestOk(all, m', F')
            && Grown(F, F', F[pd].root)
            && (!ok ==> m' == m && F' == F)
            && SameTranslation(all, F, m.mem, m'.mem)
            && (ok ==> forall f, k ::
                f in F && 0 <= k < ENTRIES && !(f == pd && k == i) ==> Load(m'.mem, f, k) == Load(m.mem, f, k))
            && (ok ==> Points(2, Load(m'.mem, pd, i)))
  {
    AllocKeeps(m.pool);
    F' := F;
    SplitTranslation(all, m, F, pd, i);
    var (m', ok) := SplitHuge(m, pd, i);
    if ok {
      var n := Alloc(m.pool).1;
      assert SplitMem(m.mem, F, pd, i, n, m'.mem);
      SplitForest(all, m, F, pd, i, n, m');
      F' := F[n := Node(1, F[pd].root, pd, i)];
    }
  }

  lemma SplitTranslationAt(all: bool, mem: Memory, F: Forest, pd: nat, i: nat, n: nat, mem': Memory, r: nat, v: VPage)
    requires Closed(all, mem, F) && pd in F && F[pd].level == 2 && i < ENTRIES && n !in F
    requires var e := Load(mem, pd, i);
             && e.flags.present && e.flags.huge
             && Load(mem', pd, i) == Word(n, Flags(true, e.flags.writable, e.flags.user, false, false, 0))
             && (forall f, k: nat :: f in F && !(f == pd && k == i) ==> Load(mem', f, k) == Load(mem, f, k))
             && (forall k: nat :: k < ENTRIES ==> Load(mem', n, k) == SplitWords(e)[k])
    requires forall f: nat, k: nat :: f != n && !(f == pd && k == i) ==> Load(mem', f, k) == Load(mem, f, k)
    requires IsRoot(F, r) && F[r].root == r && v.Ok() && Owned(all, 4, v.i4)
    ensures Translate(mem', r, v) == Translate(mem, r, v)
  {
    WalkAgrees(all, mem, F, mem', r, v, 2);
    WalkInForest(all, mem, F, r, v, 2);
    var c := Walk(mem, r, v, 2);
    if c.Reached? {
      assert EntryOk(all, mem, F, c.table, v.i2);
    }
  }

  lemma SplitTranslation(all: bool, m: Machine, F: Forest, pd: nat, i: nat)
    requires ForestOk(all, m, F) && pd in F && F[pd].level == 2 && i < ENTRIES
    requires Load(m.mem, pd, i).flags.present && Load(m.mem, pd, i).flags.huge
    ensures SameTranslation(all, F, m.mem, SplitHuge(m, pd, i).0.mem)
  {
    AllocKeeps(m.pool);
    var (m', ok) := SplitHuge(m, pd, i);
    if ok {
      forall r, v: VPage | IsRoot(F, r) && v.Ok() && Owned(all, 4, v.i4)
        ensures Translate(m'.mem, r, v) == Translate(m.mem, r, v)
      {
        assert NodeOk(all, m.mem, F, r);
        SplitTranslationAt(all, m.mem, F, pd, i, Alloc(m.pool).1, m'.mem, r, v);
      }
    }
  }

  // ---- vmm_map_page ----

  /** The forest grew only by tables below `root`. */
  ghost predicate Grown(F: Forest, F': Forest, root: nat)
  {
    && (forall t :: t in F ==> t in F' && F'[t] == F[t])
    && (forall t :: t in F' && t !in F ==> F'[t].root == root && F'[t].level < 4)
  }

  function EnsureTable(m: Machine, t: nat, i: nat): (r: (Machine, bool))
  {
    if Load(m.mem, t, i).flags.present then (m, true)
    else
      var (m', n) := AddTable(m, t, i, TABLE_FLAGS);
      (m', n != 0)
  }

  /** The level-1 table that was reached, unless memory ran out on the way. */
  datatype Found = OutOfMemory | LeafTable(pt: nat)

  /** The last level: a huge entry is split, a missing table added. */
  function DescendPd(b: Machine, pd: nat, v: VPage): (r: (Machine, Found))
  {
    var e := Load(b.mem, pd, v.i2);
    var (c, okSplit) := if e.flags.present && e.flags.huge then SplitHuge(b, pd, v.i2) else (b, true);
    if !okSplit then (c, OutOfMemory)
    else
      var (d, ok2) := EnsureTable(c, pd, v.i2);
      if !ok2 then (d, OutOfMemory) else (d, LeafTable(Load(d.mem, pd, v.i2).frame))
  }

  /** The table-building part of vmm_map_page. */
  function Descend(m: Machine, root: nat, v: VPage): (r: (Machine, Found))
  {
    var (a, ok4) := EnsureTable(m, root, v.i4);
    if !ok4 then (a, OutOfMemory)
    else
      var pdpt := Load(a.mem, root, v.i4).frame;
      var (b, ok3) := EnsureTable(a, pdpt, v.i3);
      if !ok3 then (b, OutOfMemory) else DescendPd(b, Load(b.mem, pdpt, v.i3).frame, v)
  }

  /** vmm_map_page; the flag says whether the entry was written. */
  function MapPage(m: Machine, root: nat, v: VPage, frame: nat, flags: Flags): (r: (Machine, bool))
  {
    match Descend(m, root, v)
    case (d, OutOfMemory) => (d, false)
    case (d, LeafTable(pt)) => (d.(mem := Store(d.mem, pt, v.i1, Word(frame, flags))), true)
  }

  lemma EnsureKeeps(all: bool, m: Machine, F: Forest, t: nat, i: nat) returns (F': Forest)
    requires ForestOk(all, m, F) && t in F && F[t].level > 1 && i < ENTRIES && Owned(all, F[t].level, i)
    ensures var (m', ok) := EnsureTable(m, t, i);
            && ForestOk(all, m', F')
            && Grown(F, F', F[t].root)
            && SameTranslation(all, F, m.mem, m'.mem)
            && (ok ==> Load(m'.mem, t, i).flags.present)
            && (ok && !(F[t].level == 2 && Load(m.mem, t, i).flags.present && Load(m.mem, t, i).flags.huge) ==>
                  Points(F[t].level, Load(m'.mem, t, i)))
            && (forall f, k ::
                f in F && 0 <= k < ENTRIES && !(f == t && k == i) ==> Load(m'.mem, f, k) == Load(m.mem, f, k))
            && (Load(m.mem, t, i).flags.present ==> m' == m)
  {
    F' := F;
    if !Load(m.mem, t, i).flags.present {
      AddTableKeeps(all, m, F, t, i, TABLE_FLAGS);
      AddTableTranslation(all, m, F, t, i, TABLE_FLAGS);
      var (m', n) := AddTable(m, t, i, TABLE_FLAGS);
      if n != 0 {
        F' := F[n := Node(F[t].level - 1, F[t].root, t, i)];
      }
    }
  }

  /** The level-1 table Descend returns is the one the walk of `v` reaches. */
  lemma DescendKeeps(all: bool, m: Machine, F: Forest, root: nat, v: VPage) returns (F': Forest)
    requires ForestOk(all, m, F) && IsRoot(F, root) && v.Ok() && Owned(all, 4, v.i4)
    ensures var (d, found) := Descend(m, root, v);
            && ForestOk(all, d, F')
            && Grown(F, F', root)
            && SameTranslation(all, F, m.mem, d.mem)
            && (found.LeafTable? ==> Walk(d.mem, root, v, 1).Reached? && Walk(d.mem, root, v, 1).table == found.pt)
  {
    assert NodeOk(all, m.mem, F, root);
    F' := EnsureKeeps(all, m, F, root, v.i4);
    var (a, ok4) := EnsureTable(m, root, v.i4);
    if ok4 {
      var pdpt := Load(a.mem, root, v.i4).frame;
      assert EntryOk(all, a.mem, F', root, v.i4);
      F' := DescendLower(all, a, F', root, v, pdpt);
    }
  }

  lemma WalkChain(mem: Memory, root: nat, v: VPage, pdpt: nat, pd: nat, pt: nat)
    requires Points(4, Load(mem, root, v.i4)) && Load(mem, root, v.i4).frame == pdpt
    requires Points(3, Load(mem, pdpt, v.i3)) && Load(mem, pdpt, v.i3).frame == pd
    requires Points(2, Load(mem, pd, v.i2)) && Load(mem, pd, v.i2).frame == pt
    ensures Walk(mem, root, v, 1).Reached? && Walk(mem, root, v, 1).table == pt
  {
    assert Walk(mem, root, v, 3).Reached? && Walk(mem, root, v, 3).table == pdpt;
    assert Walk(mem, root, v, 2).Reached? && Walk(mem, root, v, 2).table == pd;
  }

  lemma DescendLower(all: bool, a: Machine, Fa: Forest, root: nat, v: VPage, pdpt: nat) returns (F': Forest)
    requires ForestOk(all, a, Fa) && IsRoot(Fa, root) && v.Ok() && Owned(all, 4, v.i4)
    requires Points(4, Load(a.mem, root, v.i4)) && Load(a.mem, root, v.i4).frame == pdpt
    requires pdpt in Fa && Fa[pdpt] == Node(3, root, root, v.i4)
    ensures var (b, ok3) := EnsureTable(a, pdpt, v.i3);
            var (d, found) := if !ok3 then (b, OutOfMemory) else DescendPd(b, Load(b.mem, pdpt, v.i3).frame, v);
            && ForestOk(all, d, F')
            && Grown(Fa, F', root)
            && SameTranslation(all, Fa, a.mem, d.mem)
            && (found.LeafTable? ==> Walk(d.mem, root, v, 1).Reached? && Walk(d.mem, root, v, 1).table == found.pt)
  {
    F' := EnsureKeeps(all, a, Fa, pdpt, v.i3);
    var (b, ok3) := EnsureTable(a, pdpt, v.i3);
    if ok3 {
      var Fb := F';
      assert EntryOk(all, b.mem, Fb, pdpt, v.i3);
      var pd := Load(b.mem, pdpt, v.i3).frame;
      F' := DescendPdKeeps(all, b, Fb, pd, v);
      var (d, found) := DescendPd(b, pd, v);
      if found.LeafTable? {
        WalkChain(d.mem, root, v, pdpt, pd, found.pt);
      }
    }
  }

  lemma DescendPdKeeps(all: bool, b: Machine, Fb: Forest, pd: nat, v: VPage) returns (F': Forest)
    requires ForestOk(all, b, Fb) && v.Ok() && pd in Fb && Fb[pd].level == 2
    ensures var (d, found) := DescendPd(b, pd, v);
            && ForestOk(all, d, F')
            && Grown(Fb, F', Fb[pd].root)
            && SameTranslation(all, Fb, b.mem, d.mem)
            && (forall f, k ::
                f in Fb && 0 <= k < ENTRIES && !(f == pd && k == v.i2) ==> Load(d.mem, f, k) == Load(b.mem, f, k))
            && (found.LeafTable? ==> Points(2, Load(d.mem, pd, v.i2)) && Load(d.mem, pd, v.i2).frame == found.pt)
  {
    F' := Fb;
    var e := Load(b.mem, pd, v.i2);
    if e.flags.present && e.flags.huge {
      F' := SplitKeeps(all, b, Fb, pd, v.i2);
    } else {
      F' := EnsureKeeps(all, b, Fb, pd, v.i2);
    }
  }

  lemma TranslateViaLeaf(mem: Memory, r: nat, v: VPage)
    ensures Walk(mem, r, v, 1).Reached? ==>
              var c := Walk(mem, r, v, 1);
              var leaf := Load(mem, c.table, v.i1);
              Translate(mem, r, v) == if leaf.flags.present
                                      then Mapped(leaf.frame, leaf.flags, c.writable && leaf.flags.writable, c.user
                                          && leaf.flags.user)
                                      else Unmapped
    ensures Walk(mem, r, v, 1).Fault? ==>
              match Walk(mem, r, v, 2)
              case Fault => Translate(mem, r, v) == Unmapped
              case Reached(t, _, _) => !Load(mem, t, v.i2).flags.present || Load(mem, t, v.i2).flags.huge
  {
    var c := Walk(mem, r, v, 2);
    if c.Reached? {
      assert Walk(mem, r, v, 1) == (var e := Load(mem, c.table, v.i2);
        if Points(2, e) then Reached(e.frame, c.writable && e.flags.writable, c.user && e.flags.user) else Fault);
    }
  }

  /** Writing one level-1 entry changes the translation of exactly one page of one root. */
  lemma LeafStoreTranslation(all: bool, mem: Memory, F: Forest, root: nat, v: VPage, w: Word, r: nat, v': VPage)
    requires Closed(all, mem, F) && IsRoot(F, root) && F[root].root == root && IsRoot(F, r) && F[r].root == r
    requires v.Ok() && Owned(all, 4, v.i4) && v'.Ok() && Owned(all, 4, v'.i4)
    requires Walk(mem, root, v, 1).Reached?
    requires var pt := Walk(mem, root, v, 1).table; pt < |mem| && |mem[pt]| == ENTRIES
    ensures var c := Walk(mem, root, v, 1);
            Translate(Store(mem, c.table, v.i1, w), r, v') ==
              if r == root && v' == v then
                if w.flags.present
                then Mapped(w.frame, w.flags, c.writable && w.flags.writable, c.user && w.flags.user)
                else Unmapped
              else Translate(mem, r, v')
  {
    hide Walk;
    var c := Walk(mem, root, v, 1);
    var mem' := Store(mem, c.table, v.i1, w);
    WalkInForest(all, mem, F, root, v, 1);
    WalkAgrees(all, mem, F, mem', r, v', 1);
    WalkAgrees(all, mem, F, mem', r, v', 2);
    TranslateViaLeaf(mem, r, v');
    TranslateViaLeaf(mem', r, v');
    WalkInForest(all, mem, F, r, v', 2);
    if Walk(mem, r, v', 1).Reached? && Walk(mem, r, v', 1).table == c.table {
      WalkInjective(all, mem, F, r, v', root, v, 1);
      assert v'.At(2) == v.At(2) && v'.At(3) == v.At(3) && v'.At(4) == v.At(4);
    }
  }

  // ---- Effective rights ----

  /** WRITABLE or USER of an entry. */
  predicate Allows(f: Flags, write: bool)
  {
    if write then f.writable else f.user
  }

  /** Whether the table entries above page `v` allow writing (or user access); a missing one will be added with all
      rights. */
  predicate PathAllows(mem: Memory, root: nat, v: VPage, write: bool)
  {
    var e4 := Load(mem, root, v.i4);
    e4.flags.present ==> Allows(e4.flags, write) && PathAllowsLow(mem, e4.frame, v, write)
  }

  predicate PathAllowsLow(mem: Memory, pdpt: nat, v: VPage, write: bool)
  {
    var e3 := Load(mem, pdpt, v.i3);
    e3.flags.present ==>
      && Allows(e3.flags, write)
      && var e2 := Load(mem, e3.frame, v.i2); e2.flags.present ==> Allows(e2.flags, write)
  }

  /** Adding a missing table gives it all rights and nothing below it. */
  lemma EnsureLoads(all: bool, m: Machine, F: Forest, t: nat, i: nat)
    requires ForestOk(all, m, F) && t in F && i < ENTRIES
    ensures var (m', ok) := EnsureTable(m, t, i);
            && (Load(m.mem, t, i).flags.present ==> m' == m)
            && (ok && !Load(m.mem, t, i).flags.present ==>
                  && Load(m'.mem, t, i).flags == TABLE_FLAGS
                  && forall k :: !Load(m'.mem, Load(m'.mem, t, i).frame, k).flags.present)
  {
    AllocKeeps(m.pool);
  }

  lemma DescendPdRights(all: bool, b: Machine, F: Forest, pd: nat, v: VPage, write: bool)
    requires ForestOk(all, b, F) && pd in F && v.Ok()
    ensures var (d, found) := DescendPd(b, pd, v);
            var e := Load(b.mem, pd, v.i2);
            found.LeafTable? ==> Load(d.mem, pd, v.i2).flags.present
                                 && (Allows(Load(d.mem, pd, v.i2).flags, write) <==>
                                     (e.flags.present ==> Allows(e.flags, write)))
  {
    AllocKeeps(b.pool);
    EnsureLoads(all, b, F, pd, v.i2);
  }

  lemma DescendLowerRights(all: bool, a: Machine, F: Forest, root: nat, v: VPage, pdpt: nat, write: bool)
    requires ForestOk(all, a, F) && IsRoot(F, root) && v.Ok() && Owned(all, 4, v.i4)
    requires Points(4, Load(a.mem, root, v.i4)) && Load(a.mem, root, v.i4).frame == pdpt
    requires pdpt in F && F[pdpt] == Node(3, root, root, v.i4)
    ensures var (b, ok3) := EnsureTable(a, pdpt, v.i3);
            var (d, found) := if !ok3 then (b, OutOfMemory) else DescendPd(b, Load(b.mem, pdpt, v.i3).frame, v);
            found.LeafTable? ==>
              && Load(d.mem, root, v.i4) == Load(a.mem, root, v.i4) && Points(3, Load(d.mem, pdpt, v.i3))
              && Points(2, Load(d.mem, Load(d.mem, pdpt, v.i3).frame, v.i2))
              && (Allows(Load(d.mem, pdpt, v.i3).flags, write)
                  && Allows(Load(d.mem, Load(d.mem, pdpt, v.i3).frame, v.i2).flags, write)
                  <==> PathAllowsLow(a.mem, pdpt, v, write))
  {
    hide DescendPd, EnsureTable, SameTranslation;
    var Fb := EnsureKeeps(all, a, F, pdpt, v.i3);
    EnsureLoads(all, a, F, pdpt, v.i3);
    var (b, ok3) := EnsureTable(a, pdpt, v.i3);
    if ok3 {
      assert EntryOk(all, b.mem, Fb, pdpt, v.i3);
      var pd := Load(b.mem, pdpt, v.i3).frame;
      DescendPdRights(all, b, Fb, pd, v, write);
      var Fd := DescendPdKeeps(all, b, Fb, pd, v);
    }
  }

  /** The rights of the walk to the leaf table are those of the entries that were there. */
  lemma DescendRights(all: bool, m: Machine, F: Forest, root: nat, v: VPage)
    requires ForestOk(all, m, F) && IsRoot(F, root) && v.Ok() && Owned(all, 4, v.i4)
    ensures var (d, found) := Descend(m, root, v);
            var c := Walk(d.mem, root, v, 1);
            found.LeafTable? ==>
                c.Reached? && c.writable == PathAllows(m.mem, root, v, true)
                    && c.user == PathAllows(m.mem, root, v, false)
  {
    hide DescendPd, EnsureTable, SameTranslation;
    var Fa := EnsureKeeps(all, m, F, root, v.i4);
    EnsureLoads(all, m, F, root, v.i4);
    var (a, ok4) := EnsureTable(m, root, v.i4);
    if ok4 {
      assert EntryOk(all, a.mem, Fa, root, v.i4);
      assert NodeOk(all, m.mem, F, root);
      var pdpt := Load(a.mem, root, v.i4).frame;
      DescendLowerRights(all, a, Fa, root, v, pdpt, true);
      DescendLowerRights(all, a, Fa, root, v, pdpt, false);
      var (d, found) := Descend(m, root, v);
      if found.LeafTable? {
        WalkRights(d.mem, root, v);
      }
    }
  }

  lemma WalkRights(mem: Memory, root: nat, v: VPage)
    requires Points(4, Load(mem, root, v.i4)) && Points(3, Load(mem, Load(mem, root, v.i4).frame, v.i3))
    requires Points(2, Load(mem, Load(mem, Load(mem, root, v.i4).frame, v.i3).frame, v.i2))
    ensures var e4 := Load(mem, root, v.i4);
            var e3 := Load(mem, e4.frame, v.i3);
            var e2 := Load(mem, e3.frame, v.i2);
            Walk(mem, root, v, 1) == Reached(e2.frame, e4.flags.writable && e3.flags.writable && e2.flags.writable,
                                             e4.flags.user && e3.flags.user && e2.flags.user)
  {
    var e4 := Load(mem, root, v.i4);
    var e3 := Load(mem, e4.frame, v.i3);
    assert Walk(mem, root, v, 4) == Reached(root, true, true);
    assert Walk(mem, root, v, 3) == Reached(e4.frame, e4.flags.writable, e4.flags.user);
    assert Walk(mem, root, v, 2) == Reached(e3.frame, e4.flags.writable && e3.flags.writable, e4.flags.user
           && e3.flags.user);
  }

  /** vmm_map_page updates exactly one page of the flat map, through table creation and through the
      split of a 2 MiB entry, and leaves the whole map alone when memory runs out. */
  lemma MapPageRefinesFlatMap(all: bool, m: Machine, F: Forest, root: nat, v: VPage, frame: nat, flags: Flags)
    returns (F': Forest)
    requires ForestOk(all, m, F) && IsRoot(F, root) && v.Ok() && Owned(all, 4, v.i4)
    ensures var (m', ok) := MapPage(m, root, v, frame, flags);
            && ForestOk(all, m', F')
            && Grown(F, F', root)
            && (ok && flags.present ==>
                  var r := Translate(m'.mem, root, v);
                  && r.Mapped? && r.frame == frame && r.flags == flags
                  && r.writable == (flags.writable && PathAllows(m.mem, root, v, true))
                  && r.user == (flags.user && PathAllows(m.mem, root, v, false)))
            && (ok && !flags.present ==> Translate(m'.mem, root, v) == Unmapped)
            && (!ok ==> Translate(m'.mem, root, v) == Translate(m.mem, root, v))
            && forall r, v': VPage :: IsRoot(F, r) && v'.Ok() && Owned(all, 4, v'.i4) && !(r == root && v' == v) ==>
                 Translate(m'.mem, r, v') == Translate(m.mem, r, v')
  {
    hide Descend, PathAllows, SameTranslation;
    F' := DescendKeeps(all, m, F, root, v);
    DescendRights(all, m, F, root, v);
    var (d, found) := Descend(m, root, v);
    if found.LeafTable? {
      LeafStoreKeeps(all, d, F', root, v, Word(frame, flags));
    }
  }

  lemma LeafStoreKeeps(all: bool, d: Machine, F: Forest, root: nat, v: VPage, w: Word)
    requires ForestOk(all, d, F) && IsRoot(F, root) && v.Ok() && Owned(all, 4, v.i4)
    requires Walk(d.mem, root, v, 1).Reached?
    ensures var c := Walk(d.mem, root, v, 1);
            var mem' := Store(d.mem, c.table, v.i1, w);
            && ForestOk(all, d.(mem := mem'), F)
            && (w.flags.present ==>
                  Translate(mem', root, v) == Mapped(w.frame, w.flags, c.writable && w.flags.writable, c.user
                      && w.flags.user))
            && (!w.flags.present ==> Translate(mem', root, v) == Unmapped)
            && forall r, v': VPage :: IsRoot(F, r) && v'.Ok() && Owned(all, 4, v'.i4) && !(r == root && v' == v) ==>
                 Translate(mem', r, v') == Translate(d.mem, r, v')
  {
    assert NodeOk(all, d.mem, F, root);
    WalkInForest(all, d.mem, F, root, v, 1);
    var c := Walk(d.mem, root, v, 1);
    var d' := d.(mem := Store(d.mem, c.table, v.i1, w));
    forall x | x in F ensures NodeOk(all, d'.mem, F, x) { assert NodeOk(all, d.mem, F, x); }
    forall x, k | x in F && 0 <= k < ENTRIES
        ensures EntryOk(all, d'.mem, F, x, k) { assert EntryOk(all, d.mem, F, x, k); }
    forall r, v': VPage | IsRoot(F, r) && v'.Ok() && Owned(all, 4, v'.i4)
      ensures (r == root && v' == v) || Translate(d'.mem, r, v') == Translate(d.mem, r, v')
    {
      assert NodeOk(all, d.mem, F, r);
      LeafStoreTranslation(all, d.mem, F, root, v, w, r, v');
    }
    LeafStoreTranslation(all, d.mem, F, root, v, w, root, v);
  }
}
