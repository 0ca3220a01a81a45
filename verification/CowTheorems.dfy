/** The results about runs of the memory manager, stated without the proof's bookkeeping. */
module CowTheorems {
  import opened Pmm
  import opened PageTables
  import opened CowSpaces
  import opened CowTeardown
  import opened CowFork
  import opened CowRuns

  /** Every run keeps the ownership invariant. */
  lemma {:induction false} RunKeepsGood(s: System, ops: seq<Op>)
    requires Good(s)
    ensures Good(Run(s, ops)) && |Run(s, ops).m.mem| == |s.m.mem|
    decreases |ops|
  {
    if ops != [] {
      var F :| GoodWith(s, F);
      var F' := StepGood(s, F, ops[0]);
      RunKeepsGood(Step(s, ops[0]), ops[1..]);
    }
  }

  /** Isolation: a run in which nothing is done for `b` changes no byte `b` can read and none of its
      mappings, whatever all other spaces do. */
  lemma {:induction false} RunsAreIsolated(s: System, ops: seq<Op>, b: nat)
    requires Good(s) && b in s.roots && forall i :: 0 <= i < |ops| ==> !ActsFor(ops[i], b)
    ensures b in Run(s, ops).roots && ViewKept(s.m, Run(s, ops).m, b)
    decreases |ops|
  {
    var F :| GoodWith(s, F);
    if ops == [] {
      var w := WorldOf(s, F);
      SpaceKeptView(w, w, b);
    } else {
      var F' := StepGood(s, F, ops[0]);
      var s1, s2 := Step(s, ops[0]), Run(s, ops);
      RunsAreIsolated(s1, ops[1..], b);
      forall v: VPage | UserPage(v) ensures SameView(s.m, s2.m, b, v) {
        assert SameView(s.m, s1.m, b, v) && SameView(s1.m, s2.m, b, v);
      }
    }
  }

  /** A fork gives the child the parent's pages, read-only on both sides, with the parent's contents. */
  lemma ForkShares(s: System, a: nat, v: VPage)
    requires Good(s) && a in s.roots && Fork(s.m, a, s.fixed.boot).1 != 0 && UserPage(v)
    ensures SharedAt(s.m, Fork(s.m, a, s.fixed.boot).0, a, Fork(s.m, a, s.fixed.boot).1, v)
  {
    var F :| GoodWith(s, F);
    var w1, T, ok := CopyResult(WorldOf(s, F), a);
    ForkViewAt(WorldOf(s, F), w1, T, a, Alloc(s.m.pool).1, v);
  }

  /** A fork also gives the child the present kernel slots of the parent's root, and no others. */
  lemma ForkCopiesKernel(s: System, a: nat, k: nat)
    requires Good(s) && a in s.roots && Fork(s.m, a, s.fixed.boot).1 != 0 && k < ENTRIES && !UserSlot(k)
    ensures var (m', d) := Fork(s.m, a, s.fixed.boot);
            var e := Load(s.m.mem, a, k);
            if e.flags.present then Load(m'.mem, d, k) == e else !Load(m'.mem, d, k).flags.present
  {
    var F :| GoodWith(s, F);
    var w := WorldOf(s, F);
    var w1, T, ok := CopyResult(w, a);
    assert NodeOk(false, s.m.mem, F, a);
    var d := Alloc(s.m.pool).1;
    assert SlotTwin(w1, T, a, d, k);
  }

  // ---- vmm_create_user_space ----

  lemma {:induction false} CopyKernelIs(mem: Memory, src: nat, dst: nat, i: nat, k: nat)
    requires i <= ENTRIES && src != dst && dst < |mem| && |mem[dst]| == ENTRIES && k < ENTRIES
    ensures Load(CopyKernel(mem, src, dst, i), dst, k) == Load(mem, if i <= k && !UserSlot(k) then src else dst, k)
    decreases ENTRIES - i
  {
    if i < ENTRIES {
      CopyKernelIs(if UserSlot(i) then mem else Store(mem, dst, i, Load(mem, src, i)), src, dst, i + 1, k);
    }
  }

  /** A created space has the kernel slots of its source and an empty user half; creation fails exactly when no block is
      free. */
  lemma CreatedSpace(s: System, a: nat)
    requires Good(s) && a in s.roots
    ensures var (m', d) := Create(s.m, a);
            && (d == 0 <==> s.m.pool.free == 0) && (d == 0 ==> m' == s.m)
            && (d != 0 ==>
                  && d !in s.roots
                  && (forall k :: 0 <= k < ENTRIES ==>
                        Load(m'.mem, d, k) == if UserSlot(k) then ZERO else Load(s.m.mem, a, k))
                  && forall v: VPage :: UserPage(v) ==> Translate(m'.mem, d, v) == Unmapped)
  {
    hide CopyKernel, Walk;
    var F :| GoodWith(s, F);
    var w := WorldOf(s, F);
    FreshFrame(w);
    AllocKeeps(s.m.pool);
    AllocFailsIff(s.m.pool);
    var (m', d) := Create(s.m, a);
    if d != 0 {
      forall k | 0 <= k < ENTRIES ensures Load(m'.mem, d, k) == if UserSlot(k) then ZERO else Load(s.m.mem, a, k) {
        CopyKernelIs(Zeroed(s.m.mem, d), a, d, 0, k);
      }
      forall v: VPage | UserPage(v) ensures Translate(m'.mem, d, v) == Unmapped {
        EmptySlot(m'.mem, d, v);
      }
    }
  }

  lemma EmptySlot(mem: Memory, d: nat, v: VPage)
    requires UserPage(v) && !Load(mem, d, v.i4).flags.present
    ensures Translate(mem, d, v) == Unmapped
  {
    assert Walk(mem, d, v, 3) == Fault && Walk(mem, d, v, 2) == Fault && Walk(mem, d, v, 1) == Fault;
  }

  /** `d` reads at `v`, in machine `now`, the page `a` had there in machine `m`. */
  ghost predicate ReadsPageOf(m: Machine, a: nat, now: Machine, d: nat, v: VPage)
  {
    var before, after := Translate(m.mem, a, v), Translate(now.mem, d, v);
    if before.Mapped?
    then after.Mapped? && before.frame < |m.mem| && after.frame < |now.mem|
        && now.mem[after.frame] == m.mem[before.frame]
    else after == Unmapped
  }

  lemma SharedThenSame(m: Machine, m1: Machine, now: Machine, a: nat, d: nat, v: VPage)
    requires SharedAt(m, m1, a, d, v) && SameView(m1, now, d, v)
    ensures ReadsPageOf(m, a, now, d, v)
  {
  }

  lemma RunCons(s: System, op: Op, ops: seq<Op>)
    ensures Run(s, [op] + ops) == Run(Step(s, op), ops)
  {
    assert ([op] + ops)[1..] == ops;
  }

  lemma StepKeepsGood(s: System, op: Op)
    requires Good(s)
    ensures Good(Step(s, op))
  {
    var F :| GoodWith(s, F);
    var F' := StepGood(s, F, op);
  }

  lemma ForkStepIs(s: System, a: nat, m': Machine, d: nat)
    requires a in s.roots && (m', d) == Fork(s.m, a, s.fixed.boot) && d != 0
    ensures Step(s, Duplicate(a)) == System(m', s.roots + {d}, s.held, s.fixed)
  {
  }

  /** After a fork no run of the others, the parent included, changes a byte the child reads: the child
      goes on seeing the parent's pages as they were at the fork. The converse is RunsAreIsolated for
      the parent. */
  lemma ChildSeesForkTime(s: System, a: nat, ops: seq<Op>, v: VPage)
    requires Good(s) && a in s.roots && Fork(s.m, a, s.fixed.boot).1 != 0 && UserPage(v)
    requires forall i :: 0 <= i < |ops| ==> !ActsFor(ops[i], Fork(s.m, a, s.fixed.boot).1)
    ensures ReadsPageOf(s.m, a, Run(s, [Duplicate(a)] + ops).m, Fork(s.m, a, s.fixed.boot).1, v)
  {
    StepKeepsGood(s, Duplicate(a));
    ForkStepIs(s, a, Fork(s.m, a, s.fixed.boot).0, Fork(s.m, a, s.fixed.boot).1);
    ForkShares(s, a, v);
    RunCons(s, Duplicate(a), ops);
    var s1, d := Step(s, Duplicate(a)), Fork(s.m, a, s.fixed.boot).1;
    RunsAreIsolated(s1, ops, d);
    SharedThenSame(s.m, s1.m, Run(s1, ops).m, a, d, v);
  }

  /** A frame mapped at two places of the live spaces is writable through neither. */
  lemma SharedFramesAreReadOnly(s: System, r1: nat, v1: VPage, r2: nat, v2: VPage)
    requires Good(s) && r1 in s.roots && r2 in s.roots && UserPage(v1) && UserPage(v2) && (r1, v1) != (r2, v2)
    requires Translate(s.m.mem, r1, v1).Mapped? && Translate(s.m.mem, r2, v2).Mapped?
    requires Translate(s.m.mem, r1, v1).frame == Translate(s.m.mem, r2, v2).frame
    ensures !Translate(s.m.mem, r1, v1).flags.writable && !Translate(s.m.mem, r2, v2).flags.writable
  {
    var F :| GoodWith(s, F);
    var w := WorldOf(s, F);
    LeafTableIn(w, r1, v1);
    LeafTableIn(w, r2, v2);
    UserTranslate(s.m.mem, F, r1, v1);
    UserTranslate(s.m.mem, F, r2, v2);
    var t1, t2 := Walk(s.m.mem, r1, v1, 1).table, Walk(s.m.mem, r2, v2, 1).table;
    if t1 == t2 {
      WalkInjective(false, s.m.mem, F, r1, v1, r2, v2, 1);
      assert v1.At(2) == v2.At(2) && v1.At(3) == v2.At(3) && v1.At(4) == v2.At(4);
    }
    TwiceMapped(w, t1, v1.i1, t2, v2.i1);
    TwiceMapped(w, t2, v2.i1, t1, v1.i1);
  }

  // ---- Exact references, counted over addresses ----

  /** The (space, page) pairs that map frame `f`. */
  ghost function Mappers(s: System, f: nat): (r: set<(nat, VPage)>)
  {
    set r, i4, i3, i2, i1 |
      r in s.roots && 2 <= i4 < 256 && 0 <= i3 < ENTRIES && 0 <= i2 < ENTRIES && 0 <= i1 < ENTRIES
      && MapsTo(s.m.mem, r, VPage(i4, i3, i2, i1), f) :: (r, VPage(i4, i3, i2, i1))
  }

  ghost predicate MapsTo(mem: Memory, r: nat, v: VPage, f: nat)
  {
    Translate(mem, r, v).Mapped? && Translate(mem, r, v).frame == f
  }

  /** `f` is a table page of some live space. */
  ghost predicate IsTablePage(s: System, f: nat)
  {
    exists r, v: VPage, level :: r in s.roots && UserPage(v) && 1 <= level <= 4 && TableAt(s.m.mem, r, v, level, f)
  }

  ghost predicate TableAt(mem: Memory, r: nat, v: VPage, level: nat, f: nat)
    requires 1 <= level <= 4
  {
    Walk(mem, r, v, level).Reached? && Walk(mem, r, v, level).table == f
  }

  /** A walk does not look at the indices of the levels it has not reached. */
  lemma {:induction false} WalkUsesUpper(mem: Memory, r: nat, v: VPage, v': VPage, level: nat)
    requires 1 <= level <= 4 && forall k :: level < k <= 4 ==> v.At(k) == v'.At(k)
    ensures Walk(mem, r, v, level) == Walk(mem, r, v', level)
    decreases 4 - level
  {
    if level < 4 {
      WalkUsesUpper(mem, r, v, v', level + 1);
    }
  }

  function WithIndex(v: VPage, level: nat, i: nat): (v': VPage)
  {
    if level == 4 then v.(i4 := i) else if level == 3 then v.(i3 := i) else if level == 2 then v.(i2 := i)
        else v.(i1 := i)
  }

  /** Every table of the forest is reached by some walk of its root. */
  lemma {:induction false} PathTo(m: Machine, F: Forest, t: nat) returns (v: VPage)
    requires ForestOk(false, m, F) && t in F
    ensures UserPage(v) && 1 <= F[t].level <= 4 && TableAt(m.mem, F[t].root, v, F[t].level, t) && IsRoot(F, F[t].root)
    decreases 4 - F[t].level
  {
    assert NodeOk(false, m.mem, F, t);
    if F[t].level == 4 {
      v := VPage(2, 0, 0, 0);
    } else {
      var p := F[t].parent;
      assert NodeOk(false, m.mem, F, p);
      var u := PathTo(m, F, p);
      v := WithIndex(u, F[p].level, F[t].slot);
      WalkUsesUpper(m.mem, F[t].root, u, v, F[p].level);
    }
  }

  lemma TablePagesAreForest(s: System, F: Forest, f: nat)
    requires GoodWith(s, F)
    ensures IsTablePage(s, f) <==> f in F
  {
    if f in F {
      var v := PathTo(s.m, F, f);
      assert TableAt(s.m.mem, F[f].root, v, F[f].level, f);
    }
    if IsTablePage(s, f) {
      var r, v: VPage, level :| r in s.roots && UserPage(v) && 1 <= level <= 4 && TableAt(s.m.mem, r, v, level, f);
      assert NodeOk(false, s.m.mem, F, r);
      WalkInForest(false, s.m.mem, F, r, v, level);
    }
  }

  ghost predicate Injective<X, Y>(g: map<X, Y>)
  {
    forall x, y :: x in g && y in g && g[x] == g[y] ==> x == y
  }

  /** An injective map has as many keys as values. */
  lemma {:induction false} SameSize<X, Y>(g: map<X, Y>)
    requires Injective(g)
    ensures |g.Keys| == |g.Values|
    decreases |g.Keys|
  {
    if g.Keys != {} {
      var x :| x in g.Keys;
      var g' := g - {x};
      assert g.Keys == g'.Keys + {x};
      forall y ensures y in g.Values <==> y in g'.Values + {g[x]} {
        if y in g.Values {
          var k :| k in g && g[k] == y;
          assert k != x ==> k in g' && g'[k] == y;
        }
        if y in g'.Values {
          var k :| k in g' && g'[k] == y;
          assert k in g && g[k] == y;
        }
      }
      assert g.Values == g'.Values + {g[x]};
      SameSize(g');
    } else {
      assert g.Values == {};
    }
  }

  lemma InMappers(s: System, f: nat, p: (nat, VPage))
    ensures p in Mappers(s, f) <==> p.0 in s.roots && UserPage(p.1) && MapsTo(s.m.mem, p.0, p.1, f)
  {
    var v := p.1;
    assert v == VPage(v.i4, v.i3, v.i2, v.i1);
  }

  ghost function SlotMap(s: System, f: nat): (g: map<(nat, VPage), Slot>)
    ensures g.Keys == Mappers(s, f)
  {
    map p | p in Mappers(s, f) :: SlotOf(s.m.mem, p)
  }

  lemma SlotMapInjective(s: System, F: Forest, f: nat)
    requires GoodWith(s, F)
    ensures Injective(SlotMap(s, f))
  {
    var g := SlotMap(s, f);
    forall p, q | p in g && q in g && g[p] == g[q] ensures p == q {
      MapperSlot(s, F, p, f);
      MapperSlot(s, F, q, f);
      WalkInjective(false, s.m.mem, F, p.0, p.1, q.0, q.1, 1);
      assert p.1.At(2) == q.1.At(2) && p.1.At(3) == q.1.At(3) && p.1.At(4) == q.1.At(4);
    }
  }

  lemma SlotMapValues(s: System, F: Forest, f: nat)
    requires GoodWith(s, F)
    ensures var L := Leaves(s.m.mem, F); SlotMap(s, f).Values == set k | k in L && L[k] == f
  {
    var g, L := SlotMap(s, f), Leaves(s.m.mem, F);
    var B := set k | k in L && L[k] == f;
    forall k | k in g.Values ensures k in B {
      var p :| p in g && g[p] == k;
      MapperSlot(s, F, p, f);
    }
    forall k | k in B ensures k in g.Values {
      var p := SlotMapper(s, F, k, f);
      assert p in g && g[p] == k;
    }
    assert g.Values == B;
  }

  lemma MappersAreLeaves(s: System, F: Forest, f: nat)
    requires GoodWith(s, F)
    ensures |Mappers(s, f)| == Count(Leaves(s.m.mem, F), f)
  {
    SlotMapInjective(s, F, f);
    SlotMapValues(s, F, f);
    SameSize(SlotMap(s, f));
  }

  ghost function SlotOf(mem: Memory, p: (nat, VPage)): (k: Slot)
  {
    match Walk(mem, p.0, p.1, 1)
    case Fault => (0, p.1.i1)
    case Reached(t, _, _) => (t, p.1.i1)
  }

  lemma MapperSlot(s: System, F: Forest, p: (nat, VPage), f: nat)
    requires GoodWith(s, F) && p in Mappers(s, f)
    ensures p.0 in F && IsRoot(F, p.0) && F[p.0].root == p.0 && UserPage(p.1) && Walk(s.m.mem, p.0, p.1, 1).Reached?
    ensures var k := SlotOf(s.m.mem, p);
            k in Leaves(s.m.mem, F) && Leaves(s.m.mem, F)[k] == f && k.0 == Walk(s.m.mem, p.0, p.1, 1).table
  {
    InMappers(s, f, p);
    assert NodeOk(false, s.m.mem, F, p.0);
    UserTranslate(s.m.mem, F, p.0, p.1);
  }

  lemma SlotPath(m: Machine, F: Forest, t: nat, l: nat) returns (v: VPage)
    requires ForestOk(false, m, F) && t in F && F[t].level == 1 && l < ENTRIES
    ensures UserPage(v) && v.i1 == l && TableAt(m.mem, F[t].root, v, 1, t)
    ensures IsRoot(F, F[t].root) && F[F[t].root].root == F[t].root
  {
    var u := PathTo(m, F, t);
    v := u.(i1 := l);
    WalkUsesUpper(m.mem, F[t].root, u, v, 1);
    assert NodeOk(false, m.mem, F, F[t].root);
  }

  lemma SlotMapper(s: System, F: Forest, k: Slot, f: nat) returns (p: (nat, VPage))
    requires GoodWith(s, F) && k in Leaves(s.m.mem, F) && Leaves(s.m.mem, F)[k] == f
    ensures p in Mappers(s, f) && SlotOf(s.m.mem, p) == k
  {
    var v := SlotPath(s.m, F, k.0, k.1);
    p := (F[k.0].root, v);
    UserTranslate(s.m.mem, F, p.0, v);
    InMappers(s, f, p);
  }

  /** Reference exactness: in every good state each frame's count is the number of (space, page) pairs
      mapping it, plus one for a table page (other than the static boot root), plus what callers hold;
      its bit is set exactly when it is referenced or reserved, and free_blocks counts the clear bits. */
  lemma ReferencesAreExact(s: System, f: nat)
    requires Good(s) && f < |s.m.mem|
    ensures Refcount(s.m.pool, f) ==
              |Mappers(s, f)| + (if IsTablePage(s, f) && f != s.fixed.boot then 1 else 0) + s.held[f]
    ensures f < |s.m.pool.used| && (s.m.pool.used[f] <==> Refcount(s.m.pool, f) > 0 || f in Reserved(s.m.pool))
    ensures s.m.pool.free == ClearBits(s.m.pool.used)
  {
    var F :| GoodWith(s, F);
    var w := WorldOf(s, F);
    assert Refcount(w.m.pool, f) == References(w, f);
    MappersAreLeaves(s, F, f);
    TablePagesAreForest(s, F, f);
  }

  // ---- The initial state, and nothing leaks ----

  /** After pmm_init: no references, the boot root is a reserved frame with an empty user half. */
  ghost predicate Booted(s: System)
  {
    && MemOk(s.m) && s.fixed == Fixed(s.fixed.boot, Reserved(s.m.pool)) && s.fixed.boot in s.fixed.reserved
    && (forall f :: 0 <= f < |s.m.mem| ==> s.m.pool.refs[f] == 0)
    && Cleared(s.m.mem, 4, s.fixed.boot, 0)
    && s.roots == {s.fixed.boot} && s.held == multiset{}
  }

  lemma BootedIsGood(s: System)
    requires Booted(s)
    ensures Good(s)
  {
    var b := s.fixed.boot;
    var F: Forest := map[b := Node(4, b, 0, 0)];
    var L := Leaves(s.m.mem, F);
    assert L == map[];
    var w := WorldOf(s, F);
    forall f | 0 <= f < |s.m.mem| ensures Refcount(s.m.pool, f) == References(w, f) {
      assert Count(L, f) == 0;
    }
    assert GoodWith(s, F);
  }

  lemma {:induction false} RunKeepsFixed(s: System, ops: seq<Op>)
    ensures Run(s, ops).fixed == s.fixed
    decreases |ops|
  {
    if ops != [] {
      RunKeepsFixed(Step(s, ops[0]), ops[1..]);
    }
  }

  /** A good state whose only table is the boot root, with nothing held, has no reference left. */
  lemma NothingReferenced(w: World)
    requires Exact(w) && (forall x :: x in w.F ==> x == w.fixed.boot && w.F[x].level == 4) && w.held == multiset{}
    requires |w.m.pool.refs| == |w.m.mem|
    ensures forall f :: 0 <= f < |w.m.mem| ==> w.m.pool.refs[f] == 0
  {
    var L := Leaves(w.m.mem, w.F);
    assert L == map[];
    forall f | 0 <= f < |w.m.mem| ensures w.m.pool.refs[f] == 0 {
      assert Refcount(w.m.pool, f) == References(w, f);
      assert Count(L, f) == 0;
    }
  }

  lemma OnlyBootTree(w: World, w1: World, b: nat)
    requires Inv(w) && Roots(w.F) == {b} && IsRoot(w.F, b) && w.F[b].root == b
    requires Torn(w, w1, b, 0) && forall x :: x in w1.F && w1.F[x].root == b ==> x == b
    ensures forall x :: x in w1.F ==> x == b && w1.F[x].level == 4
  {
    forall x | x in w1.F ensures x == b {
      RootOf(w.m, w.F, x);
      assert w.F[x].root in Roots(w.F);
    }
  }

  lemma EmptiedPool(s: System, w1: World)
    requires Booted(s) && Inv(w1) && w1.fixed == s.fixed && w1.held == multiset{} && |w1.m.mem| == |s.m.mem|
    requires forall x :: x in w1.F ==> x == w1.fixed.boot && w1.F[x].level == 4
    ensures w1.m.pool == s.m.pool
  {
    NothingReferenced(w1);
    assert w1.m.pool.refs == s.m.pool.refs;
    PoolDetermined(s.m.pool, w1.m.pool);
  }

  lemma ClearedBoot(s: System, w: World)
    requires Booted(s) && Inv(w) && w.fixed == s.fixed && w.held == multiset{} && |w.m.mem| == |s.m.mem|
    requires Roots(w.F) == {s.fixed.boot}
    ensures Destroy(w.m, s.fixed.boot, s.fixed.boot).pool == s.m.pool
  {
    var b := s.fixed.boot;
    assert b in Roots(w.F);
    var w1 := EmptiedInv(w, b);
    OnlyBootTree(w, w1, b);
    EmptiedPool(s, w1);
  }

  /** No run leaks a frame: whatever was done since boot, once every other space is gone and callers hold
      nothing, clearing the boot space gives back the allocator state of the boot, bit for bit. */
  lemma NoRunLeaks(s: System, ops: seq<Op>)
    requires Booted(s)
    requires var s1 := Run(s, ops); s1.roots == {s.fixed.boot} && s1.held == multiset{}
    ensures Destroy(Run(s, ops).m, s.fixed.boot, s.fixed.boot).pool == s.m.pool
  {
    BootedIsGood(s);
    RunKeepsGood(s, ops);
    RunKeepsFixed(s, ops);
    var s1 := Run(s, ops);
    var F :| GoodWith(s1, F);
    ClearedBoot(s, WorldOf(s1, F));
  }
}
