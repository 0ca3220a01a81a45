/** When vmm_copy_p4 succeeds: exactly when there is a free frame for the new root and for every table of the source,
    and no reference count would overflow. */
module CowForkRoom {
  import opened Pmm
  import opened PageTables
  import opened CowSpaces
  import opened CowFork

  /** Number of tables below slots i, i + 1, ... of table `t`. */
  function Tables(mem: Memory, level: nat, t: nat, i: nat): (r: nat)
    requires 1 <= level <= 4 && i <= ENTRIES
    decreases level, ENTRIES - i, 1
  {
    if i == ENTRIES then 0 else SlotTables(mem, level, t, i) + Tables(mem, level, t, i + 1)
  }

  function SlotTables(mem: Memory, level: nat, t: nat, i: nat): (r: nat)
    requires 1 <= level <= 4 && i < ENTRIES
    decreases level, ENTRIES - i, 0
  {
    if level == 1 || !Load(mem, t, i).flags.present || !Owned(false, level, i) then 0
    else 1 + Tables(mem, level - 1, Load(mem, t, i).frame, 0)
  }

  /** The frames mapped below slots i, i + 1, ... of table `t`, each as often as it is mapped. */
  function Pages(mem: Memory, level: nat, t: nat, i: nat): (r: multiset<nat>)
    requires 1 <= level <= 4 && i <= ENTRIES
    decreases level, ENTRIES - i, 1
  {
    if i == ENTRIES then multiset{} else SlotPages(mem, level, t, i) + Pages(mem, level, t, i + 1)
  }

  function SlotPages(mem: Memory, level: nat, t: nat, i: nat): (r: multiset<nat>)
    requires 1 <= level <= 4 && i < ENTRIES
    decreases level, ENTRIES - i, 0
  {
    var e := Load(mem, t, i);
    if !e.flags.present || !Owned(false, level, i) then multiset{}
    else if level == 1 then multiset{e.frame}
    else Pages(mem, level - 1, e.frame, 0)
  }

  /** Every frame of `pages` can take as many more references as it occurs there. */
  ghost predicate CountsFit(pool: Pool, pages: multiset<nat>)
  {
    forall f :: f in pages ==> Refcount(pool, f) + pages[f] <= REFCOUNT_MAX
  }

  /** The entries of the tree of `a` name the same frames in both memories. */
  ghost predicate SameTargets(F: Forest, mem: Memory, mem': Memory, a: nat)
  {
    forall x, k :: x in F && F[x].root == a && 0 <= k < ENTRIES ==>
      Load(mem', x, k).frame == Load(mem, x, k).frame && Load(mem', x, k).flags.present == Load(mem, x, k).flags.present
  }

  lemma LevelOf(w: World, t: nat)
    requires Inv(w) && t in w.F
    ensures 1 <= w.F[t].level <= 4
  {
    assert NodeOk(false, w.m.mem, w.F, t);
  }

  lemma {:induction false} SameBelow(w: World, mem': Memory, t: nat, i: nat)
    requires Inv(w) && t in w.F && i <= ENTRIES && SameTargets(w.F, w.m.mem, mem', w.F[t].root)
    ensures 1 <= w.F[t].level <= 4
    ensures Tables(mem', w.F[t].level, t, i) == Tables(w.m.mem, w.F[t].level, t, i)
    ensures Pages(mem', w.F[t].level, t, i) == Pages(w.m.mem, w.F[t].level, t, i)
    decreases w.F[t].level, ENTRIES - i
  {
    hide Inv;
    LevelOf(w, t);
    if i < ENTRIES {
      SameBelow(w, mem', t, i + 1);
      var e := Load(w.m.mem, t, i);
      if w.F[t].level > 1 && e.flags.present && Owned(false, w.F[t].level, i) {
        ChildIn(w, t, i);
        SameBelow(w, mem', e.frame, 0);
      }
    }
  }

  ghost predicate AllUsed(pool: Pool, pages: multiset<nat>)
  {
    forall f :: f in pages ==> f < |pool.used| && pool.used[f]
  }

  lemma {:induction false} PagesUsed(w: World, t: nat, i: nat)
    requires Inv(w) && t in w.F && i <= ENTRIES
    ensures 1 <= w.F[t].level <= 4 && AllUsed(w.m.pool, Pages(w.m.mem, w.F[t].level, t, i))
    decreases w.F[t].level, ENTRIES - i
  {
    hide Inv;
    LevelOf(w, t);
    if i < ENTRIES {
      PagesUsed(w, t, i + 1);
      SlotPagesUsed(w, t, i);
    }
  }

  lemma {:induction false} SlotPagesUsed(w: World, t: nat, i: nat)
    requires Inv(w) && t in w.F && i < ENTRIES && 1 <= w.F[t].level <= 4
    ensures AllUsed(w.m.pool, SlotPages(w.m.mem, w.F[t].level, t, i))
    decreases w.F[t].level, -1
  {
    var e := Load(w.m.mem, t, i);
    if e.flags.present && Owned(false, w.F[t].level, i) {
      if w.F[t].level == 1 {
        LeafReferenced(w, t, i);
      } else {
        ChildIn(w, t, i);
        PagesUsed(w, e.frame, 0);
      }
    }
  }

  /** `tables` frames were taken, and every frame of `pages` got a reference for each time it occurs. */
  ghost predicate Spent(p: Pool, p': Pool, tables: nat, pages: multiset<nat>)
  {
    && p'.free + tables == p.free && |p'.used| == |p.used|
    && forall f :: 0 <= f < |p.used| && p.used[f] ==> p'.used[f] && Refcount(p', f) == Refcount(p, f) + pages[f]
  }

  /** A step that needs `tables` frames and references for `pages` succeeds exactly when it can have them. */
  ghost predicate Needs(p: Pool, p': Pool, ok: bool, tables: nat, pages: multiset<nat>)
  {
    && (ok <==> tables <= p.free && CountsFit(p, pages))
    && (ok ==> Spent(p, p', tables, pages))
  }

  /** Two steps in a row need what both need. */
  lemma NeedsChain(p: Pool, p1: Pool, p2: Pool, ok: bool, t1: nat, t2: nat, P1: multiset<nat>, P2: multiset<nat>)
    requires Needs(p, p1, true, t1, P1) && Needs(p1, p2, ok, t2, P2) && AllUsed(p, P1) && AllUsed(p, P2)
    ensures Needs(p, p2, ok, t1 + t2, P1 + P2)
  {
    forall f | f in P1 + P2 ensures Refcount(p1, f) == Refcount(p, f) + P1[f] {
    }
    if CountsFit(p, P1 + P2) {
      forall f | f in P2 ensures Refcount(p1, f) + P2[f] <= REFCOUNT_MAX {
        assert f in P1 + P2;
      }
    }
    if CountsFit(p1, P2) {
      forall f | f in P1 + P2 ensures Refcount(p, f) + (P1 + P2)[f] <= REFCOUNT_MAX {
      }
    }
  }

  lemma NeedsStop(p: Pool, p1: Pool, t1: nat, t2: nat, P1: multiset<nat>, P2: multiset<nat>)
    requires Needs(p, p1, false, t1, P1)
    ensures Needs(p, p1, false, t1 + t2, P1 + P2)
  {
    if CountsFit(p, P1 + P2) {
      forall f | f in P1 ensures Refcount(p, f) + P1[f] <= REFCOUNT_MAX {
        assert f in P1 + P2;
      }
    }
  }

  /** The copy of slots i, i + 1, ... of a source table. */
  lemma {:induction false} CopySlotsNeeds(w: World, T: Twins, src: nat, dst: nat, i: nat)
    requires Inv(w) && i <= ENTRIES && CopyReady(w, T, src, dst, i)
    ensures 1 <= w.F[src].level <= 4
    ensures var (m', ok) := CopySlots(w.m, w.F[src].level, src, dst, i);
            Needs(w.m.pool, m'.pool, ok, Tables(w.m.mem, w.F[src].level, src, i),
                Pages(w.m.mem, w.F[src].level, src, i))
    decreases w.F[src].level, ENTRIES - i, 1
  {
    hide CopySlots, CopySlot, Inv, Needs, CopyReady, AllUsed, Tables, Pages, SlotTables, SlotPages;
    ReadyLevel(w, T, src, dst, i);
    var level := w.F[src].level;
    CopySlotsUnfold(w.m, level, src, dst, i);
    CountUnfold(w.m.mem, level, src, i);
    if i == ENTRIES {
      NeedsNothing(w.m.pool);
    } else {
      var (m1, ok1) := CopySlot(w.m, level, src, dst, i);
      CopySlotNeeds(w, T, src, dst, i);
      var t1, t2 := SlotTables(w.m.mem, level, src, i), Tables(w.m.mem, level, src, i + 1);
      var P1, P2 := SlotPages(w.m.mem, level, src, i), Pages(w.m.mem, level, src, i + 1);
      if ok1 {
        SlotPagesUsed(w, src, i);
        PagesUsed(w, src, i + 1);
        RestNeeds(w, T, src, dst, i);
        var (m2, ok2) := CopySlots(m1, level, src, dst, i + 1);
        NeedsChain(w.m.pool, m1.pool, m2.pool, ok2, t1, t2, P1, P2);
      } else {
        NeedsStop(w.m.pool, m1.pool, t1, t2, P1, P2);
      }
    }
  }

  lemma ReadyLevel(w: World, T: Twins, src: nat, dst: nat, i: nat)
    requires Inv(w) && CopyReady(w, T, src, dst, i)
    ensures src in w.F && 1 <= w.F[src].level <= 4
  {
    LevelOf(w, src);
  }

  /** The slots after a copied one still need what they did before. */
  lemma {:induction false} RestNeeds(w: World, T: Twins, src: nat, dst: nat, i: nat)
    requires Inv(w) && i < ENTRIES && CopyReady(w, T, src, dst, i) && 1 <= w.F[src].level <= 4
    requires CopySlot(w.m, w.F[src].level, src, dst, i).1
    ensures var m1 := CopySlot(w.m, w.F[src].level, src, dst, i).0;
            var (m2, ok) := CopySlots(m1, w.F[src].level, src, dst, i + 1);
            Needs(m1.pool, m2.pool, ok, Tables(w.m.mem, w.F[src].level, src, i + 1),
                Pages(w.m.mem, w.F[src].level, src, i + 1))
    decreases w.F[src].level, ENTRIES - i, 0
  {
    hide CopySlots, CopySlot, Inv, Needs, SlotDone, CopyReady, SameTargets, Tables, Pages;
    ReadyLevel(w, T, src, dst, i);
    var w1, T1 := CopySlotInv(w, T, src, dst, i);
    ReadyNext(w, w1, T, T1, src, dst, i);
    CopySlotsNeeds(w1, T1, src, dst, i + 1);
    SlotKeepsTargets(w, w1, T, T1, src, dst, i);
    SameBelow(w, w1.m.mem, src, i + 1);
  }

  lemma CountUnfold(mem: Memory, level: nat, t: nat, i: nat)
    requires 1 <= level <= 4 && i <= ENTRIES
    ensures Tables(mem, level, t, i) == if i == ENTRIES then 0
            else SlotTables(mem, level, t, i) + Tables(mem, level, t, i + 1)
    ensures Pages(mem, level, t, i) == if i == ENTRIES then multiset{}
            else SlotPages(mem, level, t, i) + Pages(mem, level, t, i + 1)
  {
  }

  lemma NeedsNothing(p: Pool)
    ensures Needs(p, p, true, 0, multiset{})
  {
  }

  lemma SlotKeepsTargets(w: World, w1: World, T: Twins, T1: Twins, src: nat, dst: nat, i: nat)
    requires i < ENTRIES && SlotDone(w, w1, T, T1, src, dst, i, true)
    ensures SameTargets(w.F, w.m.mem, w1.m.mem, w.F[src].root)
  {
  }

  /** The copy of one slot. */
  lemma {:induction false} CopySlotNeeds(w: World, T: Twins, src: nat, dst: nat, i: nat)
    requires Inv(w) && i < ENTRIES && CopyReady(w, T, src, dst, i)
    ensures 1 <= w.F[src].level <= 4
    ensures var (m1, ok) := CopySlot(w.m, w.F[src].level, src, dst, i);
            Needs(w.m.pool, m1.pool, ok, SlotTables(w.m.mem, w.F[src].level, src, i),
                SlotPages(w.m.mem, w.F[src].level, src, i))
    decreases w.F[src].level, ENTRIES - i, 0
  {
    hide CopySlot, SlotTables, SlotPages, Tables, Pages, Needs, ShareLeaf, CopyReady, Inv;
    ReadyLevel(w, T, src, dst, i);
    var e := Load(w.m.mem, src, i);
    var level := w.F[src].level;
    LeafFacts(w, src, i);
    SlotUnfold(w.m, level, src, dst, i);
    if !e.flags.present || !Owned(false, level, i) {
      NeedsNothing(w.m.pool);
    } else if level == 1 {
      ShareNeeds(w.m, src, dst, i);
    } else {
      GraftNeeds(w, T, src, dst, i);
    }
  }

  lemma LeafFacts(w: World, t: nat, i: nat)
    requires Inv(w) && t in w.F && i < ENTRIES
    ensures PoolOk(w.m.pool)
    ensures var e := Load(w.m.mem, t, i);
            w.F[t].level == 1 && e.flags.present ==>
                e.flags.user && e.frame < |w.m.pool.used| && Refcount(w.m.pool, e.frame) >= 1
  {
    if w.F[t].level == 1 && Load(w.m.mem, t, i).flags.present {
      LeafReferenced(w, t, i);
      LeafUser(w, t, i);
    }
  }

  lemma SlotUnfold(m: Machine, level: nat, src: nat, dst: nat, i: nat)
    requires 1 <= level <= 4 && i < ENTRIES
    ensures var e := Load(m.mem, src, i);
            var r, tables, pages := CopySlot(m, level, src, dst, i), SlotTables(m.mem, level, src, i),
                SlotPages(m.mem, level, src, i);
            if !e.flags.present || !Owned(false, level, i) then r.0.pool == m.pool && r.1 && tables == 0
                && pages == multiset{}
            else if level == 1 then (e.flags.user ==> r == ShareLeaf(m, src, dst, i)) && tables == 0
                && pages == multiset{e.frame}
            else
              && tables == 1 + Tables(m.mem, level - 1, e.frame, 0) && pages == Pages(m.mem, level - 1, e.frame, 0)
              && (!e.flags.huge ==>
                    var (m1, n) := AddTable(m, dst, i, e.flags);
                    r == if n == 0 then (m1, false) else CopySlots(m1, level - 1, e.frame, n, 0))
  {
    hide CopySlots, Tables, Pages;
  }

  /** A slot with a table: one frame for its twin, then what the table needs. */
  lemma {:induction false} GraftNeeds(w: World, T: Twins, src: nat, dst: nat, i: nat)
    requires Inv(w) && i < ENTRIES && CopyReady(w, T, src, dst, i) && 1 < w.F[src].level <= 4
    requires Load(w.m.mem, src, i).flags.present && Owned(false, w.F[src].level, i)
    ensures var (m1, ok) := CopySlot(w.m, w.F[src].level, src, dst, i);
            var e := Load(w.m.mem, src, i);
            Needs(w.m.pool, m1.pool, ok, 1 + Tables(w.m.mem, w.F[src].level - 1, e.frame, 0),
                Pages(w.m.mem, w.F[src].level - 1, e.frame, 0))
    decreases w.F[src].level, -1, 0
  {
    hide Inv, Needs, Tables, Pages, CopySlots, CopySlot, GraftOk, SameTargets, AllUsed, CopyReady, AddTable;
    var e := Load(w.m.mem, src, i);
    ReadyGraft(w, T, src, dst, i);
    var level := w.F[src].level;
    TableNeeds(w, dst, i, e.flags);
    SlotUnfold(w.m, level, src, dst, i);
    var w0 := WithTable(w, dst, i, e.flags);
    var n := AddTable(w.m, dst, i, e.flags).1;
    var t2, P2 := Tables(w.m.mem, level - 1, e.frame, 0), Pages(w.m.mem, level - 1, e.frame, 0);
    assert multiset{} + P2 == P2;
    if n != 0 {
      PagesUsed(w, e.frame, 0);
      NoneUsed(w.m.pool);
      ReadyChild(w, w0, T, src, dst, i, n);
      GraftChild(w, w0, src, dst, i, n);
      CopySlotsNeeds(w0, T[n := e.frame], e.frame, n, 0);
      GraftKeepsTargets(w, w0, src, dst, i, n);
      SameBelow(w, w0.m.mem, e.frame, 0);
      var (m2, ok2) := CopySlots(w0.m, level - 1, e.frame, n, 0);
      NeedsChain(w.m.pool, w0.m.pool, m2.pool, ok2, 1, t2, multiset{}, P2);
    } else {
      NeedsStop(w.m.pool, w0.m.pool, 1, t2, multiset{}, P2);
    }
  }

  lemma ReadyGraft(w: World, T: Twins, src: nat, dst: nat, i: nat)
    requires Inv(w) && i < ENTRIES && CopyReady(w, T, src, dst, i) && 1 < w.F[src].level <= 4
    requires Load(w.m.mem, src, i).flags.present && Owned(false, w.F[src].level, i)
    ensures src in w.F && dst in w.F && w.F[dst].level > 1 && PoolOk(w.m.pool)
    ensures var e := Load(w.m.mem, src, i);
            var n := AddTable(w.m, dst, i, e.flags).1;
            var w0 := WithTable(w, dst, i, e.flags);
            && !e.flags.huge && e.frame in w.F && w.F[e.frame].level == w.F[src].level - 1
                && w.F[e.frame].root == w.F[src].root
            && w0.m == AddTable(w.m, dst, i, e.flags).0 && Inv(w0) && (n != 0 ==> GraftOk(w, w0, src, dst, i, n))
  {
    hide Inv, AddTable, GraftOk;
    InvPool(w);
    Grafted(w, src, dst, i);
    ChildIn(w, src, i);
  }

  lemma InvPool(w: World)
    requires Inv(w)
    ensures PoolOk(w.m.pool)
  {
  }

  lemma NoneUsed(p: Pool)
    ensures AllUsed(p, multiset{})
  {
  }

  lemma GraftChild(w: World, w0: World, src: nat, dst: nat, i: nat, n: nat)
    requires GraftOk(w, w0, src, dst, i, n)
    ensures var e := Load(w.m.mem, src, i);
            e.frame in w0.F && w0.F[e.frame] == w.F[e.frame] && w.F[e.frame].level == w.F[src].level - 1
  {
  }

  lemma ShareNeeds(m: Machine, src: nat, dst: nat, i: nat)
    requires PoolOk(m.pool) && Load(m.mem, src, i).frame < |m.pool.used|
    requires Refcount(m.pool, Load(m.mem, src, i).frame) >= 1
    ensures var (m1, ok) := ShareLeaf(m, src, dst, i);
            Needs(m.pool, m1.pool, ok, 0, multiset{Load(m.mem, src, i).frame})
  {
    RetainKeeps(m.pool, Load(m.mem, src, i).frame);
  }

  lemma TableNeeds(w: World, t: nat, i: nat, flags: Flags)
    requires PoolOk(w.m.pool) && t in w.F && w.F[t].level > 1
    ensures var (m1, n) := AddTable(w.m, t, i, flags); Needs(w.m.pool, m1.pool, n != 0, 1, multiset{})
  {
    AllocFailsIff(w.m.pool);
    AllocKeeps(w.m.pool);
  }

  lemma GraftKeepsTargets(w: World, w0: World, src: nat, dst: nat, i: nat, n: nat)
    requires GraftOk(w, w0, src, dst, i, n)
    ensures SameTargets(w.F, w.m.mem, w0.m.mem, w.F[src].root)
  {
  }

  /** vmm_copy_p4 succeeds exactly when there is a free frame for the new root and each table of the source, and every
      frame the source maps can take the references of its new mappings. */
  lemma ForkSucceedsIff(w: World, a: nat)
    requires Inv(w) && IsRoot(w.F, a)
    ensures Fork(w.m, a, w.fixed.boot).1 != 0 <==>
              1 + Tables(w.m.mem, 4, a, 0) <= w.m.pool.free && CountsFit(w.m.pool, Pages(w.m.mem, 4, a, 0))
  {
    assert NodeOk(false, w.m.mem, w.F, a);
    WithRootInv(w);
    AllocFailsIff(w.m.pool);
    var w0, d := WithRoot(w), Alloc(w.m.pool).1;
    if d != 0 {
      RootReady(w, a);
      CopySlotsNeeds(w0, map[d := a], a, d, 0);
      PagesUsed(w, a, 0);
      SameBelow(w, w0.m.mem, a, 0);
      RootNeeds(w);
      var (m1, ok) := CopySlots(w0.m, 4, a, d, 0);
      NeedsChain(w.m.pool, w0.m.pool, m1.pool, ok, 1, Tables(w.m.mem, 4, a, 0), multiset{}, Pages(w.m.mem, 4, a, 0));
      assert multiset{} + Pages(w.m.mem, 4, a, 0) == Pages(w.m.mem, 4, a, 0);
    }
  }

  lemma RootNeeds(w: World)
    requires PoolOk(w.m.pool) && Alloc(w.m.pool).1 != 0
    ensures Needs(w.m.pool, WithRoot(w).m.pool, true, 1, multiset{})
  {
    AllocFailsIff(w.m.pool);
    AllocKeeps(w.m.pool);
  }

  lemma RootReady(w: World, a: nat)
    requires Inv(w) && IsRoot(w.F, a) && Alloc(w.m.pool).1 != 0
    ensures var (w0, d) := (WithRoot(w), Alloc(w.m.pool).1);
            CopyReady(w0, map[d := a], a, d, 0) && w0.F[a].level == 4
                && SameTargets(w.F, w.m.mem, w0.m.mem, w.F[a].root)
  {
    assert NodeOk(false, w.m.mem, w.F, a);
    WithRootInv(w);
    FreshFrame(w);
  }
}
