/** Tearing an address space down (vmm_free_user_space, vmm_destroy_user_space). The four nested
    loops of the source have one shape; here they are one recursion over the table level. */
module CowTeardown {
  import opened Pmm
  import opened PageTables
  import opened CowSpaces

  /** table_has_present_entries. */
  predicate HasPresent(mem: Memory, t: nat)
  {
    exists i :: 0 <= i < ENTRIES && Load(mem, t, i).flags.present
  }

  /** One slot: the body of one of the loops of vmm_free_user_space. */
  function FreeSlot(m: Machine, level: nat, t: nat, i: nat): (r: Machine)
    requires 1 <= level <= 4 && i < ENTRIES
    decreases level, ENTRIES - i, 0
  {
    var e := Load(m.mem, t, i);
    if !Owned(false, level, i) || !e.flags.present || !e.flags.user then m
    else if level == 1 then Machine(Free(m.pool, e.frame), Store(m.mem, t, i, ZERO))
    else if level == 2 && e.flags.huge then
      Machine(Free(m.pool, e.frame / ENTRIES * ENTRIES), Store(m.mem, t, i, ZERO))
    else
      var m1 := FreeSlots(m, level - 1, e.frame, 0);
      if HasPresent(m1.mem, e.frame) then m1
      else Machine(Free(m1.pool, e.frame), Store(m1.mem, t, i, ZERO))
  }

  /** The loop over slots `i`.. of one table. */
  function FreeSlots(m: Machine, level: nat, t: nat, i: nat): (r: Machine)
    requires 1 <= level <= 4 && i <= ENTRIES
    decreases level, ENTRIES - i, 1
  {
    if i == ENTRIES then m else FreeSlots(FreeSlot(m, level, t, i), level, t, i + 1)
  }

  /** vmm_destroy_user_space; the boot root is emptied but stays. */
  function Destroy(m: Machine, root: nat, boot: nat): (r: Machine)
  {
    var m1 := FreeSlots(m, 4, root, 0);
    if root != boot then m1.(pool := Free(m1.pool, root)) else m1
  }

  // ---- Dropping an empty table ----

  ghost function Dropped(w: World, c: nat): (w': World)
    requires c in w.F
  {
    var nd := w.F[c];
    w.(m := Machine(Free(w.m.pool, c), Store(w.m.mem, nd.parent, nd.slot, ZERO)), F := w.F - {c})
  }

  ghost predicate Droppable(w: World, c: nat)
  {
    c in w.F && w.F[c].level < 4 && !HasPresent(w.m.mem, c)
  }

  lemma DroppedForest(w: World, c: nat)
    requires ForestOk(false, w.m, w.F) && Droppable(w, c)
    requires var q := Free(w.m.pool, c); PoolOk(q) && q.used == w.m.pool.used[c := false]
    ensures ForestOk(false, Dropped(w, c).m, Dropped(w, c).F)
  {
    hide NodeOk, EntryOk;
    var w' := Dropped(w, c);
    forall x | x in w'.F ensures NodeOk(false, w'.m.mem, w'.F, x) {
      DroppedNode(w, c, x);
    }
    forall x, k | x in w'.F && 0 <= k < ENTRIES ensures EntryOk(false, w'.m.mem, w'.F, x, k) {
      DroppedEntry(w, c, x, k);
    }
  }

  lemma DroppedNode(w: World, c: nat, x: nat)
    requires ForestOk(false, w.m, w.F) && Droppable(w, c) && x in Dropped(w, c).F
    ensures NodeOk(false, Dropped(w, c).m.mem, Dropped(w, c).F, x)
  {
    assert NodeOk(false, w.m.mem, w.F, c) && NodeOk(false, w.m.mem, w.F, x);
  }

  lemma DroppedEntry(w: World, c: nat, x: nat, k: nat)
    requires ForestOk(false, w.m, w.F) && Droppable(w, c) && x in Dropped(w, c).F && k < ENTRIES
    ensures EntryOk(false, Dropped(w, c).m.mem, Dropped(w, c).F, x, k)
  {
    assert NodeOk(false, w.m.mem, w.F, c) && EntryOk(false, w.m.mem, w.F, x, k);
  }

  lemma DroppedLeaves(w: World, c: nat)
    requires Droppable(w, c) && w.F[c].parent in w.F && w.F[w.F[c].parent].level > 1
    ensures Leaves(Dropped(w, c).m.mem, Dropped(w, c).F) == Leaves(w.m.mem, w.F)
  {
  }

  lemma TableCount(w: World, c: nat)
    requires LeafOk(w.m, w.F) && HeldOk(w) && Exact(w) && c in w.F && c < |w.m.mem| && c != w.fixed.boot
    ensures Refcount(w.m.pool, c) == 1
  {
    var L := Leaves(w.m.mem, w.F);
    assert Refcount(w.m.pool, c) == References(w, c);
    var A := set k | k in L && L[k] == c;
    assert A == {};
  }

  lemma DroppedExact(w: World, c: nat)
    requires Exact(w) && Droppable(w, c) && c != w.fixed.boot && w.F[c].parent in w.F && w.F[w.F[c].parent].level > 1
    requires c < |w.m.mem| && |w.m.pool.refs| == |w.m.mem| && w.m.pool.refs[c] == 1
    requires Free(w.m.pool, c).refs == w.m.pool.refs[c := 0]
    ensures Exact(Dropped(w, c))
  {
    var w' := Dropped(w, c);
    DroppedLeaves(w, c);
    forall f | 0 <= f < |w'.m.mem| ensures Refcount(w'.m.pool, f) == References(w', f) {
      assert Refcount(w.m.pool, f) == References(w, f);
    }
  }

  lemma DroppedLeafOk(w: World, c: nat)
    requires LeafOk(w.m, w.F) && Droppable(w, c) && w.F[c].parent in w.F && w.F[w.F[c].parent].level > 1
    requires c < |w.m.pool.refs| && Free(w.m.pool, c).refs == w.m.pool.refs[c := 0]
    ensures LeafOk(Dropped(w, c).m, Dropped(w, c).F)
  {
    var w' := Dropped(w, c);
    LeafOkKept(w.m, w.F, w'.m, w'.F);
  }

  lemma DroppedInv(w: World, c: nat)
    requires Inv(w) && Droppable(w, c)
    ensures Inv(Dropped(w, c))
  {
    assert NodeOk(false, w.m.mem, w.F, c);
    TableCount(w, c);
    FreeKeeps(w.m.pool, c);
    DroppedForest(w, c);
    DroppedExact(w, c);
    DroppedLeafOk(w, c);
  }

  // ---- The loop ----

  /** What clearing slots `i`.. of table `t` may change: those slots, and tables below `t`'s level of
      the same root. Data frames keep their contents. */
  ghost predicate Torn(w: World, w': World, t: nat, i: nat)
    requires t in w.F
  {
    var a, level := w.F[t].root, w.F[t].level;
    && w'.held == w.held && w'.fixed == w.fixed && |w'.m.mem| == |w.m.mem|
    && Reserved(w'.m.pool) == Reserved(w.m.pool)
    && t in w'.F
    && (forall x :: x in w'.F ==> x in w.F && w'.F[x] == w.F[x])
    && (forall x :: x in w.F && (w.F[x].root != a || w.F[x].level >= level) ==> x in w'.F)
    && (forall x, k :: x in w.F && 0 <= k < ENTRIES && (w.F[x].root != a || w.F[x].level >= level)
                       && (x == t ==> k < i || !Owned(false, level, k)) ==>
          Load(w'.m.mem, x, k) == Load(w.m.mem, x, k))
    && (forall f :: 0 <= f < |w.m.mem| && f !in w.F ==> w'.m.mem[f] == w.m.mem[f])
  }

  ghost predicate Cleared(mem: Memory, level: nat, t: nat, i: nat)
  {
    forall k :: i <= k < ENTRIES && Owned(false, level, k) ==> !Load(mem, t, k).flags.present
  }

  /** One slot done, the others of `t` as before. */
  ghost predicate TornAt(w: World, w': World, t: nat, i: nat)
    requires t in w.F
  {
    && Torn(w, w', t, i)
    && (forall k :: i < k < ENTRIES ==> Load(w'.m.mem, t, k) == Load(w.m.mem, t, k))
    && (Owned(false, w.F[t].level, i) ==> !Load(w'.m.mem, t, i).flags.present)
  }

  lemma TornTrans(w: World, w1: World, w': World, t: nat, i: nat)
    requires t in w.F && i < ENTRIES && TornAt(w, w1, t, i) && t in w1.F && Torn(w1, w', t, i + 1)
    requires Cleared(w'.m.mem, w.F[t].level, t, i + 1)
    ensures Torn(w, w', t, i) && Cleared(w'.m.mem, w.F[t].level, t, i)
  {
  }

  lemma FreeLeafTorn(w: World, t: nat, i: nat, pool': Pool)
    requires t in w.F && w.F[t].level == 1 && i < ENTRIES && t < |w.m.mem| && |w.m.mem[t]| == ENTRIES
    requires Reserved(pool') == Reserved(w.m.pool)
    ensures TornAt(w, w.(m := Machine(pool', Store(w.m.mem, t, i, ZERO))), t, i)
  {
  }

  lemma FreeLeafChange(w: World, t: nat, i: nat, f: nat, pool': Pool)
    requires LeafOk(w.m, w.F) && HeldOk(w) && MemOk(w.m) && t in w.F && t < |w.m.mem| && w.F[t].level == 1
    requires i < ENTRIES
    requires Load(w.m.mem, t, i).flags.present && Load(w.m.mem, t, i).frame == f && SoleWriter(w.m.mem, w.F, t, i, f)
    requires f < |w.m.mem| && w.m.pool.refs[f] >= 1
    requires PoolOk(pool') && |pool'.used| == |w.m.mem| && Reserved(pool') == Reserved(w.m.pool)
    requires pool'.refs == w.m.pool.refs[f := w.m.pool.refs[f] - 1]
    ensures var w' := w.(m := Machine(pool', Store(w.m.mem, t, i, ZERO)));
            LeafStep(w, w', t, i, ZERO) && CountsFollow(w, w', Load(w.m.mem, t, i), ZERO) && OthersAlone(w, w', t, i)
  {
  }

  lemma FreeLeafStep(w: World, t: nat, i: nat)
    requires Inv(w) && t in w.F && w.F[t].level == 1 && i < ENTRIES && Load(w.m.mem, t, i).flags.present
    ensures var w' := w.(m := Machine(Free(w.m.pool, Load(w.m.mem, t, i).frame), Store(w.m.mem, t, i, ZERO)));
            Inv(w') && TornAt(w, w', t, i)
  {
    var f := Load(w.m.mem, t, i).frame;
    LeafReferenced(w, t, i);
    FreeKeeps(w.m.pool, f);
    FreeLeafTorn(w, t, i, Free(w.m.pool, f));
    FreeLeafChange(w, t, i, f, Free(w.m.pool, f));
    LeafStepInv(w, w.(m := Machine(Free(w.m.pool, f), Store(w.m.mem, t, i, ZERO))), t, i, ZERO);
  }

  lemma DropStep(w: World, w1: World, t: nat, i: nat, c: nat)
    requires t in w.F && w.F[t].level > 1 && i < ENTRIES && c in w.F
    requires w.F[c] == Node(w.F[t].level - 1, w.F[t].root, t, i)
    requires Owned(false, w.F[t].level, i) && t < |w1.m.mem| && |w1.m.mem[t]| == ENTRIES
    requires Torn(w, w1, c, 0) && c in w1.F && Reserved(Free(w1.m.pool, c)) == Reserved(w1.m.pool)
    ensures TornAt(w, Dropped(w1, c), t, i)
  {
  }

  lemma FreeSlotsUnfold(m: Machine, level: nat, t: nat, i: nat)
    requires 1 <= level <= 4 && i <= ENTRIES
    ensures FreeSlots(m, level, t, i) == if i == ENTRIES then m
            else FreeSlots(FreeSlot(m, level, t, i), level, t, i + 1)
  {
  }

  lemma FreeSlotChild(m: Machine, level: nat, t: nat, i: nat, m1: Machine)
    requires 2 <= level <= 4 && i < ENTRIES && Owned(false, level, i)
    requires Load(m.mem, t, i).flags.present && Load(m.mem, t, i).flags.user && !Load(m.mem, t, i).flags.huge
    requires m1 == FreeSlots(m, level - 1, Load(m.mem, t, i).frame, 0) && !HasPresent(m1.mem, Load(m.mem, t, i).frame)
    ensures FreeSlot(m, level, t, i) == Machine(Free(m1.pool, Load(m.mem, t, i).frame), Store(m1.mem, t, i, ZERO))
  {
  }

  /** Clearing a table keeps the invariant, empties the slots and frees exactly what they owned. */
  lemma {:induction false} FreeSlotsInv(w: World, t: nat, i: nat) returns (w': World)
    requires Inv(w) && t in w.F && i <= ENTRIES
    ensures 1 <= w.F[t].level <= 4
    ensures w'.m == FreeSlots(w.m, w.F[t].level, t, i)
    ensures Inv(w') && Torn(w, w', t, i) && Cleared(w'.m.mem, w.F[t].level, t, i)
    decreases w.F[t].level, ENTRIES - i, 1
  {
    LevelBound(w, t);
    hide FreeSlots, FreeSlot, Inv;
    FreeSlotsUnfold(w.m, w.F[t].level, t, i);
    w' := w;
    if i < ENTRIES {
      var w1 := SlotInv(w, t, i);
      w' := FreeSlotsInv(w1, t, i + 1);
      TornTrans(w, w1, w', t, i);
    }
  }

  lemma LevelBound(w: World, t: nat)
    requires Inv(w) && t in w.F
    ensures 1 <= w.F[t].level <= 4 && t < |w.m.mem|
  {
    assert NodeOk(false, w.m.mem, w.F, t);
  }

  /** One slot: nothing there, a leaf to release, or a subtree to empty and drop. */
  lemma {:induction false} SlotInv(w: World, t: nat, i: nat) returns (w1: World)
    requires Inv(w) && t in w.F && i < ENTRIES
    ensures 1 <= w.F[t].level <= 4
    ensures Inv(w1) && TornAt(w, w1, t, i) && t in w1.F && w1.F[t] == w.F[t]
    ensures w1.m == FreeSlot(w.m, w.F[t].level, t, i)
    decreases w.F[t].level, ENTRIES - i, 0
  {
    LevelBound(w, t);
    hide FreeSlots, FreeSlot, Inv;
    var e, level := Load(w.m.mem, t, i), w.F[t].level;
    if !Owned(false, level, i) || !e.flags.present || level == 1 {
      w1 := FlatSlot(w, t, i);
    } else {
      UserChild(w, t, i);
      var w0 := FreeSlotsInv(w, e.frame, 0);
      ChildDone(w, w0, t, i, e.frame);
      FreeSlotChild(w.m, level, t, i, w0.m);
      w1 := Dropped(w0, e.frame);
    }
  }

  lemma FlatSlot(w: World, t: nat, i: nat) returns (w1: World)
    requires Inv(w) && t in w.F && i < ENTRIES && 1 <= w.F[t].level <= 4
    requires !Owned(false, w.F[t].level, i) || !Load(w.m.mem, t, i).flags.present || w.F[t].level == 1
    ensures Inv(w1) && TornAt(w, w1, t, i) && t in w1.F && w1.F[t] == w.F[t]
    ensures w1.m == FreeSlot(w.m, w.F[t].level, t, i)
  {
    var e, level := Load(w.m.mem, t, i), w.F[t].level;
    w1 := w;
    if Owned(false, level, i) && e.flags.present {
      LeafUser(w, t, i);
      FreeLeafStep(w, t, i);
      w1 := w.(m := Machine(Free(w.m.pool, e.frame), Store(w.m.mem, t, i, ZERO)));
    }
  }

  lemma UserChild(w: World, t: nat, i: nat)
    requires Inv(w) && t in w.F && w.F[t].level > 1 && i < ENTRIES && Owned(false, w.F[t].level, i)
    requires Load(w.m.mem, t, i).flags.present
    ensures ChildAt(w, t, i) && Load(w.m.mem, t, i).flags.user && !Load(w.m.mem, t, i).flags.huge
  {
    ChildIn(w, t, i);
  }

  lemma ChildDone(w: World, w0: World, t: nat, i: nat, c: nat)
    requires Inv(w0) && t < |w0.m.mem| && i < ENTRIES && ChildAt(w, t, i) && c == Load(w.m.mem, t, i).frame
    requires Owned(false, w.F[t].level, i) && 1 < w.F[t].level <= 4
    requires Torn(w, w0, c, 0) && Cleared(w0.m.mem, w.F[c].level, c, 0)
    ensures c in w0.F && !HasPresent(w0.m.mem, c) && w0.F[c] == Node(w.F[t].level - 1, w.F[t].root, t, i)
    ensures Inv(Dropped(w0, c)) && TornAt(w, Dropped(w0, c), t, i) && t in Dropped(w0, c).F
            && Dropped(w0, c).F[t] == w.F[t]
  {
    FreeKeeps(w0.m.pool, c);
    DropStep(w, w0, t, i, c);
    DroppedInv(w0, c);
  }

  // ---- vmm_destroy_user_space ----

  /** The forest after destroying `a`: its tables are gone, except that the boot root itself stays. */
  ghost function Without(F: Forest, a: nat, boot: nat): (r: Forest)
  {
    map x | x in F && (F[x].root != a || (x == a && a == boot)) :: F[x]
  }

  /** A root whose user slots are empty has no table left below it. */
  lemma EmptyRoot(w: World, a: nat)
    requires ForestOk(false, w.m, w.F) && IsRoot(w.F, a) && Cleared(w.m.mem, 4, a, 0)
    ensures forall x :: x in w.F && w.F[x].root == a ==> x == a
  {
    forall x | x in w.F && w.F[x].root == a ensures x == a {
      NoTableBelow(w, a, x);
    }
  }

  lemma {:induction false} NoTableBelow(w: World, a: nat, x: nat)
    requires ForestOk(false, w.m, w.F) && IsRoot(w.F, a) && Cleared(w.m.mem, 4, a, 0)
    requires x in w.F && w.F[x].root == a
    ensures x == a
    decreases 4 - w.F[x].level
  {
    assert NodeOk(false, w.m.mem, w.F, x);
    if w.F[x].level < 4 {
      var p := w.F[x].parent;
      assert NodeOk(false, w.m.mem, w.F, p);
      NoTableBelow(w, a, p);
    }
  }

  lemma TornKept(w: World, w1: World, a: nat, pool': Pool)
    requires a in w.F && w.F[a].root == a && Torn(w, w1, a, 0)
    ensures OthersKept(w, w1, a)
    ensures OthersKept(w, w1.(m := w1.m.(pool := pool'), F := w1.F - {a}), a)
  {
  }

  lemma TornForest(w: World, w1: World, a: nat)
    requires a in w.F && w.F[a].root == a && Torn(w, w1, a, 0)
    requires forall x :: x in w1.F && w1.F[x].root == a ==> x == a
    ensures w1.F == Without(w.F, a, a)
    ensures forall boot :: boot != a ==> w1.F - {a} == Without(w.F, a, boot)
  {
  }

  lemma EmptiedInv(w: World, a: nat) returns (w1: World)
    requires Inv(w) && IsRoot(w.F, a)
    ensures w1.m == FreeSlots(w.m, 4, a, 0) && w1.held == w.held && w1.fixed == w.fixed
    ensures Inv(w1) && w.F[a].root == a && Torn(w, w1, a, 0) && IsRoot(w1.F, a) && w1.F[a].root == a
            && Cleared(w1.m.mem, 4, a, 0)
    ensures forall x :: x in w1.F && w1.F[x].root == a ==> x == a
  {
    assert NodeOk(false, w.m.mem, w.F, a);
    w1 := FreeSlotsInv(w, a, 0);
    EmptyRoot(w1, a);
  }

  /** Destroying address space `a` removes its tables and nothing else: every other table keeps its
      entries, every data frame its contents, and all counts stay exact. */
  lemma DestroyInv(w: World, a: nat) returns (w': World)
    requires Inv(w) && IsRoot(w.F, a)
    ensures w'.m == Destroy(w.m, a, w.fixed.boot)
    ensures Inv(w') && w'.F == Without(w.F, a, w.fixed.boot) && w'.held == w.held && OthersKept(w, w', a)
    ensures Reserved(w'.m.pool) == Reserved(w.m.pool)
  {
    var w1 := EmptiedInv(w, a);
    TornForest(w, w1, a);
    if a == w.fixed.boot {
      w' := w1;
      TornKept(w, w1, a, w1.m.pool);
    } else {
      FreeKeeps(w1.m.pool, a);
      RootDropInv(w1, a);
      w' := w1.(m := w1.m.(pool := Free(w1.m.pool, a)), F := w1.F - {a});
      TornKept(w, w1, a, Free(w1.m.pool, a));
    }
  }

  lemma RootDropExact(w: World, a: nat, pool': Pool)
    requires Exact(w) && IsRoot(w.F, a) && a != w.fixed.boot && a < |w.m.mem| && |w.m.pool.refs| == |w.m.mem|
    requires w.m.pool.refs[a] == 1
    requires pool'.refs == w.m.pool.refs[a := 0]
    ensures Exact(w.(m := w.m.(pool := pool'), F := w.F - {a}))
  {
    var w' := w.(m := w.m.(pool := pool'), F := w.F - {a});
    assert Leaves(w'.m.mem, w'.F) == Leaves(w.m.mem, w.F);
    forall f | 0 <= f < |w'.m.mem| ensures Refcount(w'.m.pool, f) == References(w', f) {
      assert Refcount(w.m.pool, f) == References(w, f);
    }
  }

  lemma RootDropForest(w: World, a: nat, pool': Pool)
    requires ForestOk(false, w.m, w.F) && IsRoot(w.F, a) && w.F[a].root == a
    requires forall x :: x in w.F && w.F[x].root == a ==> x == a
    requires PoolOk(pool') && pool'.used == w.m.pool.used[a := false]
    ensures ForestOk(false, w.m.(pool := pool'), w.F - {a})
  {
    forall x | x in w.F && x != a ensures NodeOk(false, w.m.mem, w.F - {a}, x) {
      assert NodeOk(false, w.m.mem, w.F, x);
    }
    forall x, k | x in w.F && x != a && 0 <= k < ENTRIES ensures EntryOk(false, w.m.mem, w.F - {a}, x, k) {
      assert EntryOk(false, w.m.mem, w.F, x, k);
    }
  }

  lemma RootDropInv(w: World, a: nat)
    requires Inv(w) && IsRoot(w.F, a) && w.F[a].root == a && a != w.fixed.boot
    requires forall x :: x in w.F && w.F[x].root == a ==> x == a
    ensures Inv(w.(m := w.m.(pool := Free(w.m.pool, a)), F := w.F - {a}))
  {
    var w' := w.(m := w.m.(pool := Free(w.m.pool, a)), F := w.F - {a});
    TableCount(w, a);
    FreeKeeps(w.m.pool, a);
    RootDropExact(w, a, Free(w.m.pool, a));
    RootDropForest(w, a, Free(w.m.pool, a));
    LeafOkKept(w.m, w.F, w'.m, w'.F);
  }
}
