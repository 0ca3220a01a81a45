/** Duplicating an address space by sharing (vmm_copy_p4): the copy loops, the copy-on-write marking
    and the roll-back. As in CowTeardown the nested loops are one recursion over the table level. */
module CowFork {
  import opened Pmm
  import opened PageTables
  import opened CowSpaces
  import opened CowTeardown

  /** A user entry after sharing: WRITABLE has turned into COW. */
  function Shared(e: Word): (s: Word)
  {
    if e.flags.writable || e.flags.cow then e.(flags := e.flags.(writable := false, cow := true)) else e
  }

  /** One present or absent slot of the source table: the body of one of the copy loops. */
  function CopySlot(m: Machine, level: nat, src: nat, dst: nat, i: nat): (r: (Machine, bool))
    requires 1 <= level <= 4 && i < ENTRIES
    decreases level, ENTRIES - i, 0
  {
    var e := Load(m.mem, src, i);
    if !e.flags.present then (m, true)
    else if !Owned(false, level, i) then (m.(mem := Store(m.mem, dst, i, e)), true)
    else if level == 1 then
      if !e.flags.user then (m.(mem := Store(m.mem, dst, i, e)), true)
      else ShareLeaf(m, src, dst, i)
    else if level == 2 && e.flags.huge then (m, false)
    else
      var (m1, n) := AddTable(m, dst, i, e.flags);
      if n == 0 then (m1, false) else CopySlots(m1, level - 1, e.frame, n, 0)
  }

  /** Slots `i`.. of the source table; false as soon as one fails. */
  function CopySlots(m: Machine, level: nat, src: nat, dst: nat, i: nat): (r: (Machine, bool))
    requires 1 <= level <= 4 && i <= ENTRIES
    decreases level, ENTRIES - i, 1
  {
    if i == ENTRIES then (m, true)
    else
      var (m1, ok) := CopySlot(m, level, src, dst, i);
      if !ok then (m1, false) else CopySlots(m1, level, src, dst, i + 1)
  }

  /** A mapped page gets one more reference and both entries become the shared form. */
  function ShareLeaf(m: Machine, src: nat, dst: nat, i: nat): (r: (Machine, bool))
  {
    var e := Load(m.mem, src, i);
    var (pool, ok) := Retain(m.pool, e.frame);
    if !ok then (m.(pool := pool), false)
    else (Machine(pool, Store(Store(m.mem, src, i, Shared(e)), dst, i, Shared(e))), true)
  }

  /** vmm_copy_p4: the new root, or 0 after rolling back. */
  function Fork(m: Machine, src: nat, boot: nat): (r: (Machine, nat))
  {
    var (pool, d) := Alloc(m.pool);
    if d == 0 then (m.(pool := pool), 0)
    else
      var (m1, ok) := CopySlots(Machine(pool, Zeroed(m.mem, d)), 4, src, d, 0);
      if ok then (m1, d) else (Destroy(m1, d, boot), 0)
  }

  // ---- What copying changes ----

  /** WRITABLE or COW has become COW without WRITABLE; other flags and entries are as they were. */
  ghost predicate SharedFlags(flags: Flags, flags': Flags)
  {
    if flags.writable || flags.cow then flags' == flags.(writable := false, cow := true) else flags' == flags
  }

  ghost predicate Soft(e: Word, e': Word)
  {
    e' == e || (e'.frame == e.frame && SharedFlags(e.flags, e'.flags))
  }

  /** Source and destination are tables of the same level in different trees. */
  ghost predicate Pair(F: Forest, src: nat, dst: nat)
  {
    src in F && dst in F && F[src].level == F[dst].level && F[src].root != F[dst].root
  }

  /** Copying slots `i`.. of `src` into `dst` may soften level-1 entries of the source tree, fill those
      slots of `dst`, and add tables to its tree. */
  ghost predicate Copied(w: World, w': World, src: nat, dst: nat, i: nat)
    requires Pair(w.F, src, dst)
  {
    var a, d := w.F[src].root, w.F[dst].root;
    && w'.held == w.held && w'.fixed == w.fixed && |w'.m.mem| == |w.m.mem|
    && Grown(w.F, w'.F, d)
    && (forall x, k :: x in w.F && 0 <= k < ENTRIES && (w.F[x].root != a || w.F[x].level > 1)
                       && (x == dst ==> k < i) ==>
          Load(w'.m.mem, x, k) == Load(w.m.mem, x, k))
    && (forall x, k ::
        x in w.F && 0 <= k < ENTRIES && w.F[x].root == a ==> Soft(Load(w.m.mem, x, k), Load(w'.m.mem, x, k)))
  }

  /** Data frames in use keep their contents and stay in use. */
  ghost predicate DataKept(w: World, w': World)
  {
    && |w'.m.mem| == |w.m.mem| && |w'.m.pool.used| == |w.m.pool.used|
    && (forall f :: 0 <= f < |w.m.mem| && f < |w.m.pool.used| && w.m.pool.used[f] ==>
          w'.m.pool.used[f] && (f !in w.F ==> w'.m.mem[f] == w.m.mem[f] && f !in w'.F))
    && Reserved(w'.m.pool) == Reserved(w.m.pool)
  }

  ghost predicate RestKept(mem: Memory, mem': Memory, dst: nat, i: nat)
  {
    forall k :: i < k < ENTRIES ==> Load(mem', dst, k) == Load(mem, dst, k)
  }

  lemma CopiedTrans(w: World, w1: World, w': World, src: nat, dst: nat, i: nat)
    requires Pair(w.F, src, dst) && Pair(w1.F, src, dst) && i < ENTRIES
    requires Copied(w, w1, src, dst, i) && Copied(w1, w', src, dst, i + 1)
    ensures Copied(w, w', src, dst, i)
  {
  }

  lemma DataKeptTrans(w: World, w1: World, w': World)
    requires DataKept(w, w1) && DataKept(w1, w')
    ensures DataKept(w, w')
  {
  }

  // ---- Twins: which source table a new table copies ----

  type Twins = map<nat, nat>

  /** Slot `k` of table `x` is the copy of the same slot of its twin, a table of tree `a`. */
  ghost predicate SlotTwin(w: World, T: Twins, a: nat, x: nat, k: nat)
  {
    && x in w.F && x in T && Pair(w.F, T[x], x) && w.F[T[x]].root == a
    && var s, e, level := Load(w.m.mem, T[x], k), Load(w.m.mem, x, k), w.F[x].level;
       if !s.flags.present then !e.flags.present
       else if !Owned(false, level, k) then e == s
       else if level <= 1 then e == Shared(s)
       else e.flags == s.flags && e.frame in T && T[e.frame] == s.frame
  }

  ghost predicate TableTwin(w: World, T: Twins, a: nat, x: nat)
  {
    forall k :: 0 <= k < ENTRIES ==> SlotTwin(w, T, a, x, k)
  }

  /** Every table that w' has and w has not is a complete copy. */
  ghost predicate NewTwins(w: World, w': World, T: Twins, a: nat)
  {
    forall x :: x in w'.F && x !in w.F ==> TableTwin(w', T, a, x)
  }

  ghost predicate Extends(T: Twins, T': Twins)
  {
    forall x :: x in T ==> x in T' && T'[x] == T[x]
  }

  /** Later copying does not disturb a slot already copied. */
  lemma TwinStable(w: World, w': World, T: Twins, T': Twins, src: nat, dst: nat, i: nat, x: nat, k: nat)
    requires Pair(w.F, src, dst) && Copied(w, w', src, dst, i) && Extends(T, T')
    requires SlotTwin(w, T, w.F[src].root, x, k) && 0 <= k < ENTRIES && (x == dst ==> k < i)
    requires w.F[x].root == w.F[dst].root
    ensures SlotTwin(w', T', w.F[src].root, x, k)
  {
  }

  lemma NewTwinsTrans(w: World, w1: World, w': World, T: Twins, T': Twins, src: nat, dst: nat, i: nat)
    requires Pair(w.F, src, dst) && Pair(w1.F, src, dst) && Grown(w.F, w1.F, w.F[dst].root)
    requires Copied(w1, w', src, dst, i) && Extends(T, T') && w1.F[src] == w.F[src] && w1.F[dst] == w.F[dst]
    requires NewTwins(w, w1, T, w.F[src].root) && NewTwins(w1, w', T', w.F[src].root)
    ensures NewTwins(w, w', T', w.F[src].root)
  {
    var a := w.F[src].root;
    forall x, k | x in w'.F && x !in w.F && 0 <= k < ENTRIES ensures SlotTwin(w', T', a, x, k) {
      if x in w1.F {
        assert SlotTwin(w1, T, a, x, k);
        TwinStable(w1, w', T, T', src, dst, i, x, k);
      } else {
        assert TableTwin(w', T', a, x);
      }
    }
  }

  // ---- The slots of one table ----

  /** Exactness only depends on the entries, the forest and what callers hold. */
  lemma ExactSame(w: World, w': World)
    requires Exact(w) && |w'.m.mem| == |w.m.mem| && w'.F == w.F && w'.held == w.held && w'.fixed == w.fixed
    requires w'.m.pool.refs == w.m.pool.refs && Leaves(w'.m.mem, w'.F) == Leaves(w.m.mem, w.F)
    ensures Exact(w')
  {
    forall f | 0 <= f < |w'.m.mem| ensures Refcount(w'.m.pool, f) == References(w', f) {
      assert Refcount(w.m.pool, f) == References(w, f);
    }
  }

  lemma KernelSlotRest(w: World, dst: nat, i: nat, e: Word)
    requires dst in w.F && w.F[dst].level == 4 && !UserSlot(i) && Shape(w.m.mem, w.F) && LeafOk(w.m, w.F)
    ensures var mem' := Store(w.m.mem, dst, i, e);
            Shape(mem', w.F) && LeafOk(w.m.(mem := mem'), w.F) && Leaves(mem', w.F) == Leaves(w.m.mem, w.F)
  {
  }

  /** Copying into an unowned (kernel) slot of a root touches nothing the invariant speaks of. */
  lemma KernelSlotInv(w: World, dst: nat, i: nat, e: Word)
    requires Inv(w) && dst in w.F && w.F[dst].level == 4 && i < ENTRIES && !UserSlot(i)
    ensures Inv(w.(m := w.m.(mem := Store(w.m.mem, dst, i, e))))
  {
    KernelSlotForest(w, dst, i, e);
    KernelSlotRest(w, dst, i, e);
    ExactSame(w, w.(m := w.m.(mem := Store(w.m.mem, dst, i, e))));
  }

  lemma KernelSlotForest(w: World, dst: nat, i: nat, e: Word)
    requires ForestOk(false, w.m, w.F) && dst in w.F && w.F[dst].level == 4 && i < ENTRIES && !UserSlot(i)
    ensures ForestOk(false, w.m.(mem := Store(w.m.mem, dst, i, e)), w.F)
  {
    var mem' := Store(w.m.mem, dst, i, e);
    forall x | x in w.F ensures NodeOk(false, mem', w.F, x) { assert NodeOk(false, w.m.mem, w.F, x); }
    forall x, k | x in w.F && 0 <= k < ENTRIES
        ensures EntryOk(false, mem', w.F, x, k) { assert EntryOk(false, w.m.mem, w.F, x, k); }
  }

  lemma KernelSlotCopied(w: World, src: nat, dst: nat, i: nat)
    requires Pair(w.F, src, dst) && dst < |w.m.mem| && |w.m.mem[dst]| == ENTRIES && i < ENTRIES
    requires !Owned(false, w.F[src].level, i)
    requires Load(w.m.mem, src, i).flags.present && |w.m.mem| == |w.m.pool.used|
    ensures var w1 := w.(m := w.m.(mem := Store(w.m.mem, dst, i, Load(w.m.mem, src, i))));
            && Copied(w, w1, src, dst, i) && DataKept(w, w1) && RestKept(w.m.mem, w1.m.mem, dst, i)
            && forall T: Twins :: dst in T && T[dst] == src ==> SlotTwin(w1, T, w.F[src].root, dst, i)
  {
  }

  ghost function LeafShared(w: World, src: nat, dst: nat, i: nat): (w1: World)
  {
    w.(m := ShareLeaf(w.m, src, dst, i).0)
  }

  lemma LeafSharedCopied(w: World, src: nat, dst: nat, i: nat)
    requires Pair(w.F, src, dst) && w.F[src].level == 1 && i < ENTRIES && MemOk(w.m) && src < |w.m.mem|
    requires dst < |w.m.mem|
    requires Load(w.m.mem, src, i).flags.present
    ensures var (m1, ok) := ShareLeaf(w.m, src, dst, i);
            var w1 := LeafShared(w, src, dst, i);
            && Copied(w, w1, src, dst, i) && DataKept(w, w1) && RestKept(w.m.mem, w1.m.mem, dst, i)
            && (ok ==> forall T: Twins :: dst in T && T[dst] == src ==> SlotTwin(w1, T, w.F[src].root, dst, i))
  {
    RetainKeeps(w.m.pool, Load(w.m.mem, src, i).frame);
  }

  /** The second half of sharing a page: with the source entry softened, the destination entry joins it. */
  lemma JoinStep(w: World, src: nat, dst: nat, i: nat, e: Word, pool': Pool)
    requires LeafOk(w.m, w.F) && HeldOk(w) && MemOk(w.m) && (forall x :: x in w.F ==> x < |w.m.mem|)
    requires src in w.F && w.F[src].level == 1 && dst in w.F && w.F[dst].level == 1 && i < ENTRIES
    requires e == Load(w.m.mem, src, i) && e.flags.present && e.flags.user && !e.flags.writable
    requires !Load(w.m.mem, dst, i).flags.present && e.frame < |w.m.mem| && e.frame !in w.F
    requires SoleWriter(w.m.mem, w.F, src, i, e.frame)
    requires PoolOk(pool') && |pool'.used| == |w.m.mem| && Reserved(pool') == Reserved(w.m.pool)
    requires pool'.refs == w.m.pool.refs[e.frame := w.m.pool.refs[e.frame] + 1]
    ensures var w' := w.(m := Machine(pool', Store(w.m.mem, dst, i, e)));
            LeafStep(w, w', dst, i, e) && CountsFollow(w, w', Load(w.m.mem, dst, i), e) && OthersAlone(w, w', dst, i)
  {
  }

  lemma ShareInv(w: World, src: nat, dst: nat, i: nat)
    requires Inv(w) && Pair(w.F, src, dst) && w.F[src].level == 1 && i < ENTRIES
    requires Load(w.m.mem, src, i).flags.present && Load(w.m.mem, src, i).flags.user
    requires !Load(w.m.mem, dst, i).flags.present
    ensures Inv(LeafShared(w, src, dst, i))
  {
    var e := Load(w.m.mem, src, i);
    RetainKeeps(w.m.pool, e.frame);
    var (pool, ok) := Retain(w.m.pool, e.frame);
    if ok {
      SetFlagsInv(w, src, i, Shared(e).flags);
      var w1 := w.(m := SetFlags(w.m, src, i, Shared(e).flags));
      JoinInv(w1, src, dst, i, pool);
    }
  }

  lemma JoinInv(w1: World, src: nat, dst: nat, i: nat, pool: Pool)
    requires Inv(w1) && Pair(w1.F, src, dst) && w1.F[src].level == 1 && i < ENTRIES
    requires var e := Load(w1.m.mem, src, i);
             && e.flags.present && e.flags.user && !e.flags.writable && !Load(w1.m.mem, dst, i).flags.present
             && Retain(w1.m.pool, e.frame) == (pool, true)
    ensures Inv(w1.(m := Machine(pool, Store(w1.m.mem, dst, i, Load(w1.m.mem, src, i)))))
  {
    var e := Load(w1.m.mem, src, i);
    LeafReferenced(w1, src, i);
    RetainKeeps(w1.m.pool, e.frame);
    JoinStep(w1, src, dst, i, e, pool);
    LeafStepInv(w1, w1.(m := Machine(pool, Store(w1.m.mem, dst, i, e))), dst, i, e);
  }

  /** Slot `i` has been dealt with. */
  ghost predicate SlotDone(w: World, w1: World, T: Twins, T1: Twins, src: nat, dst: nat, i: nat, ok: bool)
  {
    && Pair(w.F, src, dst) && Copied(w, w1, src, dst, i) && DataKept(w, w1) && RestKept(w.m.mem, w1.m.mem, dst, i)
    && Extends(T, T1) && T1.Keys <= w1.F.Keys
    && (ok ==> SlotTwin(w1, T1, w.F[src].root, dst, i) && NewTwins(w, w1, T1, w.F[src].root))
  }

  /** Slots `i`.. have been dealt with. */
  ghost predicate SlotsDone(w: World, w': World, T: Twins, T': Twins, src: nat, dst: nat, i: nat, ok: bool)
  {
    && Pair(w.F, src, dst) && Copied(w, w', src, dst, i) && DataKept(w, w') && Extends(T, T') && T'.Keys <= w'.F.Keys
    && (ok ==> NewTwins(w, w', T', w.F[src].root)
               && forall k :: i <= k < ENTRIES ==> SlotTwin(w', T', w.F[src].root, dst, k))
  }

  lemma SlotsCombine(w: World, w1: World, w': World, T: Twins, T1: Twins, T': Twins, src: nat, dst: nat, i: nat,
          ok: bool)
    requires i < ENTRIES && SlotDone(w, w1, T, T1, src, dst, i, true) && SlotsDone(w1, w', T1, T', src, dst, i + 1, ok)
    ensures SlotsDone(w, w', T, T', src, dst, i, ok)
  {
    CopiedTrans(w, w1, w', src, dst, i);
    DataKeptTrans(w, w1, w');
    if ok {
      NewTwinsTrans(w, w1, w', T1, T', src, dst, i + 1);
      TwinStable(w1, w', T1, T', src, dst, i + 1, dst, i);
    }
  }

  lemma SlotFailed(w: World, w1: World, T: Twins, T1: Twins, src: nat, dst: nat, i: nat)
    requires SlotDone(w, w1, T, T1, src, dst, i, false)
    ensures SlotsDone(w, w1, T, T1, src, dst, i, false)
  {
  }

  /** `n` is the new, still empty child below slot `i` of `dst`; its twin is the child of `src` there. */
  ghost predicate GraftOk(w: World, w0: World, src: nat, dst: nat, i: nat, n: nat)
  {
    var e := Load(w.m.mem, src, i);
    && Pair(w.F, src, dst) && w.F[dst].level > 1
    && n !in w.F && w0.F == w.F[n := Node(w.F[dst].level - 1, w.F[dst].root, dst, i)]
    && e.frame in w.F && w.F[e.frame] == Node(w.F[src].level - 1, w.F[src].root, src, i)
    && Load(w0.m.mem, dst, i) == Word(n, e.flags)
    && (forall k :: 0 <= k < ENTRIES ==> !Load(w0.m.mem, n, k).flags.present)
    && Deepened(w, w0, w.F[dst].root, dst, i) && DataKept(w, w0)
  }

  lemma GraftShape(w: World, src: nat, dst: nat, i: nat)
    requires MemOk(w.m) && (forall x :: x in w.F ==> x < |w.m.mem|)
    requires Pair(w.F, src, dst) && ChildAt(w, src, i) && w.F[dst].level <= 4 && i < ENTRIES
    requires var n := Alloc(w.m.pool).1; n != 0 && n !in w.F && n < |w.m.mem|
    ensures GraftOk(w, WithTable(w, dst, i, Load(w.m.mem, src, i).flags), src, dst, i, Alloc(w.m.pool).1)
  {
    AllocKeeps(w.m.pool);
    WithTableDeepened(w, dst, i, Load(w.m.mem, src, i).flags);
  }

  lemma Grafted(w: World, src: nat, dst: nat, i: nat)
    requires Inv(w) && Pair(w.F, src, dst) && w.F[src].level > 1 && i < ENTRIES && Owned(false, w.F[src].level, i)
    requires Load(w.m.mem, src, i).flags.present && !Load(w.m.mem, dst, i).flags.present
    ensures var e := Load(w.m.mem, src, i);
            var n := AddTable(w.m, dst, i, e.flags).1;
            var w0 := WithTable(w, dst, i, e.flags);
            && e.flags.user && !e.flags.huge && ChildAt(w, src, i)
            && Inv(w0) && (if n == 0 then w0 == w else GraftOk(w, w0, src, dst, i, n))
  {
    ChildIn(w, src, i);
    assert NodeOk(false, w.m.mem, w.F, dst);
    FreshFrame(w);
    WithTableInv(w, dst, i, Load(w.m.mem, src, i).flags);
    if Alloc(w.m.pool).1 != 0 {
      GraftShape(w, src, dst, i);
    } else {
      AllocKeeps(w.m.pool);
    }
  }

  /** Filling the new child completes the slot. */
  lemma GraftDone(w: World, w0: World, w1: World, T: Twins, T1: Twins, src: nat, dst: nat, i: nat, n: nat, ok: bool)
    requires GraftOk(w, w0, src, dst, i, n) && i < ENTRIES && Owned(false, w.F[src].level, i) && n !in T
    requires Load(w.m.mem, src, i).flags.present && dst in T && T[dst] == src
    requires SlotsDone(w0, w1, T[n := Load(w.m.mem, src, i).frame], T1, Load(w.m.mem, src, i).frame, n, 0, ok)
    ensures SlotDone(w, w1, T, T1, src, dst, i, ok)
  {
    DataKeptTrans(w, w0, w1);
    GraftCopied(w, w0, w1, src, dst, i, n);
    if ok {
      forall x | x in w1.F && x !in w.F ensures TableTwin(w1, T1, w.F[src].root, x) {
        if x != n { assert x !in w0.F; }
      }
    }
  }

  lemma GraftCopied(w: World, w0: World, w1: World, src: nat, dst: nat, i: nat, n: nat)
    requires GraftOk(w, w0, src, dst, i, n) && i < ENTRIES
    requires Pair(w0.F, Load(w.m.mem, src, i).frame, n) && Copied(w0, w1, Load(w.m.mem, src, i).frame, n, 0)
    ensures Copied(w, w1, src, dst, i) && RestKept(w.m.mem, w1.m.mem, dst, i)
    ensures Load(w1.m.mem, dst, i) == Load(w0.m.mem, dst, i) && Load(w1.m.mem, src, i) == Load(w.m.mem, src, i)
  {
  }

  /** The starting point of copying slot `i`: the destination slots from `i` on are still empty. */
  ghost predicate CopyReady(w: World, T: Twins, src: nat, dst: nat, i: nat)
  {
    && Pair(w.F, src, dst) && dst in T && T[dst] == src && T.Keys <= w.F.Keys
    && (forall k :: i <= k < ENTRIES ==> !Load(w.m.mem, dst, k).flags.present)
  }

  lemma ReadyNext(w: World, w1: World, T: Twins, T1: Twins, src: nat, dst: nat, i: nat)
    requires i < ENTRIES && CopyReady(w, T, src, dst, i) && SlotDone(w, w1, T, T1, src, dst, i, true)
    ensures CopyReady(w1, T1, src, dst, i + 1) && w1.F[src] == w.F[src] && w1.F[dst] == w.F[dst]
  {
  }

  lemma ReadyChild(w: World, w0: World, T: Twins, src: nat, dst: nat, i: nat, n: nat)
    requires CopyReady(w, T, src, dst, i) && GraftOk(w, w0, src, dst, i, n)
    ensures CopyReady(w0, T[n := Load(w.m.mem, src, i).frame], Load(w.m.mem, src, i).frame, n, 0) && n !in T
  {
  }

  lemma CopySlotsUnfold(m: Machine, level: nat, src: nat, dst: nat, i: nat)
    requires 1 <= level <= 4 && i <= ENTRIES
    ensures CopySlots(m, level, src, dst, i) ==
            if i == ENTRIES then (m, true)
            else
              var (m1, ok) := CopySlot(m, level, src, dst, i);
              if !ok then (m1, false) else CopySlots(m1, level, src, dst, i + 1)
  {
  }

  /** Copying keeps the invariant whatever happens, and on success every new table is a complete copy of
      its twin. */
  lemma {:induction false} CopySlotsInv(w: World, T: Twins, src: nat, dst: nat, i: nat) returns (w': World, T': Twins)
    requires Inv(w) && i <= ENTRIES && CopyReady(w, T, src, dst, i)
    ensures 1 <= w.F[src].level <= 4
    ensures var (m', ok) := CopySlots(w.m, w.F[src].level, src, dst, i);
            w'.m == m' && Inv(w') && SlotsDone(w, w', T, T', src, dst, i, ok)
    decreases w.F[src].level, ENTRIES - i, 1
  {
    assert NodeOk(false, w.m.mem, w.F, src);
    hide CopySlots, CopySlot;
    CopySlotsUnfold(w.m, w.F[src].level, src, dst, i);
    w', T' := w, T;
    if i < ENTRIES {
      var w1, T1 := CopySlotInv(w, T, src, dst, i);
      if CopySlot(w.m, w.F[src].level, src, dst, i).1 {
        ReadyNext(w, w1, T, T1, src, dst, i);
        w', T' := CopySlotsInv(w1, T1, src, dst, i + 1);
        SlotsCombine(w, w1, w', T, T1, T', src, dst, i, CopySlots(w1.m, w.F[src].level, src, dst, i + 1).1);
      } else {
        w', T' := w1, T1;
        SlotFailed(w, w1, T, T1, src, dst, i);
      }
    }
  }

  lemma {:induction false} CopySlotInv(w: World, T: Twins, src: nat, dst: nat, i: nat) returns (w1: World, T1: Twins)
    requires Inv(w) && i < ENTRIES && CopyReady(w, T, src, dst, i)
    ensures 1 <= w.F[src].level <= 4
    ensures var (m1, ok) := CopySlot(w.m, w.F[src].level, src, dst, i);
            w1.m == m1 && Inv(w1) && SlotDone(w, w1, T, T1, src, dst, i, ok)
    decreases w.F[src].level, ENTRIES - i, 0
  {
    assert NodeOk(false, w.m.mem, w.F, src);
    var e := Load(w.m.mem, src, i);
    if !e.flags.present || !Owned(false, w.F[src].level, i) || w.F[src].level == 1 {
      w1, T1 := FlatSlotInv(w, T, src, dst, i);
    } else {
      Grafted(w, src, dst, i);
      var n := AddTable(w.m, dst, i, e.flags).1;
      w1, T1 := WithTable(w, dst, i, e.flags), T;
      if n == 0 {
        NothingDone(w, T, src, dst, i);
      } else {
        var w0 := w1;
        ReadyChild(w, w0, T, src, dst, i, n);
        w1, T1 := CopySlotsInv(w0, T[n := e.frame], e.frame, n, 0);
        GraftDone(w, w0, w1, T, T1, src, dst, i, n, CopySlots(w0.m, w.F[src].level - 1, e.frame, n, 0).1);
      }
    }
  }

  lemma NothingDone(w: World, T: Twins, src: nat, dst: nat, i: nat)
    requires CopyReady(w, T, src, dst, i) && i < ENTRIES && |w.m.mem| == |w.m.pool.used|
    ensures SlotDone(w, w, T, T, src, dst, i, false)
    ensures !Load(w.m.mem, src, i).flags.present ==> SlotDone(w, w, T, T, src, dst, i, true)
  {
  }

  /** A slot without a lower table: absent, a kernel entry, or a page. */
  lemma FlatSlotInv(w: World, T: Twins, src: nat, dst: nat, i: nat) returns (w1: World, T1: Twins)
    requires Inv(w) && i < ENTRIES && CopyReady(w, T, src, dst, i) && 1 <= w.F[src].level <= 4
    requires !Load(w.m.mem, src, i).flags.present || !Owned(false, w.F[src].level, i) || w.F[src].level == 1
    ensures var (m1, ok) := CopySlot(w.m, w.F[src].level, src, dst, i);
            w1.m == m1 && Inv(w1) && SlotDone(w, w1, T, T1, src, dst, i, ok)
  {
    T1 := T;
    var e := Load(w.m.mem, src, i);
    if !e.flags.present {
      w1 := w;
      NothingDone(w, T, src, dst, i);
    } else if !Owned(false, w.F[src].level, i) {
      w1 := w.(m := w.m.(mem := Store(w.m.mem, dst, i, e)));
      KernelSlotInv(w, dst, i, e);
      KernelSlotCopied(w, src, dst, i);
    } else {
      w1 := LeafShared(w, src, dst, i);
      ShareInv(w, src, dst, i);
      LeafSharedCopied(w, src, dst, i);
    }
  }

  // ---- A new, empty root ----

  ghost function WithRoot(w: World): (w0: World)
  {
    var (pool, d) := Alloc(w.m.pool);
    if d == 0 then w else w.(m := Machine(pool, Zeroed(w.m.mem, d)), F := w.F[d := Node(4, d, 0, 0)])
  }

  lemma WithRootForest(w: World)
    requires ForestOk(false, w.m, w.F) && Alloc(w.m.pool).1 !in w.F
    ensures ForestOk(false, WithRoot(w).m, WithRoot(w).F)
  {
    AllocKeeps(w.m.pool);
    var w0 := WithRoot(w);
    var d := Alloc(w.m.pool).1;
    forall x | x in w0.F ensures NodeOk(false, w0.m.mem, w0.F, x) {
      if x in w.F { assert NodeOk(false, w.m.mem, w.F, x); }
    }
    forall x, k | x in w0.F && 0 <= k < ENTRIES ensures EntryOk(false, w0.m.mem, w0.F, x, k) {
      if x in w.F { assert EntryOk(false, w.m.mem, w.F, x, k); }
    }
  }

  lemma WithRootRest(w: World)
    requires MemOk(w.m) && Shape(w.m.mem, w.F) && LeafOk(w.m, w.F)
    requires Alloc(w.m.pool).1 != 0 && Alloc(w.m.pool).1 !in w.F
    requires forall k :: k in Leaves(w.m.mem, w.F) ==> Leaves(w.m.mem, w.F)[k] != Alloc(w.m.pool).1
    ensures var w0 := WithRoot(w);
            Shape(w0.m.mem, w0.F) && LeafOk(w0.m, w0.F) && Leaves(w0.m.mem, w0.F) == Leaves(w.m.mem, w.F)
  {
    AllocKeeps(w.m.pool);
    var w0 := WithRoot(w);
    forall t, l | t in w0.F && w0.F[t].level == 1 && 0 <= l < ENTRIES && Load(w0.m.mem, t, l).flags.present
      ensures t in w.F && Load(w.m.mem, t, l) == Load(w0.m.mem, t, l) && Load(w.m.mem, t, l).frame !in w0.F
      ensures Refcount(w0.m.pool, Load(w.m.mem, t, l).frame) == Refcount(w.m.pool, Load(w.m.mem, t, l).frame)
    {
      assert (t, l) in Leaves(w.m.mem, w.F);
    }
    LeafOkKept(w.m, w.F, w0.m, w0.F);
  }

  lemma WithRootExact(w: World)
    requires Exact(w) && Alloc(w.m.pool).1 !in w.F && Alloc(w.m.pool).1 != w.fixed.boot && PoolOk(w.m.pool)
    requires |w.m.pool.refs| == |w.m.mem|
    requires Leaves(WithRoot(w).m.mem, WithRoot(w).F) == Leaves(w.m.mem, w.F)
    ensures Exact(WithRoot(w))
  {
    AllocKeeps(w.m.pool);
    var w0 := WithRoot(w);
    forall f | 0 <= f < |w0.m.mem| ensures Refcount(w0.m.pool, f) == References(w0, f) {
      assert Refcount(w.m.pool, f) == References(w, f);
    }
  }

  lemma WithRootInv(w: World)
    requires Inv(w)
    ensures Inv(WithRoot(w)) && DataKept(w, WithRoot(w))
    ensures Alloc(w.m.pool).1 != 0 ==> Alloc(w.m.pool).1 !in w.F && Alloc(w.m.pool).1 != w.fixed.boot
  {
    AllocKeeps(w.m.pool);
    FreshFrame(w);
    if Alloc(w.m.pool).1 != 0 {
      WithRootForest(w);
      WithRootRest(w);
      WithRootExact(w);
    }
  }

  // ---- vmm_copy_p4 ----

  /** The state after the copy loops, successful or not: `d` is the new root. */
  lemma CopyLoops(w: World, a: nat) returns (w1: World, T0: Twins, T: Twins, d: nat, ok: bool)
    requires Inv(w) && IsRoot(w.F, a) && Alloc(w.m.pool).1 != 0
    ensures d == Alloc(w.m.pool).1 && T0 == map[d := a]
    ensures (w1.m, ok) == CopySlots(Machine(Alloc(w.m.pool).0, Zeroed(w.m.mem, d)), 4, a, d, 0)
    ensures Inv(w1) && d !in w.F && d != w.fixed.boot && DataKept(w, w1)
    ensures w.F[a].root == a && WithRoot(w).F[a] == w.F[a] && SlotsDone(WithRoot(w), w1, T0, T, a, d, 0, ok)
  {
    assert NodeOk(false, w.m.mem, w.F, a);
    WithRootInv(w);
    hide CopySlots, DataKept, Inv;
    d := Alloc(w.m.pool).1;
    var w0 := WithRoot(w);
    T0 := map[d := a];
    w1, T := CopySlotsInv(w0, T0, a, d, 0);
    ok := CopySlots(w0.m, 4, a, d, 0).1;
    DataKeptTrans(w, w0, w1);
  }

  /** The source tree keeps its map from address to frame; at most WRITABLE has turned into COW.
      Every other tree is untouched. */
  ghost predicate SourceKept(w: World, w': World, a: nat)
  {
    && w'.held == w.held && w'.fixed == w.fixed && |w'.m.mem| == |w.m.mem|
    && (forall x :: x in w.F ==> x in w'.F && w'.F[x] == w.F[x])
    && (forall x, k :: x in w.F && 0 <= k < ENTRIES && (w.F[x].root != a || w.F[x].level > 1) ==>
          Load(w'.m.mem, x, k) == Load(w.m.mem, x, k))
    && (forall x, k :: x in w.F && 0 <= k < ENTRIES ==> Soft(Load(w.m.mem, x, k), Load(w'.m.mem, x, k)))
  }

  lemma LoopsKeepSource(w: World, w1: World, T: Twins, T': Twins, a: nat, d: nat, ok: bool)
    requires d == Alloc(w.m.pool).1 && d != 0 && d !in w.F && a in w.F && w.F[a].root == a && Bounded(w)
    requires SlotsDone(WithRoot(w), w1, T, T', a, d, 0, ok)
    ensures SourceKept(w, w1, a) && AddedBelow(w.F, w1.F, d)
  {
  }

  ghost predicate AddedBelow(F: Forest, F1: Forest, d: nat)
  {
    forall x :: x in F1 && x !in F ==> F1[x].root == d
  }

  /** What the copy loops leave behind, successful or not: `d` is the new root. */
  ghost predicate Outcome(w: World, w1: World, T: Twins, a: nat, d: nat, ok: bool)
  {
    && DataKept(w, w1) && SourceKept(w, w1, a) && AddedBelow(w.F, w1.F, d) && NoneOf(w.F, d)
    && d !in w.F && d != w.fixed.boot && IsRoot(w1.F, d) && w1.F[d].root == d && a in w.F && w.F[a].root == a
    && (ok ==> Twinned(w1, T, a, d))
  }

  lemma OutcomeOf(w: World, w1: World, T0: Twins, T: Twins, a: nat, d: nat, ok: bool)
    requires d == Alloc(w.m.pool).1 && d != 0 && d !in w.F && d != w.fixed.boot && a in w.F && w.F[a].root == a
    requires Bounded(w)
    requires DataKept(w, w1) && NoneOf(w.F, d) && T0 == map[d := a] && SlotsDone(WithRoot(w), w1, T0, T, a, d, 0, ok)
    ensures Outcome(w, w1, T, a, d, ok)
  {
    LoopsKeepSource(w, w1, T0, T, a, d, ok);
    if ok {
      LoopsTwin(w, w1, T, a, d);
    }
  }

  lemma CopyResult(w: World, a: nat) returns (w1: World, T: Twins, ok: bool)
    requires Inv(w) && IsRoot(w.F, a) && Alloc(w.m.pool).1 != 0
    ensures (w1.m, ok) == CopySlots(Machine(Alloc(w.m.pool).0, Zeroed(w.m.mem, Alloc(w.m.pool).1)), 4, a,
            Alloc(w.m.pool).1, 0)
    ensures Inv(w1) && Outcome(w, w1, T, a, Alloc(w.m.pool).1, ok)
  {
    var T0, d;
    w1, T0, T, d, ok := CopyLoops(w, a);
    WithRootSize(w);
    NoTreeYet(w.m, w.F, d);
    OutcomeOf(w, w1, T0, T, a, d, ok);
  }

  ghost predicate NoneOf(F: Forest, d: nat)
  {
    forall x :: x in F ==> F[x].root != d
  }

  lemma NoTreeYet(m: Machine, F: Forest, d: nat)
    requires ForestOk(false, m, F) && d !in F
    ensures NoneOf(F, d)
  {
    forall x | x in F ensures F[x].root != d { RootOf(m, F, x); }
  }

  lemma LoopsTwin(w: World, w1: World, T: Twins, a: nat, d: nat)
    requires NoneOf(w.F, d) && d == Alloc(w.m.pool).1 && d != 0 && d !in w.F && a in w.F && w.F[a].root == a
    requires SlotsDone(WithRoot(w), w1, map[d := a], T, a, d, 0, true)
    ensures Twinned(w1, T, a, d)
  {
    var w0 := WithRoot(w);
    forall x | x in w1.F && w1.F[x].root == d ensures x in T && TableTwin(w1, T, a, x) {
      if x in w0.F {
        assert w1.F[x] == w0.F[x];
      }
      assert SlotTwin(w1, T, a, x, 0);
    }
  }

  /** Every table of `d` is a complete copy of its twin in tree `a`. */
  ghost predicate Twinned(w: World, T: Twins, a: nat, d: nat)
  {
    && d in T && T[d] == a
    && forall x :: x in w.F && w.F[x].root == d ==> x in T && TableTwin(w, T, a, x)
  }

  // ---- Roll-back ----

  lemma {:induction false} RootOf(m: Machine, F: Forest, x: nat)
    requires ForestOk(false, m, F) && x in F
    ensures IsRoot(F, F[x].root) && F[F[x].root].root == F[x].root
    decreases 4 - F[x].level
  {
    assert NodeOk(false, m.mem, F, x);
    if F[x].level < 4 {
      assert NodeOk(false, m.mem, F, F[x].parent);
      RootOf(m, F, F[x].parent);
    }
  }

  /** Dropping the trees that were added leaves the old forest. */
  lemma ForestRestored(m: Machine, F: Forest, F1: Forest, d: nat, boot: nat)
    requires ForestOk(false, m, F) && d !in F && d != boot
    requires forall x :: x in F ==> x in F1 && F1[x] == F[x]
    requires AddedBelow(F, F1, d)
    ensures Without(F1, d, boot) == F
  {
    NoTreeYet(m, F, d);
  }

  lemma SourceThenOthers(w: World, w1: World, w2: World, a: nat, d: nat)
    requires SourceKept(w, w1, a) && OthersKept(w1, w2, d) && w2.F == w.F && w2.held == w1.held
    requires NoneOf(w.F, d)
    ensures SourceKept(w, w2, a)
  {
  }

  /** Same entries up to softening, same forest: same counts, hence the same allocator state. */
  lemma PoolRestored(w: World, w2: World, a: nat)
    requires MemOk(w.m) && MemOk(w2.m) && Exact(w) && Exact(w2) && SourceKept(w, w2, a) && w2.F == w.F
    requires Reserved(w2.m.pool) == Reserved(w.m.pool)
    ensures w2.m.pool == w.m.pool
  {
    assert Leaves(w2.m.mem, w2.F) == Leaves(w.m.mem, w.F);
    forall f | 0 <= f < |w.m.mem| ensures w2.m.pool.refs[f] == w.m.pool.refs[f] {
      assert Refcount(w.m.pool, f) == References(w, f) == References(w2, f) == Refcount(w2.m.pool, f);
    }
    PoolDetermined(w.m.pool, w2.m.pool);
  }

  /** Destroying the copy, complete or not, gives the allocator back exactly and leaves the source with
      its map from address to frame. */
  lemma Undo(w: World, w1: World, T: Twins, a: nat, d: nat, ok: bool) returns (w2: World)
    requires Inv(w) && Inv(w1) && Outcome(w, w1, T, a, d, ok)
    ensures w2.m == Destroy(w1.m, d, w.fixed.boot)
    ensures Inv(w2) && w2.F == w.F && w2.m.pool == w.m.pool && SourceKept(w, w2, a) && DataKept(w, w2)
  {
    w2 := DestroyInv(w1, d);
    ForestRestored(w.m, w.F, w1.F, d, w.fixed.boot);
    SourceThenOthers(w, w1, w2, a, d);
    PoolRestored(w, w2, a);
    UndoData(w, w1, w2, d);
  }

  lemma UndoData(w: World, w1: World, w2: World, d: nat)
    requires DataKept(w, w1) && OthersKept(w1, w2, d) && w2.F == w.F && w2.m.pool == w.m.pool
    ensures DataKept(w, w2)
  {
  }

  /** Everything about a fork was given back. */
  ghost predicate Conserved(w: World, w': World, a: nat)
  {
    w'.F == w.F && w'.m.pool == w.m.pool && SourceKept(w, w', a) && DataKept(w, w')
  }

  lemma LoopsUndone(w: World, a: nat) returns (w': World)
    requires Inv(w) && IsRoot(w.F, a) && Alloc(w.m.pool).1 != 0
    ensures var d := Alloc(w.m.pool).1;
            var m1 := CopySlots(Machine(Alloc(w.m.pool).0, Zeroed(w.m.mem, d)), 4, a, d, 0).0;
            w'.m == Destroy(m1, d, w.fixed.boot) && Inv(w') && Conserved(w, w', a)
  {
    var w1, T, ok := CopyResult(w, a);
    w' := Undo(w, w1, T, a, Alloc(w.m.pool).1, ok);
  }

  lemma WithRootSize(w: World)
    requires ForestOk(false, w.m, w.F)
    ensures Bounded(w)
  {
  }

  ghost predicate Bounded(w: World)
  {
    |WithRoot(w).m.mem| == |w.m.mem| && forall x :: x in w.F ==> x < |w.m.mem|
  }

  /** vmm_copy_p4 that fails anywhere returns every count, the bitmap and free_blocks to their prior
      values; the source keeps its address-to-frame map and all contents. */
  lemma FailedForkRollsBack(w: World, a: nat) returns (w': World)
    requires Inv(w) && IsRoot(w.F, a) && Fork(w.m, a, w.fixed.boot).1 == 0
    ensures w'.m == Fork(w.m, a, w.fixed.boot).0 && Inv(w') && Conserved(w, w', a)
  {
    if Alloc(w.m.pool).1 == 0 {
      AllocKeeps(w.m.pool);
      w' := w;
    } else {
      w' := LoopsUndone(w, a);
    }
  }

  /** A successful copy followed by the destruction of the copy conserves likewise. */
  lemma ForkThenDestroyConserves(w: World, a: nat) returns (w': World)
    requires Inv(w) && IsRoot(w.F, a) && Fork(w.m, a, w.fixed.boot).1 != 0
    ensures w'.m == Destroy(Fork(w.m, a, w.fixed.boot).0, Fork(w.m, a, w.fixed.boot).1, w.fixed.boot)
    ensures Inv(w') && Conserved(w, w', a)
  {
    w' := LoopsUndone(w, a);
  }

  // ---- The copy sees what the source sees ----

  lemma {:induction false} TwinWalk(w: World, T: Twins, a: nat, d: nat, v: VPage, level: nat)
    requires Closed(false, w.m.mem, w.F) && Twinned(w, T, a, d) && IsRoot(w.F, d) && w.F[d].root == d
    requires v.Ok() && UserSlot(v.i4) && 1 <= level <= 4
    ensures var c, s := Walk(w.m.mem, d, v, level), Walk(w.m.mem, a, v, level);
            && (c.Reached? <==> s.Reached?)
            && (c.Reached? ==> c.table in w.F && w.F[c.table].root == d && w.F[c.table].level == level
                               && c.table in T && TableTwin(w, T, a, c.table) && T[c.table] == s.table
                               && c.writable == s.writable && c.user == s.user)
    decreases 4 - level
  {
    WalkInForest(false, w.m.mem, w.F, d, v, level);
    if level < 4 {
      TwinWalk(w, T, a, d, v, level + 1);
      var c := Walk(w.m.mem, d, v, level + 1);
      if c.Reached? {
        assert SlotTwin(w, T, a, c.table, v.At(level + 1));
      }
    } else {
      assert SlotTwin(w, T, a, d, 0);
    }
  }

  /** In the user half the tables restrict nothing. */
  lemma {:induction false} FullRights(mem: Memory, F: Forest, r: nat, v: VPage, level: nat)
    requires Closed(false, mem, F) && Shape(mem, F) && IsRoot(F, r) && v.Ok() && UserSlot(v.i4) && 1 <= level <= 4
    requires F[r].root == r
    ensures var c := Walk(mem, r, v, level); c.Reached? ==> c.writable && c.user
    decreases 4 - level
  {
    if level < 4 {
      FullRights(mem, F, r, v, level + 1);
      WalkInForest(false, mem, F, r, v, level + 1);
    }
  }

  /** In the user half a translation is its level-1 entry. */
  lemma UserTranslate(mem: Memory, F: Forest, r: nat, v: VPage)
    requires Closed(false, mem, F) && Shape(mem, F) && IsRoot(F, r) && F[r].root == r && v.Ok() && UserSlot(v.i4)
    ensures var c := Walk(mem, r, v, 1);
            Translate(mem, r, v) ==
              if c.Fault? then Unmapped
              else
                var e := Load(mem, c.table, v.i1);
                if !e.flags.present then Unmapped
                else Mapped(e.frame, e.flags, e.flags.writable, e.flags.user)
    ensures var c := Walk(mem, r, v, 1); c.Reached? ==> c.table in F && F[c.table].level == 1 && F[c.table].root == r
  {
    TranslateViaLeaf(mem, r, v);
    WalkInForest(false, mem, F, r, v, 1);
    WalkInForest(false, mem, F, r, v, 2);
    FullRights(mem, F, r, v, 1);
  }

  lemma SourceWalk(w: World, w1: World, a: nat, v: VPage)
    requires Closed(false, w.m.mem, w.F) && SourceKept(w, w1, a) && IsRoot(w.F, a) && w.F[a].root == a && v.Ok()
    requires UserSlot(v.i4)
    ensures Walk(w1.m.mem, a, v, 1) == Walk(w.m.mem, a, v, 1)
  {
    WalkAgrees(false, w.m.mem, w.F, w1.m.mem, a, v, 1);
  }

  /** A page that two entries map is writable through neither. */
  lemma TwiceMapped(w: World, t: nat, l: nat, t': nat, l': nat)
    requires LeafOk(w.m, w.F) && Exact(w) && t in w.F && w.F[t].level == 1 && t' in w.F && w.F[t'].level == 1
    requires l < ENTRIES && l' < ENTRIES && (t, l) != (t', l')
    requires Load(w.m.mem, t, l).flags.present && Load(w.m.mem, t', l').flags.present
    requires Load(w.m.mem, t, l).frame == Load(w.m.mem, t', l').frame
    ensures !Load(w.m.mem, t, l).flags.writable && Refcount(w.m.pool, Load(w.m.mem, t, l).frame) > 1
  {
    var L := Leaves(w.m.mem, w.F);
    assert (t, l) in L && (t', l') in L;
    CountTwo(L, (t, l), (t', l'));
    assert Refcount(w.m.pool, L[(t, l)]) == References(w, L[(t, l)]);
  }

  /** What vmm_copy_p4 promises about one address. */
  ghost predicate SharedAt(m: Machine, m': Machine, a: nat, d: nat, v: VPage)
  {
    var before, copy, after := Translate(m.mem, a, v), Translate(m'.mem, d, v), Translate(m'.mem, a, v);
    && copy == after
    && (before == Unmapped ==> after == Unmapped)
    && (before.Mapped? ==>
          && after.Mapped? && after.frame == before.frame
          && SharedFlags(before.flags, after.flags)
          && !after.writable
          && before.frame < |m.mem| && before.frame < |m'.mem| && m'.mem[before.frame] == m.mem[before.frame])
  }

  lemma ForkViewAt(w: World, w1: World, T: Twins, a: nat, d: nat, v: VPage)
    requires Inv(w) && Inv(w1) && Outcome(w, w1, T, a, d, true) && IsRoot(w.F, a) && v.Ok() && UserSlot(v.i4)
    ensures SharedAt(w.m, w1.m, a, d, v)
  {
    SourceWalk(w, w1, a, v);
    UserTranslate(w.m.mem, w.F, a, v);
    UserTranslate(w1.m.mem, w1.F, a, v);
    UserTranslate(w1.m.mem, w1.F, d, v);
    TwinWalk(w1, T, a, d, v, 1);
    var c, s := Walk(w1.m.mem, d, v, 1), Walk(w1.m.mem, a, v, 1);
    if c.Reached? {
      LeafViewAt(w, w1, T, a, d, c.table, s.table, v.i1);
    }
  }

  lemma UsedData(w: World, w1: World, f: nat)
    requires MemOk(w.m) && DataKept(w, w1) && f < |w.m.mem| && f !in w.F && Refcount(w.m.pool, f) >= 1
    ensures f < |w1.m.mem| && w1.m.mem[f] == w.m.mem[f]
  {
  }

  lemma LeafViewAt(w: World, w1: World, T: Twins, a: nat, d: nat, x: nat, t: nat, l: nat)
    requires Inv(w) && Inv(w1) && Outcome(w, w1, T, a, d, true) && l < ENTRIES
    requires x in w1.F && w1.F[x].root == d && w1.F[x].level == 1 && x in T && T[x] == t && TableTwin(w1, T, a, x)
    requires t in w.F && w.F[t].root == a && w.F[t].level == 1
    ensures var e0, s, e := Load(w.m.mem, t, l), Load(w1.m.mem, t, l), Load(w1.m.mem, x, l);
            if e0.flags.present
            then s == Shared(e0) && e == Shared(e0) && e0.frame < |w.m.mem| && w1.m.mem[e0.frame] == w.m.mem[e0.frame]
            else !s.flags.present && !e.flags.present
  {
    assert SlotTwin(w1, T, a, x, l);
    var e0 := Load(w.m.mem, t, l);
    if e0.flags.present {
      LeafReferenced(w, t, l);
      TwiceMapped(w1, t, l, x, l);
      UsedData(w, w1, e0.frame);
    }
  }
}
