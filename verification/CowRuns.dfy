/** Runs of the memory manager: every sequence of allocations, mappings, copy-on-write faults,
    protection changes, forks, tear-downs and user stores, and what holds after each of them. */
module CowRuns {
  import opened Pmm
  import opened PageTables
  import opened CowSpaces
  import opened CowTeardown
  import opened CowFork

  /** The machine, the roots of the live address spaces, and the references callers hold. */
  datatype System = System(m: Machine, roots: set<nat>, held: multiset<nat>, fixed: Fixed)

  ghost function Roots(F: Forest): (r: set<nat>)
  {
    set x | x in F && F[x].level == 4
  }

  ghost function WorldOf(s: System, F: Forest): (w: World)
  {
    World(s.m, F, s.held, s.fixed)
  }

  ghost predicate GoodWith(s: System, F: Forest)
  {
    Inv(WorldOf(s, F)) && Roots(F) == s.roots
  }

  ghost predicate Good(s: System)
  {
    exists F :: GoodWith(s, F)
  }

  // ---- vmm_create_user_space ----

  function CopyKernel(mem: Memory, src: nat, dst: nat, i: nat): (r: Memory)
    requires i <= ENTRIES
    decreases ENTRIES - i
  {
    if i == ENTRIES then mem
    else if UserSlot(i) then CopyKernel(mem, src, dst, i + 1)
    else CopyKernel(Store(mem, dst, i, Load(mem, src, i)), src, dst, i + 1)
  }

  /** A root with the kernel slots of `src` and an empty user half; 0 when out of memory. */
  function Create(m: Machine, src: nat): (r: (Machine, nat))
  {
    var (pool, d) := Alloc(m.pool);
    if d == 0 then (m.(pool := pool), 0)
    else (Machine(pool, CopyKernel(Zeroed(m.mem, d), src, d, 0)), d)
  }

  // ---- Operations ----

  datatype Op =
    | Take
    | GiveBack(frame: nat)
    | Map(root: nat, v: VPage, frame: nat, flags: Flags)
    | Clear(root: nat, v: VPage)
    | WriteFault(root: nat, v: VPage)
    | Reprotect(root: nat, v: VPage, flags: Flags)
    | Duplicate(root: nat)
    | Spawn(root: nat)
    | Discard(root: nat)
    | UserStore(root: nat, v: VPage, index: nat, value: Word)

  /** The address space an operation acts for; allocation and release act for none. */
  predicate ActsFor(op: Op, b: nat)
  {
    !op.Take? && !op.GiveBack? && op.root == b
  }

  predicate UserPage(v: VPage) { v.Ok() && UserSlot(v.i4) }

  /** A store instruction of a process: it goes through, faults into the COW handler and is retried,
      or has no effect (the process is killed). */
  function StoreUser(m: Machine, root: nat, v: VPage, index: nat, value: Word): (r: Machine)
  {
    match Translate(m.mem, root, v)
    case Unmapped => m
    case Mapped(frame, flags, writable, user) =>
      if !user || index >= ENTRIES then m
      else if writable then m.(mem := Store(m.mem, frame, index, value))
      else
        var (m1, ok) := CowFault(m, root, v);
        match Translate(m1.mem, root, v)
        case Unmapped => m1
        case Mapped(frame1, _, writable1, user1) =>
          if ok && user1 && writable1 then m1.(mem := Store(m1.mem, frame1, index, value)) else m1
  }

  /** One step. A request for a dead space or a foreign frame is not made; a caller maps only a frame of
      which it holds the sole reference. */
  function Step(s: System, op: Op): (s': System)
  {
    match op
    case Take =>
      var (pool, b) := Alloc(s.m.pool);
      s.(m := s.m.(pool := pool), held := if b == 0 then s.held else s.held + multiset{b})
    case GiveBack(f) =>
      if f !in s.held then s
      else s.(m := s.m.(pool := Free(s.m.pool, f)), held := s.held - multiset{f})
    case Map(root, v, f, flags) =>
      if !(root in s.roots && UserPage(v) && f in s.held && Refcount(s.m.pool, f) == 1 && flags.present && flags.user)
          then s
      else
        var (d, found) := Descend(s.m, root, v);
        s.(m := MapPage(s.m, root, v, f, flags).0,
           held := if found.OutOfMemory? then s.held else HeldAfterMap(s.held, f, Load(d.mem, found.pt, v.i1)))
    case Clear(root, v) =>
      if !(root in s.roots && UserPage(v)) then s
      else
        var (m', f) := Unmap(s.m, root, v);
        s.(m := m', held := if f == 0 then s.held else s.held + multiset{f})
    case WriteFault(root, v) =>
      if root in s.roots && UserPage(v) then s.(m := CowFault(s.m, root, v).0) else s
    case Reprotect(root, v, flags) =>
      if root in s.roots && UserPage(v) && flags.present && flags.user then s.(m := Protect(s.m, root, v, flags).0)
          else s
    case Duplicate(root) =>
      if root !in s.roots then s
      else
        var (m', d) := Fork(s.m, root, s.fixed.boot);
        s.(m := m', roots := if d == 0 then s.roots else s.roots + {d})
    case Spawn(root) =>
      if root !in s.roots then s
      else
        var (m', d) := Create(s.m, root);
        s.(m := m', roots := if d == 0 then s.roots else s.roots + {d})
    case Discard(root) =>
      if root !in s.roots then s
      else s.(m := Destroy(s.m, root, s.fixed.boot), roots := if root == s.fixed.boot then s.roots
          else s.roots - {root})
    case UserStore(root, v, index, value) =>
      if root in s.roots && UserPage(v) then s.(m := StoreUser(s.m, root, v, index, value)) else s
  }

  function Run(s: System, ops: seq<Op>): (s': System)
    decreases |ops|
  {
    if ops == [] then s else Run(Step(s, ops[0]), ops[1..])
  }

  // ---- What another space sees ----

  /** What address space `b` sees at `v` is the same in both machines: the mapping and the page. */
  ghost predicate SameView(m: Machine, m': Machine, b: nat, v: VPage)
  {
    && Translate(m'.mem, b, v) == Translate(m.mem, b, v)
    && (Translate(m.mem, b, v).Mapped? ==>
          var f := Translate(m.mem, b, v).frame;
          f < |m.mem| && f < |m'.mem| && m'.mem[f] == m.mem[f])
  }

  ghost predicate ViewKept(m: Machine, m': Machine, b: nat)
  {
    forall v: VPage :: UserPage(v) ==> SameView(m, m', b, v)
  }

  /** The tables of `b` and the frames they map are as before. */
  ghost predicate SpaceKept(w: World, w': World, b: nat)
  {
    && |w'.m.mem| == |w.m.mem|
    && (forall x :: x in w.F && w.F[x].root == b ==> x in w'.F && w'.F[x] == w.F[x])
    && (forall x, k :: x in w.F && w.F[x].root == b && 0 <= k < ENTRIES ==> Load(w'.m.mem, x, k) == Load(w.m.mem, x, k))
    && (forall x, k :: x in w.F && w.F[x].root == b && w.F[x].level == 1 && 0 <= k < ENTRIES
                       && Load(w.m.mem, x, k).flags.present && Load(w.m.mem, x, k).frame < |w.m.mem| ==>
          w'.m.mem[Load(w.m.mem, x, k).frame] == w.m.mem[Load(w.m.mem, x, k).frame])
  }

  lemma SpaceKeptView(w: World, w': World, b: nat)
    requires Inv(w) && Inv(w') && IsRoot(w.F, b) && SpaceKept(w, w', b)
    ensures ViewKept(w.m, w'.m, b) && IsRoot(w'.F, b)
  {
    assert NodeOk(false, w.m.mem, w.F, b);
    forall v: VPage | UserPage(v) ensures SameView(w.m, w'.m, b, v) {
      WalkAgrees(false, w.m.mem, w.F, w'.m.mem, b, v, 1);
      UserTranslate(w.m.mem, w.F, b, v);
      UserTranslate(w'.m.mem, w'.F, b, v);
    }
  }

  /** Frames mapped by live entries are in use and hold no tables. */
  lemma LeafInUse(w: World)
    requires Inv(w)
    ensures forall x, k :: x in w.F && w.F[x].level == 1 && 0 <= k < ENTRIES && Load(w.m.mem, x, k).flags.present ==>
              var f := Load(w.m.mem, x, k).frame; f < |w.m.mem| && f !in w.F && w.m.pool.used[f]
  {
    forall x, k | x in w.F && w.F[x].level == 1 && 0 <= k < ENTRIES && Load(w.m.mem, x, k).flags.present
      ensures var f := Load(w.m.mem, x, k).frame; f < |w.m.mem| && f !in w.F && w.m.pool.used[f]
    {
      LeafReferenced(w, x, k);
    }
  }

  lemma OthersKeptSpace(w: World, w': World, a: nat, b: nat)
    requires Inv(w) && OthersKept(w, w', a) && a != b
    ensures SpaceKept(w, w', b)
  {
    LeafInUse(w);
  }

  // ---- Each operation ----

  lemma TakeExact(w: World, b: nat, pool': Pool)
    requires Exact(w) && b < |w.m.mem| && |w.m.pool.refs| == |w.m.mem| && w.m.pool.refs[b] == 0
    requires pool'.refs == w.m.pool.refs[b := 1]
    ensures Exact(w.(m := w.m.(pool := pool'), held := w.held + multiset{b}))
  {
    var w' := w.(m := w.m.(pool := pool'), held := w.held + multiset{b});
    forall f | 0 <= f < |w'.m.mem| ensures Refcount(w'.m.pool, f) == References(w', f) {
      assert Refcount(w.m.pool, f) == References(w, f);
    }
  }

  lemma TakeLeafOk(w: World, b: nat, pool': Pool)
    requires LeafOk(w.m, w.F) && b < |w.m.mem| && |w.m.pool.refs| == |w.m.mem| && pool'.refs == w.m.pool.refs[b := 1]
    requires forall k :: k in Leaves(w.m.mem, w.F) ==> Leaves(w.m.mem, w.F)[k] != b
    ensures LeafOk(w.m.(pool := pool'), w.F)
  {
    forall t, l | t in w.F && w.F[t].level == 1 && 0 <= l < ENTRIES && Load(w.m.mem, t, l).flags.present
      ensures Load(w.m.mem, t, l).frame != b
    {
      assert (t, l) in Leaves(w.m.mem, w.F);
    }
  }

  lemma TakeInv(w: World)
    requires Inv(w) && Alloc(w.m.pool).1 != 0
    ensures var (pool, b) := Alloc(w.m.pool);
            Inv(w.(m := w.m.(pool := pool), held := w.held + multiset{b}))
  {
    FreshFrame(w);
    AllocKeeps(w.m.pool);
    var (pool, b) := Alloc(w.m.pool);
    TakeExact(w, b, pool);
    TakeLeafOk(w, b, pool);
  }

  /** The level-1 table of `v` in space `a`. */
  lemma LeafTableIn(w: World, a: nat, v: VPage)
    requires Inv(w) && IsRoot(w.F, a) && UserPage(v)
    ensures w.F[a].root == a
    ensures var c := Walk(w.m.mem, a, v, 1); c.Reached? ==>
            c.table in w.F && w.F[c.table].level == 1 && w.F[c.table].root == a
  {
    assert NodeOk(false, w.m.mem, w.F, a);
    WalkInForest(false, w.m.mem, w.F, a, v, 1);
  }

  lemma CowFaultInv(w: World, a: nat, v: VPage)
    requires Inv(w) && IsRoot(w.F, a) && UserPage(v)
    ensures var w' := w.(m := CowFault(w.m, a, v).0);
            Inv(w') && OthersKept(w, w', a)
  {
    LeafTableIn(w, a, v);
    var c := Walk(w.m.mem, a, v, 1);
    if c.Reached? {
      CowEntryInv(w, c.table, v.i1);
    }
  }

  lemma ProtectInv(w: World, a: nat, v: VPage, flags: Flags)
    requires Inv(w) && IsRoot(w.F, a) && UserPage(v) && flags.present && flags.user
    ensures var w' := w.(m := Protect(w.m, a, v, flags).0);
            Inv(w') && OthersKept(w, w', a)
  {
    LeafTableIn(w, a, v);
    var c := Walk(w.m.mem, a, v, 1);
    if c.Reached? {
      ProtectEntryInv(w, c.table, v.i1, flags);
    }
  }

  lemma UnmapInv(w: World, a: nat, v: VPage)
    requires Inv(w) && IsRoot(w.F, a) && UserPage(v)
    ensures var (m', f) := Unmap(w.m, a, v);
            var w' := w.(m := m', held := if f == 0 then w.held else w.held + multiset{f});
            Inv(w') && OthersKept(w, w', a)
  {
    LeafTableIn(w, a, v);
    var c := Walk(w.m.mem, a, v, 1);
    if c.Reached? && Load(w.m.mem, c.table, v.i1).flags.present {
      ClearInv(w, c.table, v.i1);
      NullUnmapped(w, c.table, v.i1);
    }
  }

  /** Frame 0 is reserved, so no entry maps it and a returned 0 means "nothing". */
  lemma NullUnmapped(w: World, t: nat, l: nat)
    requires LeafOk(w.m, w.F) && Exact(w) && PoolOk(w.m.pool) && t in w.F && w.F[t].level == 1 && l < ENTRIES
    requires Load(w.m.mem, t, l).flags.present
    ensures Load(w.m.mem, t, l).frame != 0
  {
    LeafReferenced(w, t, l);
    assert 0 in Reserved(w.m.pool);
  }

  lemma MapInv(w: World, a: nat, v: VPage, f: nat, flags: Flags) returns (w': World)
    requires Inv(w) && IsRoot(w.F, a) && UserPage(v) && f in w.held && Refcount(w.m.pool, f) == 1 && flags.present
    requires flags.user
    ensures var (d, found) := Descend(w.m, a, v);
            && w'.m == MapPage(w.m, a, v, f, flags).0
            && w'.held == (if found.OutOfMemory? then w.held else HeldAfterMap(w.held, f, Load(d.mem, found.pt, v.i1)))
            && w'.fixed == w.fixed && Roots(w'.F) == Roots(w.F)
            && Inv(w') && OthersKept(w, w', a)
  {
    LeafTableIn(w, a, v);
    var wd := DescendInv(w, a, v);
    var (d, found) := Descend(w.m, a, v);
    w' := wd;
    GrownRoots(w.F, wd.F, a);
    if found.OutOfMemory? {
      DeeperKept(w, wd, a);
    } else {
      var pt := found.pt;
      HeldUsed(w, f);
      PlaceInv(wd, pt, v.i1, f, flags);
      w' := wd.(m := wd.m.(mem := Store(wd.m.mem, pt, v.i1, Word(f, flags))),
          held := HeldAfterMap(wd.held, f, Load(wd.m.mem, pt, v.i1)));
      DeeperThenKept(w, wd, w', a);
    }
  }

  lemma GrownRoots(F: Forest, F': Forest, root: nat)
    requires Grown(F, F', root)
    ensures Roots(F') == Roots(F)
  {
  }

  lemma HeldUsed(w: World, f: nat)
    requires HeldOk(w) && PoolOk(w.m.pool) && |w.m.pool.used| == |w.m.mem| && f in w.held && Refcount(w.m.pool, f) > 0
    ensures f < |w.m.mem| && f !in w.F && w.m.pool.used[f]
  {
  }

  lemma DeeperKept(w: World, wd: World, a: nat)
    requires Deeper(w, wd, a)
    ensures OthersKept(w, wd, a)
  {
  }

  lemma DeeperThenKept(w: World, wd: World, w': World, a: nat)
    requires Deeper(w, wd, a) && OthersKept(wd, w', a) && |w.m.pool.used| == |w.m.mem|
    ensures OthersKept(w, w', a)
  {
  }

  // ---- User stores ----

  /** Writing a data frame keeps the invariant. */
  lemma DataStoreInv(w: World, f: nat, index: nat, value: Word)
    requires Inv(w) && f !in w.F
    ensures Inv(w.(m := w.m.(mem := Store(w.m.mem, f, index, value))))
  {
    var w' := w.(m := w.m.(mem := Store(w.m.mem, f, index, value)));
    DataStoreForest(w, f, index, value);
    DataStoreLeaves(w, f, index, value);
    ExactSame(w, w');
  }

  lemma DataStoreForest(w: World, f: nat, index: nat, value: Word)
    requires ForestOk(false, w.m, w.F) && f !in w.F
    ensures ForestOk(false, w.m.(mem := Store(w.m.mem, f, index, value)), w.F)
  {
    var mem' := Store(w.m.mem, f, index, value);
    forall x | x in w.F ensures NodeOk(false, mem', w.F, x) { assert NodeOk(false, w.m.mem, w.F, x); }
    forall x, k | x in w.F && 0 <= k < ENTRIES
        ensures EntryOk(false, mem', w.F, x, k) { assert EntryOk(false, w.m.mem, w.F, x, k); }
  }

  lemma DataStoreLeaves(w: World, f: nat, index: nat, value: Word)
    requires Shape(w.m.mem, w.F) && LeafOk(w.m, w.F) && f !in w.F
    ensures var mem' := Store(w.m.mem, f, index, value);
            Shape(mem', w.F) && LeafOk(w.m.(mem := mem'), w.F) && Leaves(mem', w.F) == Leaves(w.m.mem, w.F)
  {
  }

  /** No entry of a space other than `a` maps `f`. */
  ghost predicate AloneOn(mem: Memory, F: Forest, a: nat, f: nat)
  {
    forall x, k :: x in F && F[x].root != a && F[x].level == 1 && 0 <= k < ENTRIES && Load(mem, x, k).flags.present ==>
      Load(mem, x, k).frame != f
  }

  /** The frame behind a writable mapping of `a` is mapped by no other space. */
  lemma WritableAlone(w: World, a: nat, v: VPage)
    requires Inv(w) && IsRoot(w.F, a) && UserPage(v) && Translate(w.m.mem, a, v).Mapped?
    requires Translate(w.m.mem, a, v).writable
    ensures var f := Translate(w.m.mem, a, v).frame;
            f < |w.m.mem| && f !in w.F && AloneOn(w.m.mem, w.F, a, f)
  {
    LeafTableIn(w, a, v);
    UserTranslate(w.m.mem, w.F, a, v);
    var t := Walk(w.m.mem, a, v, 1).table;
    LeafReferenced(w, t, v.i1);
    forall x, k | x in w.F && w.F[x].root != a && w.F[x].level == 1 && 0 <= k < ENTRIES
        && Load(w.m.mem, x, k).flags.present
      ensures Load(w.m.mem, x, k).frame != Load(w.m.mem, t, v.i1).frame
    {
      if Load(w.m.mem, x, k).frame == Load(w.m.mem, t, v.i1).frame {
        TwiceMapped(w, t, v.i1, x, k);
      }
    }
  }

  lemma StoreThrough(w: World, a: nat, v: VPage, index: nat, value: Word)
    requires Inv(w) && IsRoot(w.F, a) && UserPage(v) && Translate(w.m.mem, a, v).Mapped?
    requires Translate(w.m.mem, a, v).writable
    ensures var w' := w.(m := w.m.(mem := Store(w.m.mem, Translate(w.m.mem, a, v).frame, index, value)));
            Inv(w') && forall b :: b != a ==> SpaceKept(w, w', b)
  {
    WritableAlone(w, a, v);
    DataStoreInv(w, Translate(w.m.mem, a, v).frame, index, value);
    StoreSpace(w, a, Translate(w.m.mem, a, v).frame, index, value);
  }

  lemma StoreSpace(w: World, a: nat, f: nat, index: nat, value: Word)
    requires f !in w.F && AloneOn(w.m.mem, w.F, a, f)
    ensures forall b :: b != a ==> SpaceKept(w, w.(m := w.m.(mem := Store(w.m.mem, f, index, value))), b)
  {
  }

  // ---- One step, for all spaces at once ----

  /** The invariant again, and no space but `a` sees a difference (-1: no space at all). */
  ghost predicate StepOk(w: World, w': World, a: int)
  {
    && Inv(w') && |w'.m.mem| == |w.m.mem|
    && forall b :: IsRoot(w.F, b) && b != a ==> ViewKept(w.m, w'.m, b) && IsRoot(w'.F, b)
  }

  lemma OthersStepOk(w: World, w': World, a: nat)
    requires Inv(w) && Inv(w') && OthersKept(w, w', a)
    ensures StepOk(w, w', a)
  {
    forall b | IsRoot(w.F, b) && b != a ensures ViewKept(w.m, w'.m, b) && IsRoot(w'.F, b) {
      OthersKeptSpace(w, w', a, b);
      SpaceKeptView(w, w', b);
    }
  }

  lemma StepOkTrans(w: World, w1: World, w': World, a: int)
    requires StepOk(w, w1, a) && StepOk(w1, w', a)
    ensures StepOk(w, w', a)
  {
    forall b | IsRoot(w.F, b) && b != a ensures ViewKept(w.m, w'.m, b) && IsRoot(w'.F, b) {
      assert ViewKept(w.m, w1.m, b);
      assert ViewKept(w1.m, w'.m, b);
      forall v: VPage | UserPage(v) ensures SameView(w.m, w'.m, b, v) {
        assert SameView(w.m, w1.m, b, v) && SameView(w1.m, w'.m, b, v);
      }
    }
  }

  lemma PoolStepOk(w: World, w': World)
    requires Inv(w) && Inv(w') && w'.F == w.F && w'.m.mem == w.m.mem
    ensures StepOk(w, w', -1)
  {
    forall b | IsRoot(w.F, b) ensures ViewKept(w.m, w'.m, b) {
      SpaceKeptView(w, w', b);
    }
  }

  lemma StoreStepOk(w: World, a: nat, v: VPage, index: nat, value: Word)
    requires Inv(w) && IsRoot(w.F, a) && UserPage(v) && Translate(w.m.mem, a, v).Mapped?
    requires Translate(w.m.mem, a, v).writable
    ensures StepOk(w, w.(m := w.m.(mem := Store(w.m.mem, Translate(w.m.mem, a, v).frame, index, value))), a)
  {
    StoreThrough(w, a, v, index, value);
    var w' := w.(m := w.m.(mem := Store(w.m.mem, Translate(w.m.mem, a, v).frame, index, value)));
    forall b | IsRoot(w.F, b) && b != a ensures ViewKept(w.m, w'.m, b) && IsRoot(w'.F, b) {
      SpaceKeptView(w, w', b);
    }
  }

  /** The store faults, the handler runs, and the instruction is retried. */
  lemma FaultThenStore(w: World, a: nat, v: VPage, index: nat, value: Word)
    requires Inv(w) && IsRoot(w.F, a) && UserPage(v)
    ensures var (m1, ok) := CowFault(w.m, a, v);
            && StepOk(w, w.(m := m1), a)
            && (Translate(m1.mem, a, v).Mapped? && Translate(m1.mem, a, v).writable ==>
                  StepOk(w, w.(m := m1.(mem := Store(m1.mem, Translate(m1.mem, a, v).frame, index, value))), a))
  {
    CowFaultInv(w, a, v);
    var w1 := w.(m := CowFault(w.m, a, v).0);
    OthersStepOk(w, w1, a);
    if Translate(w1.m.mem, a, v).Mapped? && Translate(w1.m.mem, a, v).writable {
      StoreStepOk(w1, a, v, index, value);
      StepOkTrans(w, w1, w1.(m := w1.m.(mem := Store(w1.m.mem, Translate(w1.m.mem, a, v).frame, index, value))), a);
    }
  }

  lemma StoreUserOk(w: World, a: nat, v: VPage, index: nat, value: Word)
    requires Inv(w) && IsRoot(w.F, a) && UserPage(v)
    ensures StepOk(w, w.(m := StoreUser(w.m, a, v, index, value)), a)
  {
    var before := Translate(w.m.mem, a, v);
    if before.Unmapped? || !before.user || index >= ENTRIES {
      PoolStepOk(w, w);
    } else if before.writable {
      StoreStepOk(w, a, v, index, value);
    } else {
      FaultThenStore(w, a, v, index, value);
    }
  }

  // ---- Fork and creation ----

  lemma SourceStepOk(w: World, w': World, a: nat)
    requires Inv(w) && Inv(w') && SourceKept(w, w', a) && DataKept(w, w')
    ensures StepOk(w, w', a)
  {
    LeafInUse(w);
    forall b | IsRoot(w.F, b) && b != a ensures ViewKept(w.m, w'.m, b) && IsRoot(w'.F, b) {
      SourceSpace(w, w', a, b);
      SpaceKeptView(w, w', b);
    }
  }

  lemma SourceSpace(w: World, w': World, a: nat, b: nat)
    requires Inv(w) && SourceKept(w, w', a) && DataKept(w, w') && a != b
    ensures SpaceKept(w, w', b)
  {
    LeafInUse(w);
  }

  lemma ForkStep(w: World, a: nat) returns (w': World)
    requires Inv(w) && IsRoot(w.F, a)
    ensures var (m', d) := Fork(w.m, a, w.fixed.boot);
            && w'.m == m' && w'.held == w.held && w'.fixed == w.fixed && StepOk(w, w', a)
            && Roots(w'.F) == (if d == 0 then Roots(w.F) else Roots(w.F) + {d})
  {
    if Fork(w.m, a, w.fixed.boot).1 == 0 {
      w' := FailedForkRollsBack(w, a);
      SourceStepOk(w, w', a);
    } else {
      var T, ok;
      w', T, ok := CopyResult(w, a);
      SourceStepOk(w, w', a);
      AddedRoots(w, w', T, a, Alloc(w.m.pool).1, ok);
    }
  }

  lemma AddedRoots(w: World, w': World, T: Twins, a: nat, d: nat, ok: bool)
    requires Outcome(w, w', T, a, d, ok) && ForestOk(false, w'.m, w'.F)
    ensures Roots(w'.F) == Roots(w.F) + {d}
  {
    forall x | x in w'.F && w'.F[x].level == 4 && x !in w.F ensures x == d {
      assert NodeOk(false, w'.m.mem, w'.F, x);
    }
  }

  lemma {:induction false} CopyKernelInv(w: World, src: nat, d: nat, i: nat)
    requires Inv(w) && IsRoot(w.F, d) && i <= ENTRIES
    ensures var w' := w.(m := w.m.(mem := CopyKernel(w.m.mem, src, d, i)));
            Inv(w') && (forall x, k :: x in w.F && x != d ==> Load(w'.m.mem, x, k) == Load(w.m.mem, x, k))
            && (forall f :: 0 <= f < |w.m.mem| && f != d ==> f < |w'.m.mem| && w'.m.mem[f] == w.m.mem[f])
    decreases ENTRIES - i
  {
    if i < ENTRIES {
      if UserSlot(i) {
        CopyKernelInv(w, src, d, i + 1);
      } else {
        KernelSlotInv(w, d, i, Load(w.m.mem, src, i));
        CopyKernelInv(w.(m := w.m.(mem := Store(w.m.mem, d, i, Load(w.m.mem, src, i)))), src, d, i + 1);
      }
    }
  }

  lemma CreateStep(w: World, src: nat) returns (w': World)
    requires Inv(w)
    ensures var (m', d) := Create(w.m, src);
            && w'.m == m' && w'.held == w.held && w'.fixed == w.fixed && StepOk(w, w', -1)
            && Roots(w'.F) == (if d == 0 then Roots(w.F) else Roots(w.F) + {d})
  {
    WithRootInv(w);
    AllocKeeps(w.m.pool);
    var d := Alloc(w.m.pool).1;
    w' := w;
    if d == 0 {
      PoolStepOk(w, w);
    } else {
      var w0 := WithRoot(w);
      CopyKernelInv(w0, src, d, 0);
      w' := w0.(m := w0.m.(mem := CopyKernel(w0.m.mem, src, d, 0)));
      forall b | IsRoot(w.F, b) ensures ViewKept(w.m, w'.m, b) && IsRoot(w'.F, b) {
        CreateSpace(w, w', d, b);
        SpaceKeptView(w, w', b);
      }
    }
  }

  lemma CreateSpace(w: World, w': World, d: nat, b: nat)
    requires Inv(w) && d !in w.F && d < |w.m.mem| && !w.m.pool.used[d] && |w'.m.mem| == |w.m.mem|
    requires w'.F == w.F[d := Node(4, d, 0, 0)]
    requires forall f :: 0 <= f < |w.m.mem| && f != d ==> w'.m.mem[f] == w.m.mem[f]
    ensures SpaceKept(w, w', b)
  {
    LeafInUse(w);
  }

  // ---- Runs ----

  /** One step from a good state is good, and shows no space it does not act for. */
  lemma StepGood(s: System, F: Forest, op: Op) returns (F': Forest)
    requires GoodWith(s, F)
    ensures GoodWith(Step(s, op), F') && |Step(s, op).m.mem| == |s.m.mem|
    ensures forall b :: b in s.roots && !ActsFor(op, b) ==> ViewKept(s.m, Step(s, op).m, b)
    ensures forall b :: b in s.roots && !(op.Discard? && op.root == b) ==> b in Step(s, op).roots
  {
    var w := WorldOf(s, F);
    if op.Take? || op.GiveBack? || !(op.root in s.roots) {
      F' := PoolOpGood(s, F, op);
    } else if op.Duplicate? || op.Spawn? || op.Discard? {
      F' := TreeOpGood(s, F, op);
    } else {
      F' := PageOpGood(s, F, op);
    }
  }

  lemma PoolOpGood(s: System, F: Forest, op: Op) returns (F': Forest)
    requires GoodWith(s, F) && (op.Take? || op.GiveBack? || op.root !in s.roots)
    ensures GoodWith(Step(s, op), F') && Step(s, op).roots == s.roots && |Step(s, op).m.mem| == |s.m.mem|
    ensures forall b :: b in s.roots ==> ViewKept(s.m, Step(s, op).m, b)
  {
    var w := WorldOf(s, F);
    F' := F;
    if op.Take? && Alloc(s.m.pool).1 != 0 {
      TakeInv(w);
    } else if op.Take? {
      AllocKeeps(s.m.pool);
    } else if op.GiveBack? && op.frame in s.held {
      FreeHeldInv(w, op.frame);
    }
    PoolStepOk(w, WorldOf(Step(s, op), F));
  }

  lemma TreeOpGood(s: System, F: Forest, op: Op) returns (F': Forest)
    requires GoodWith(s, F) && (op.Duplicate? || op.Spawn? || op.Discard?) && op.root in s.roots
    ensures GoodWith(Step(s, op), F') && |Step(s, op).m.mem| == |s.m.mem|
    ensures forall b :: b in s.roots && b != op.root ==> ViewKept(s.m, Step(s, op).m, b)
    ensures forall b :: b in s.roots && !(op.Discard? && op.root == b) ==> b in Step(s, op).roots
  {
    var w := WorldOf(s, F);
    var w';
    match op {
      case Duplicate(root) => w' := ForkStep(w, root);
      case Spawn(root) => w' := CreateStep(w, root);
      case Discard(root) =>
        w' := DestroyInv(w, root);
        OthersStepOk(w, w', root);
        DiscardRoots(w, root);
    }
    F' := w'.F;
    assert WorldOf(Step(s, op), F') == w';
  }

  lemma DiscardRoots(w: World, a: nat)
    requires ForestOk(false, w.m, w.F) && IsRoot(w.F, a)
    ensures Roots(Without(w.F, a, w.fixed.boot)) == if a == w.fixed.boot then Roots(w.F) else Roots(w.F) - {a}
  {
    forall x | x in w.F && w.F[x].level == 4 ensures w.F[x].root == x {
      assert NodeOk(false, w.m.mem, w.F, x);
    }
  }

  lemma PageOpGood(s: System, F: Forest, op: Op) returns (F': Forest)
    requires GoodWith(s, F) && (op.Map? || op.Clear? || op.WriteFault? || op.Reprotect? || op.UserStore?)
    requires op.root in s.roots
    ensures GoodWith(Step(s, op), F') && Step(s, op).roots == s.roots && |Step(s, op).m.mem| == |s.m.mem|
    ensures forall b :: b in s.roots && b != op.root ==> ViewKept(s.m, Step(s, op).m, b)
  {
    var w := WorldOf(s, F);
    var a := op.root;
    var w' := w;
    if Step(s, op) == s {
      PoolStepOk(w, w);
    } else {
      match op {
        case Map(_, v, f, flags) => w' := MapInv(w, a, v, f, flags); OthersStepOk(w, w', a);
        case Clear(_, v) =>
          UnmapInv(w, a, v);
          w' := WorldOf(Step(s, op), F);
          OthersStepOk(w, w', a);
        case WriteFault(_, v) =>
          CowFaultInv(w, a, v);
          w' := WorldOf(Step(s, op), F);
          OthersStepOk(w, w', a);
        case Reprotect(_, v, flags) =>
          ProtectInv(w, a, v, flags);
          w' := WorldOf(Step(s, op), F);
          OthersStepOk(w, w', a);
        case UserStore(_, v, index, value) =>
          StoreUserOk(w, a, v, index, value);
          w' := WorldOf(Step(s, op), F);
      }
    }
    F' := w'.F;
    assert WorldOf(Step(s, op), F') == w';
  }
}
