/** The address spaces of all processes over one physical memory (kernel/vmm.c, kernel/pmm.c):
    the ownership invariant and what every operation does to it.

    A `World` adds to the machine what the code leaves implicit: the forest of table frames of the
    live address spaces, the references kernel code holds outside any table, and the statically
    allocated boot root (p4_table). */
module CowSpaces {
  import opened Pmm
  import opened PageTables

  /** What never changes: the frame of the static boot root and the set of reserved frames. */
  datatype Fixed = Fixed(boot: nat, reserved: set<nat>)

  datatype World = World(m: Machine, F: Forest, held: multiset<nat>, fixed: Fixed)

  type Slot = (nat, nat)

  /** The user entries of all live trees: level-1 slot to mapped frame. */
  ghost function Leaves(mem: Memory, F: Forest): (L: map<Slot, nat>)
  {
    map t, l | t in F && F[t].level == 1 && 0 <= l < ENTRIES && Load(mem, t, l).flags.present ::
      (t, l) := Load(mem, t, l).frame
  }

  /** How many slots map `f`. */
  ghost function Count(L: map<Slot, nat>, f: nat): (n: nat)
  {
    |set k | k in L && L[k] == f|
  }

  /** Present user entries are USER and never huge, and those that name tables are WRITABLE. */
  ghost predicate Shape(mem: Memory, F: Forest)
  {
    forall t, i :: t in F && 0 <= i < ENTRIES && Owned(false, F[t].level, i) && Load(mem, t, i).flags.present ==>
      Load(mem, t, i).flags.user && (F[t].level > 1 ==> !Load(mem, t, i).flags.huge && Load(mem, t, i).flags.writable)
  }

  /** A mapped frame is no table, and a writable one has no other reference at all. */
  ghost predicate LeafOk(m: Machine, F: Forest)
  {
    forall t, l :: t in F && F[t].level == 1 && 0 <= l < ENTRIES && Load(m.mem, t, l).flags.present ==>
      var e := Load(m.mem, t, l);
      && e.frame < |m.mem| && e.frame !in F
      && (e.flags.writable ==> Refcount(m.pool, e.frame) == 1)
  }

  /** References to `f`: user entries, its own table page, callers. */
  ghost function References(w: World, f: nat): (n: nat)
  {
    Count(Leaves(w.m.mem, w.F), f) + (if f in w.F && f != w.fixed.boot then 1 else 0) + w.held[f]
  }

  ghost predicate Exact(w: World)
  {
    forall f :: 0 <= f < |w.m.mem| ==> Refcount(w.m.pool, f) == References(w, f)
  }

  ghost predicate HeldOk(w: World)
  {
    && w.fixed.boot in w.fixed.reserved
    && Reserved(w.m.pool) == w.fixed.reserved
    && (w.fixed.boot in w.F ==> w.F[w.fixed.boot].level == 4)
    && forall f :: f in w.held ==> f < |w.m.mem| && f !in w.F
  }

  ghost predicate Inv(w: World)
  {
    && ForestOk(false, w.m, w.F)
    && Shape(w.m.mem, w.F)
    && LeafOk(w.m, w.F)
    && HeldOk(w)
    && Exact(w)
  }

  // ---- Counting ----

  lemma CountPut(L: map<Slot, nat>, k: Slot, v: nat, f: nat)
    ensures Count(L[k := v], f) == Count(L, f) - (if k in L && L[k] == f then 1 else 0) + (if v == f then 1 else 0)
  {
    var A := set x | x in L && L[x] == f;
    var L' := L[k := v];
    var B := set x | x in L' && L'[x] == f;
    if v == f {
      assert B == A + {k};
    } else {
      assert B == A - {k};
    }
  }

  lemma CountDrop(L: map<Slot, nat>, k: Slot, f: nat)
    ensures Count(L - {k}, f) == Count(L, f) - (if k in L && L[k] == f then 1 else 0)
  {
    var A := set x | x in L && L[x] == f;
    var L' := L - {k};
    var B := set x | x in L' && L'[x] == f;
    assert B == A - {k};
  }

  lemma CountPositive(L: map<Slot, nat>, k: Slot)
    requires k in L
    ensures Count(L, L[k]) >= 1
  {
    var A := set x | x in L && L[x] == L[k];
    assert A == {k} + (A - {k});
  }

  lemma CountTwo(L: map<Slot, nat>, k: Slot, k': Slot)
    requires k in L && k' in L && k != k' && L[k] == L[k']
    ensures Count(L, L[k]) >= 2
  {
    var A := set x | x in L && L[x] == L[k];
    assert {k, k'} <= A;
    assert A == {k, k'} + (A - {k, k'});
  }

  // ---- A new, empty table ----

  /** w' is w with a new table `n`, linked at slot `i` of `t` and empty. */
  ghost function WithTable(w: World, t: nat, i: nat, flags: Flags): (w': World)
    requires t in w.F && w.F[t].level > 1
  {
    var (m', n) := AddTable(w.m, t, i, flags);
    w.(m := m', F := if n == 0 then w.F else w.F[n := Node(w.F[t].level - 1, w.F[t].root, t, i)])
  }

  lemma FreshFrame(w: World)
    requires Inv(w)
    ensures var n := Alloc(w.m.pool).1;
            n != 0 ==>
              && n < |w.m.mem| && !w.m.pool.used[n]
              && n !in w.F && n !in w.held && n != w.fixed.boot
              && (forall k :: k in Leaves(w.m.mem, w.F) ==> Leaves(w.m.mem, w.F)[k] != n)
  {
    AllocKeeps(w.m.pool);
    var n := Alloc(w.m.pool).1;
    if n != 0 {
      assert References(w, n) == 0;
      forall k | k in Leaves(w.m.mem, w.F) ensures Leaves(w.m.mem, w.F)[k] != n {
        CountPositive(Leaves(w.m.mem, w.F), k);
      }
    }
  }

  lemma WithTableLeaves(w: World, t: nat, i: nat, flags: Flags)
    requires t in w.F && w.F[t].level > 1
    requires Alloc(w.m.pool).1 !in w.F
    requires Alloc(w.m.pool).1 < |w.m.mem|
    ensures var w' := WithTable(w, t, i, flags);
            Leaves(w'.m.mem, w'.F) == Leaves(w.m.mem, w.F)
  {
  }

  /** LeafOk carries over when every leaf of the new state was already one, with the same word and
      the same count, and no mapped frame became a table. */
  lemma LeafOkKept(m: Machine, F: Forest, m': Machine, F': Forest)
    requires LeafOk(m, F) && |m'.mem| == |m.mem|
    requires forall t, l :: t in F' && F'[t].level == 1 && 0 <= l < ENTRIES && Load(m'.mem, t, l).flags.present ==>
               && t in F && F[t].level == 1 && Load(m.mem, t, l) == Load(m'.mem, t, l)
               && Load(m.mem, t, l).frame !in F'
               && (Load(m.mem, t, l).frame < |m.mem| ==>
                     Refcount(m'.pool, Load(m.mem, t, l).frame) == Refcount(m.pool, Load(m.mem, t, l).frame))
    ensures LeafOk(m', F')
  {
  }

  lemma ExactWithTable(w: World, t: nat, i: nat, flags: Flags)
    requires Exact(w) && t in w.F && w.F[t].level > 1 && |w.m.pool.refs| == |w.m.mem|
    requires var n := Alloc(w.m.pool).1;
             && n != 0 && n < |w.m.mem| && n !in w.F && n != w.fixed.boot && w.m.pool.refs[n] == 0
             && Alloc(w.m.pool).0.refs == w.m.pool.refs[n := 1]
    ensures Exact(WithTable(w, t, i, flags))
  {
    var w' := WithTable(w, t, i, flags);
    WithTableLeaves(w, t, i, flags);
    forall f | 0 <= f < |w'.m.mem| ensures Refcount(w'.m.pool, f) == References(w', f) {
      assert Refcount(w.m.pool, f) == References(w, f);
    }
  }

  lemma WithTableInv(w: World, t: nat, i: nat, flags: Flags)
    requires Inv(w) && t in w.F && w.F[t].level > 1 && i < ENTRIES && Owned(false, w.F[t].level, i)
    requires !Load(w.m.mem, t, i).flags.present && flags.present && flags.user && !flags.huge && flags.writable
    ensures Inv(WithTable(w, t, i, flags))
  {
    hide Exact, LeafOk, Shape, NodeOk, EntryOk;
    AllocKeeps(w.m.pool);
    FreshFrame(w);
    AddTableKeeps(false, w.m, w.F, t, i, flags);
    if AddTable(w.m, t, i, flags).1 != 0 {
      ExactWithTable(w, t, i, flags);
      WithTableLeafOk(w, t, i, flags);
      WithTableShape(w, t, i, flags);
    }
  }

  lemma WithTableShape(w: World, t: nat, i: nat, flags: Flags)
    requires Shape(w.m.mem, w.F) && t in w.F && w.F[t].level > 1 && flags.user && !flags.huge && flags.writable
    requires var n := Alloc(w.m.pool).1; n != 0 && n < |w.m.mem| && n !in w.F
    ensures Shape(WithTable(w, t, i, flags).m.mem, WithTable(w, t, i, flags).F)
  {
  }

  lemma WithTableLeafOk(w: World, t: nat, i: nat, flags: Flags)
    requires LeafOk(w.m, w.F) && t in w.F && w.F[t].level > 1 && |w.m.pool.refs| == |w.m.mem|
    requires var n := Alloc(w.m.pool).1;
             && n != 0 && n < |w.m.mem| && n !in w.F
             && Alloc(w.m.pool).0.refs == w.m.pool.refs[n := 1]
             && (forall k :: k in Leaves(w.m.mem, w.F) ==> Leaves(w.m.mem, w.F)[k] != n)
    ensures LeafOk(WithTable(w, t, i, flags).m, WithTable(w, t, i, flags).F)
  {
    var w' := WithTable(w, t, i, flags);
    forall t, l | t in w'.F && w'.F[t].level == 1 && 0 <= l < ENTRIES && Load(w'.m.mem, t, l).flags.present
      ensures t in w.F && Load(w.m.mem, t, l) == Load(w'.m.mem, t, l) && Load(w.m.mem, t, l).frame !in w'.F
      ensures Refcount(w'.m.pool, Load(w.m.mem, t, l).frame) == Refcount(w.m.pool, Load(w.m.mem, t, l).frame)
    {
      assert (t, l) in Leaves(w.m.mem, w.F);
    }
    LeafOkKept(w.m, w.F, w'.m, w'.F);
  }

  // ---- Replacing one user entry ----

  ghost function Maps(e: Word, f: nat): (n: nat)
  {
    if e.flags.present && e.frame == f then 1 else 0
  }

  /** w' is w with user entry (t, l) replaced by `e`; the counts follow, and whatever the entry gave up
      or took came from or went to the callers. Frames outside the forest may change freely. */
  ghost predicate LeafStep(w: World, w': World, t: nat, l: nat, e: Word)
  {
    && w'.F == w.F && w'.fixed == w.fixed
    && t in w.F && w.F[t].level == 1 && l < ENTRIES
    && MemOk(w'.m) && |w'.m.mem| == |w.m.mem| && Reserved(w'.m.pool) == Reserved(w.m.pool)
    && (forall x, k :: x in w.F && 0 <= k < ENTRIES ==>
          Load(w'.m.mem, x, k) == if x == t && k == l then e else Load(w.m.mem, x, k))
    && (e.flags.present ==> e.flags.user && e.frame < |w.m.mem| && e.frame !in w.F
                            && (e.flags.writable ==> Refcount(w'.m.pool, e.frame) == 1))
    && (forall f :: f in w'.held ==> f < |w.m.mem| && f !in w.F)
  }

  ghost predicate CountsFollow(w: World, w': World, prior: Word, e: Word)
  {
    forall f :: 0 <= f < |w.m.mem| ==>
      Refcount(w'.m.pool, f) + Maps(prior, f) + w.held[f] == Refcount(w.m.pool, f) + Maps(e, f) + w'.held[f]
  }

  /** No other user entry is writable on a frame whose count moved. */
  ghost predicate OthersAlone(w: World, w': World, t: nat, l: nat)
  {
    forall x, k :: x in w.F && w.F[x].level == 1 && 0 <= k < ENTRIES && !(x == t && k == l)
                   && Load(w.m.mem, x, k).flags.present && Load(w.m.mem, x, k).flags.writable ==>
      Refcount(w'.m.pool, Load(w.m.mem, x, k).frame) == 1
  }

  lemma LeafStepLeaves(w: World, w': World, t: nat, l: nat, e: Word)
    requires LeafStep(w, w', t, l, e)
    ensures Leaves(w'.m.mem, w'.F) == if e.flags.present then Leaves(w.m.mem, w.F)[(t, l) := e.frame]
                                      else Leaves(w.m.mem, w.F) - {(t, l)}
  {
  }

  lemma LeafStepExact(w: World, w': World, t: nat, l: nat, e: Word)
    requires LeafStep(w, w', t, l, e) && Exact(w) && CountsFollow(w, w', Load(w.m.mem, t, l), e)
    ensures Exact(w')
  {
    var L := Leaves(w.m.mem, w.F);
    LeafStepLeaves(w, w', t, l, e);
    forall f | 0 <= f < |w'.m.mem| ensures Refcount(w'.m.pool, f) == References(w', f) {
      CountPut(L, (t, l), e.frame, f);
      CountDrop(L, (t, l), f);
      assert Refcount(w.m.pool, f) == References(w, f);
      assert (t, l) in L <==> Load(w.m.mem, t, l).flags.present;
    }
  }

  lemma LeafStepForest(w: World, w': World, t: nat, l: nat, e: Word)
    requires LeafStep(w, w', t, l, e) && ForestOk(false, w.m, w.F) && Exact(w') && w.fixed.boot in Reserved(w.m.pool)
    ensures ForestOk(false, w'.m, w'.F)
  {
    forall x | x in w.F ensures w'.m.pool.used[x] && NodeOk(false, w'.m.mem, w.F, x) {
      assert Refcount(w'.m.pool, x) == References(w', x);
      assert x == w.fixed.boot ==> x in Reserved(w'.m.pool);
      assert NodeOk(false, w.m.mem, w.F, x);
    }
    forall x, k | x in w.F && 0 <= k < ENTRIES ensures EntryOk(false, w'.m.mem, w.F, x, k) {
      assert EntryOk(false, w.m.mem, w.F, x, k);
    }
  }

  lemma LeafStepInv(w: World, w': World, t: nat, l: nat, e: Word)
    requires Inv(w) && LeafStep(w, w', t, l, e) && CountsFollow(w, w', Load(w.m.mem, t, l), e)
    requires OthersAlone(w, w', t, l)
    ensures Inv(w')
  {
    LeafStepExact(w, w', t, l, e);
    LeafStepForest(w, w', t, l, e);
    LeafStepOk(w, w', t, l, e);
  }

  lemma LeafStepOk(w: World, w': World, t: nat, l: nat, e: Word)
    requires Shape(w.m.mem, w.F) && LeafOk(w.m, w.F) && LeafStep(w, w', t, l, e) && OthersAlone(w, w', t, l)
    ensures Shape(w'.m.mem, w'.F) && LeafOk(w'.m, w'.F)
  {
  }

  // ---- What an operation of address space `a` leaves alone ----

  /** Tables of every other space and every data frame in use keep their contents. */
  ghost predicate OthersKept(w: World, w': World, a: nat)
  {
    && w'.fixed == w.fixed && |w'.m.mem| == |w.m.mem|
    && (forall x :: x in w.F && w.F[x].root != a ==> x in w'.F && w'.F[x] == w.F[x])
    && (forall x, k :: x in w.F && w.F[x].root != a && 0 <= k < ENTRIES ==> Load(w'.m.mem, x, k) == Load(w.m.mem, x, k))
    && (forall f ::
        0 <= f < |w.m.mem| && f < |w.m.pool.used| && w.m.pool.used[f] && f !in w.F ==> w'.m.mem[f] == w.m.mem[f])
  }

  // ---- Copy-on-write, protection, unmapping ----

  /** memcpy of one frame. */
  function CopyFrame(mem: Memory, dst: nat, src: nat): (r: Memory)
  {
    if src < |mem| && |mem[src]| == ENTRIES then SetFrame(mem, dst, mem[src]) else mem
  }

  /** Give entry (pt, l) a private copy of its frame: the shared step of a COW fault and of a
      protection change to writable. */
  function CopyOut(m: Machine, pt: nat, l: nat, flags: Flags): (r: (Machine, bool))
  {
    var phys := Load(m.mem, pt, l).frame;
    var (pool, n) := Alloc(m.pool);
    if n == 0 then (m.(pool := pool), false)
    else (Machine(Free(pool, phys), Store(CopyFrame(m.mem, n, phys), pt, l, Word(n, flags))), true)
  }

  function SetFlags(m: Machine, pt: nat, l: nat, flags: Flags): (r: Machine)
  {
    m.(mem := Store(m.mem, pt, l, Word(Load(m.mem, pt, l).frame, flags)))
  }

  /** vmm_handle_cow_fault, once the entry is found. */
  function CowEntry(m: Machine, pt: nat, l: nat): (r: (Machine, bool))
  {
    var e := Load(m.mem, pt, l);
    var flags := e.flags.(cow := false, present := true, writable := true);
    if !e.flags.present || !e.flags.cow then (m, false)
    else if Refcount(m.pool, e.frame) > 1 then CopyOut(m, pt, l, flags)
    else (SetFlags(m, pt, l, flags), true)
  }

  /** vmm_handle_cow_fault. */
  function CowFault(m: Machine, root: nat, v: VPage): (r: (Machine, bool))
  {
    match Walk(m.mem, root, v, 1)
    case Fault => (m, false)
    case Reached(pt, _, _) => CowEntry(m, pt, v.i1)
  }

  /** vmm_protect_page, once the entry is found. */
  function ProtectEntry(m: Machine, pt: nat, l: nat, flags: Flags): (r: (Machine, bool))
  {
    var e := Load(m.mem, pt, l);
    if !e.flags.present then (m, false)
    else if flags.writable && (e.flags.cow || Refcount(m.pool, e.frame) > 1) then CopyOut(m, pt, l, flags)
    else if !flags.writable && e.flags.cow then (SetFlags(m, pt, l, flags.(cow := true)), true)
    else (SetFlags(m, pt, l, flags), true)
  }

  /** vmm_protect_page. */
  function Protect(m: Machine, root: nat, v: VPage, flags: Flags): (r: (Machine, bool))
  {
    match Walk(m.mem, root, v, 1)
    case Fault => (m, false)
    case Reached(pt, _, _) => ProtectEntry(m, pt, v.i1, flags)
  }

  /** vmm_unmap_page: the frame that was mapped, or 0. */
  function Unmap(m: Machine, root: nat, v: VPage): (r: (Machine, nat))
  {
    if v.i4 < 2 then (m, 0)
    else
      match Walk(m.mem, root, v, 1)
      case Fault => (m, 0)
      case Reached(pt, _, _) =>
        var e := Load(m.mem, pt, v.i1);
        if !e.flags.present then (m, 0)
        else (m.(mem := Store(m.mem, pt, v.i1, ZERO)), e.frame)
  }

  /** No entry but (t, l) lets a process write frame `f`. */
  ghost predicate SoleWriter(mem: Memory, F: Forest, t: nat, l: nat, f: nat)
  {
    forall x, k :: x in F && F[x].level == 1 && 0 <= k < ENTRIES && !(x == t && k == l)
                   && Load(mem, x, k).flags.present && Load(mem, x, k).flags.writable ==>
      Load(mem, x, k).frame != f
  }

  lemma LeafReferenced(w: World, t: nat, l: nat)
    requires LeafOk(w.m, w.F) && Exact(w) && t in w.F && w.F[t].level == 1 && l < ENTRIES
    requires Load(w.m.mem, t, l).flags.present
    ensures var f := Load(w.m.mem, t, l).frame;
            f < |w.m.mem| && f !in w.F && Refcount(w.m.pool, f) >= 1 && SoleWriter(w.m.mem, w.F, t, l, f)
  {
    var L := Leaves(w.m.mem, w.F);
    var f := Load(w.m.mem, t, l).frame;
    CountPositive(L, (t, l));
    assert Refcount(w.m.pool, f) == References(w, f);
    forall x, k | x in w.F && w.F[x].level == 1 && 0 <= k < ENTRIES && !(x == t && k == l)
        && Load(w.m.mem, x, k).flags.present && Load(w.m.mem, x, k).flags.writable
      ensures Load(w.m.mem, x, k).frame != f
    {
      if Load(w.m.mem, x, k).frame == f {
        assert (x, k) in L;
        CountTwo(L, (t, l), (x, k));
      }
    }
  }

  /** A step that rewrites one entry and leaves all counts alone. */
  lemma RewriteStep(w: World, t: nat, l: nat, e: Word, held': multiset<nat>)
    requires LeafOk(w.m, w.F) && MemOk(w.m) && t in w.F && t < |w.m.mem| && w.F[t].level == 1 && l < ENTRIES
    requires e.flags.present ==> e.flags.user && e.frame < |w.m.mem| && e.frame !in w.F
                                 && (e.flags.writable ==> Refcount(w.m.pool, e.frame) == 1)
    requires forall f :: f in held' ==> f < |w.m.mem| && f !in w.F
    requires forall f :: 0 <= f < |w.m.mem| ==> Maps(Load(w.m.mem, t, l), f) + w.held[f] == Maps(e, f) + held'[f]
    ensures var w' := w.(m := w.m.(mem := Store(w.m.mem, t, l, e)), held := held');
            && LeafStep(w, w', t, l, e) && CountsFollow(w, w', Load(w.m.mem, t, l), e) && OthersAlone(w, w', t, l)
            && OthersKept(w, w', w.F[t].root)
  {
  }

  lemma SetFlagsInv(w: World, t: nat, l: nat, flags: Flags)
    requires Inv(w) && t in w.F && w.F[t].level == 1 && l < ENTRIES && Load(w.m.mem, t, l).flags.present
    requires flags.present && flags.user && (flags.writable ==> Refcount(w.m.pool, Load(w.m.mem, t, l).frame) == 1)
    ensures var w' := w.(m := SetFlags(w.m, t, l, flags));
            Inv(w') && OthersKept(w, w', w.F[t].root)
  {
    LeafReferenced(w, t, l);
    var e := Word(Load(w.m.mem, t, l).frame, flags);
    RewriteStep(w, t, l, e, w.held);
    LeafStepInv(w, w.(m := SetFlags(w.m, t, l, flags)), t, l, e);
  }

  /** Clearing an entry hands its reference to the caller. */
  lemma ClearInv(w: World, t: nat, l: nat)
    requires Inv(w) && t in w.F && w.F[t].level == 1 && l < ENTRIES && Load(w.m.mem, t, l).flags.present
    ensures var w' := w.(m := w.m.(mem := Store(w.m.mem, t, l, ZERO)),
                         held := w.held + multiset{Load(w.m.mem, t, l).frame});
            Inv(w') && OthersKept(w, w', w.F[t].root)
  {
    LeafReferenced(w, t, l);
    var held' := w.held + multiset{Load(w.m.mem, t, l).frame};
    RewriteStep(w, t, l, ZERO, held');
    LeafStepInv(w, w.(m := w.m.(mem := Store(w.m.mem, t, l, ZERO)), held := held'), t, l, ZERO);
  }

  /** The bookkeeping of CopyOut: the new frame gains one reference, the old one loses one. */
  ghost predicate Handover(w: World, f: nat)
  {
    var (pool, n) := Alloc(w.m.pool);
    var q := Free(pool, f);
    && f < |w.m.mem| && f !in w.F && Refcount(w.m.pool, f) >= 1
    && n != 0 && n != f && n < |w.m.mem| && n !in w.F && n !in w.held && !w.m.pool.used[n]
    && PoolOk(q) && |q.used| == |w.m.mem| && Reserved(q) == Reserved(w.m.pool)
    && q.refs == w.m.pool.refs[n := 1][f := w.m.pool.refs[f] - 1] && w.m.pool.refs[n] == 0
  }

  lemma CopyOutPool(w: World, f: nat)
    requires Inv(w) && f < |w.m.mem| && f !in w.F && Refcount(w.m.pool, f) >= 1 && Alloc(w.m.pool).1 != 0
    requires MemOk(w.m)
    ensures Handover(w, f)
  {
    FreshFrame(w);
    AllocKeeps(w.m.pool);
    FreeKeeps(Alloc(w.m.pool).0, f);
  }

  lemma CopyOutStep(w: World, t: nat, l: nat, flags: Flags)
    requires LeafOk(w.m, w.F) && HeldOk(w) && MemOk(w.m) && (forall x :: x in w.F ==> x < |w.m.mem|)
    requires t in w.F && w.F[t].level == 1 && l < ENTRIES && Load(w.m.mem, t, l).flags.present
    requires flags.present && flags.user
    requires Handover(w, Load(w.m.mem, t, l).frame) && SoleWriter(w.m.mem, w.F, t, l, Load(w.m.mem, t, l).frame)
    ensures var w' := w.(m := CopyOut(w.m, t, l, flags).0);
            var e := Word(Alloc(w.m.pool).1, flags);
            LeafStep(w, w', t, l, e) && CountsFollow(w, w', Load(w.m.mem, t, l), e) && OthersAlone(w, w', t, l)
  {
  }

  lemma CopyOutKept(w: World, t: nat, l: nat, flags: Flags)
    requires MemOk(w.m) && t in w.F && t < |w.m.mem| && l < ENTRIES
    requires Handover(w, Load(w.m.mem, t, l).frame)
    ensures var (m', ok) := CopyOut(w.m, t, l, flags);
            && OthersKept(w, w.(m := m'), w.F[t].root)
            && CopiedOut(w.m, m', t, l, flags)
  {
  }

  /** The entry now names a frame with the same contents. */
  ghost predicate CopiedOut(m: Machine, m': Machine, t: nat, l: nat, flags: Flags)
  {
    var f, e' := Load(m.mem, t, l).frame, Load(m'.mem, t, l);
    e'.flags == flags && e'.frame < |m'.mem| && f < |m.mem| && m'.mem[e'.frame] == m.mem[f]
  }

  lemma CopyOutInv(w: World, t: nat, l: nat, flags: Flags)
    requires Inv(w) && t in w.F && w.F[t].level == 1 && l < ENTRIES && Load(w.m.mem, t, l).flags.present
    requires flags.present && flags.user
    ensures var (m', ok) := CopyOut(w.m, t, l, flags);
            var w' := w.(m := m');
            && Inv(w') && OthersKept(w, w', w.F[t].root)
            && (!ok ==> m' == w.m)
            && (ok ==> CopiedOut(w.m, m', t, l, flags))
  {
    LeafReferenced(w, t, l);
    if Alloc(w.m.pool).1 == 0 {
      AllocKeeps(w.m.pool);
    } else {
      CopyOutPool(w, Load(w.m.mem, t, l).frame);
      CopyOutKept(w, t, l, flags);
      CopyOutStep(w, t, l, flags);
      LeafStepInv(w, w.(m := CopyOut(w.m, t, l, flags).0), t, l, Word(Alloc(w.m.pool).1, flags));
    }
  }

  // ---- Mapping a frame the caller holds ----

  /** The references callers hold after frame `f` went into an entry that used to be `prior`. */
  function HeldAfterMap(held: multiset<nat>, f: nat, prior: Word): (h: multiset<nat>)
  {
    if prior.flags.present then held - multiset{f} + multiset{prior.frame} else held - multiset{f}
  }

  lemma PlaceInv(w: World, t: nat, l: nat, f: nat, flags: Flags)
    requires Inv(w) && t in w.F && w.F[t].level == 1 && l < ENTRIES
    requires f in w.held && Refcount(w.m.pool, f) == 1 && flags.present && flags.user
    ensures var w' := w.(m := w.m.(mem := Store(w.m.mem, t, l, Word(f, flags))),
                         held := HeldAfterMap(w.held, f, Load(w.m.mem, t, l)));
            Inv(w') && OthersKept(w, w', w.F[t].root)
  {
    if Load(w.m.mem, t, l).flags.present {
      LeafReferenced(w, t, l);
    }
    var held' := HeldAfterMap(w.held, f, Load(w.m.mem, t, l));
    RewriteStep(w, t, l, Word(f, flags), held');
    LeafStepInv(w, w.(m := w.m.(mem := Store(w.m.mem, t, l, Word(f, flags))), held := held'), t, l, Word(f, flags));
  }

  /** w' grew tables below `root` only: all old entries but (t, i) are as before. */
  ghost predicate Deepened(w: World, w': World, root: nat, t: nat, i: nat)
  {
    && w'.held == w.held && w'.fixed == w.fixed && |w'.m.mem| == |w.m.mem|
    && Grown(w.F, w'.F, root)
    && (forall x, k ::
        x in w.F && 0 <= k < ENTRIES && !(x == t && k == i) ==> Load(w'.m.mem, x, k) == Load(w.m.mem, x, k))
    && (forall f ::
        0 <= f < |w.m.mem| && f < |w.m.pool.used| && w.m.pool.used[f] && f !in w.F ==> w'.m.mem[f] == w.m.mem[f])
    && (forall f :: 0 <= f < |w.m.mem| && f < |w.m.pool.used| && f < |w'.m.pool.used| && w.m.pool.used[f] ==>
          w'.m.pool.used[f] && Refcount(w'.m.pool, f) == Refcount(w.m.pool, f))
    && (forall x :: x in w'.F && x !in w.F ==> x < |w.m.pool.used| && !w.m.pool.used[x])
  }

  lemma WithTableDeepened(w: World, t: nat, i: nat, flags: Flags)
    requires MemOk(w.m) && t in w.F && 1 < w.F[t].level <= 4 && i < ENTRIES && (forall x :: x in w.F ==> x < |w.m.mem|)
    requires Alloc(w.m.pool).1 != 0 ==> Alloc(w.m.pool).1 !in w.F
    ensures Deepened(w, WithTable(w, t, i, flags), w.F[t].root, t, i)
  {
    AllocKeeps(w.m.pool);
  }

  /** Deepened, without saying where: what building tables below `root` keeps. */
  ghost predicate Deeper(w: World, w': World, root: nat)
  {
    && w'.held == w.held && w'.fixed == w.fixed && |w'.m.mem| == |w.m.mem| && |w'.m.pool.used| == |w.m.pool.used|
    && Grown(w.F, w'.F, root)
    && (forall x, k ::
        x in w.F && w.F[x].root != root && 0 <= k < ENTRIES ==> Load(w'.m.mem, x, k) == Load(w.m.mem, x, k))
    && (forall f ::
        0 <= f < |w.m.mem| && f < |w.m.pool.used| && w.m.pool.used[f] && f !in w.F ==>
            w'.m.mem[f] == w.m.mem[f] && f !in w'.F)
    && (forall f :: 0 <= f < |w.m.mem| && f < |w.m.pool.used| && w.m.pool.used[f] ==>
          w'.m.pool.used[f] && Refcount(w'.m.pool, f) == Refcount(w.m.pool, f))
  }

  lemma DeeperFrom(w: World, w': World, t: nat, i: nat)
    requires t in w.F && Deepened(w, w', w.F[t].root, t, i) && MemOk(w.m) && MemOk(w'.m)
    ensures Deeper(w, w', w.F[t].root)
  {
  }

  lemma DeeperTrans(w: World, w': World, w'': World, root: nat)
    requires Deeper(w, w', root) && Deeper(w', w'', root)
    ensures Deeper(w, w'', root)
  {
  }

  /** Slot `i` of `t` leads to a table of the forest. */
  ghost predicate ChildAt(w: World, t: nat, i: nat)
  {
    && t in w.F && w.F[t].level > 1 && Points(w.F[t].level, Load(w.m.mem, t, i))
    && Load(w.m.mem, t, i).frame in w.F
    && w.F[Load(w.m.mem, t, i).frame] == Node(w.F[t].level - 1, w.F[t].root, t, i)
  }

  lemma ChildIn(w: World, t: nat, i: nat)
    requires Inv(w) && t in w.F && w.F[t].level > 1 && i < ENTRIES && Owned(false, w.F[t].level, i)
    requires Load(w.m.mem, t, i).flags.present
    ensures ChildAt(w, t, i)
  {
    assert EntryOk(false, w.m.mem, w.F, t, i);
  }

  lemma EnsureInv(w: World, t: nat, i: nat) returns (w': World)
    requires Inv(w) && t in w.F && w.F[t].level > 1 && i < ENTRIES && Owned(false, w.F[t].level, i)
    ensures var (m', ok) := EnsureTable(w.m, t, i);
            && w'.m == m' && Inv(w') && Deepened(w, w', w.F[t].root, t, i) && Deeper(w, w', w.F[t].root)
            && (ok ==> ChildAt(w', t, i))
  {
    if Load(w.m.mem, t, i).flags.present {
      w' := w;
    } else {
      w' := WithTable(w, t, i, TABLE_FLAGS);
      FreshFrame(w);
      assert NodeOk(false, w.m.mem, w.F, t);
      WithTableInv(w, t, i, TABLE_FLAGS);
      WithTableDeepened(w, t, i, TABLE_FLAGS);
      DeeperFrom(w, w', t, i);
    }
    if EnsureTable(w.m, t, i).1 {
      ChildIn(w', t, i);
    }
  }

  lemma DescendInv(w: World, root: nat, v: VPage) returns (w': World)
    requires Inv(w) && IsRoot(w.F, root) && w.F[root].root == root && v.Ok() && UserSlot(v.i4)
    ensures var (d, found) := Descend(w.m, root, v);
            && w'.m == d && Inv(w') && Deeper(w, w', root)
            && (found.LeafTable? ==> LeafTableOf(w', root, v, found.pt))
  {
    var a := EnsureInv(w, root, v.i4);
    w' := a;
    if EnsureTable(w.m, root, v.i4).1 {
      w' := DescendLowerInv(a, root, v, Load(a.m.mem, root, v.i4).frame);
      DeeperTrans(w, a, w', root);
    }
  }

  ghost predicate LeafTableOf(w: World, root: nat, v: VPage, pt: nat)
  {
    && Walk(w.m.mem, root, v, 1).Reached? && Walk(w.m.mem, root, v, 1).table == pt
    && pt in w.F && w.F[pt].level == 1 && w.F[pt].root == root
  }

  lemma DescendLowerInv(a: World, root: nat, v: VPage, pdpt: nat) returns (w': World)
    requires Inv(a) && IsRoot(a.F, root) && a.F[root].root == root && v.Ok() && UserSlot(v.i4)
    requires ChildAt(a, root, v.i4) && Load(a.m.mem, root, v.i4).frame == pdpt
    ensures var (b, ok3) := EnsureTable(a.m, pdpt, v.i3);
            var (d, found) := if !ok3 then (b, OutOfMemory) else DescendPd(b, Load(b.mem, pdpt, v.i3).frame, v);
            && w'.m == d && Inv(w') && Deeper(a, w', root)
            && (found.LeafTable? ==> LeafTableOf(w', root, v, found.pt))
  {
    hide Inv, EnsureTable, Deeper;
    var b := EnsureInv(a, pdpt, v.i3);
    w' := b;
    if EnsureTable(a.m, pdpt, v.i3).1 {
      var pd := Load(b.m.mem, pdpt, v.i3).frame;
      w' := EnsureInv(b, pd, v.i2);
      DeeperTrans(a, b, w', root);
      NoSplit(b, pd, v);
      if EnsureTable(b.m, pd, v.i2).1 {
        WalkChain(w'.m.mem, root, v, pdpt, pd, Load(w'.m.mem, pd, v.i2).frame);
      }
    }
  }

  /** The user half has no huge entry, so vmm_map_page never splits there. */
  lemma NoSplit(b: World, pd: nat, v: VPage)
    requires Inv(b) && pd in b.F && b.F[pd].level == 2 && v.Ok()
    ensures DescendPd(b.m, pd, v) ==
              var (d, ok2) := EnsureTable(b.m, pd, v.i2);
              if !ok2 then (d, OutOfMemory) else (d, LeafTable(Load(d.mem, pd, v.i2).frame))
  {
  }

  // ---- Dropping a reference a caller holds ----

  lemma FreeHeldExact(w: World, f: nat, pool': Pool)
    requires Exact(w) && f in w.held && f < |w.m.mem| && |w.m.pool.refs| == |w.m.mem| && w.m.pool.refs[f] > 0
    requires pool'.refs == w.m.pool.refs[f := w.m.pool.refs[f] - 1]
    ensures Exact(w.(m := w.m.(pool := pool'), held := w.held - multiset{f}))
  {
    var w' := w.(m := w.m.(pool := pool'), held := w.held - multiset{f});
    forall x | 0 <= x < |w'.m.mem| ensures Refcount(w'.m.pool, x) == References(w', x) {
      assert Refcount(w.m.pool, x) == References(w, x);
    }
  }

  lemma FreeHeldInv(w: World, f: nat)
    requires Inv(w) && f in w.held
    ensures var w' := w.(m := w.m.(pool := Free(w.m.pool, f)), held := w.held - multiset{f});
            Inv(w') && Refcount(w.m.pool, f) > 0
  {
    var w' := w.(m := w.m.(pool := Free(w.m.pool, f)), held := w.held - multiset{f});
    assert Refcount(w.m.pool, f) == References(w, f);
    FreeKeeps(w.m.pool, f);
    FreeHeldExact(w, f, Free(w.m.pool, f));
    FreeHeldLeafOk(w, f, Free(w.m.pool, f));
  }

  /** A frame that a caller holds is not writable through any entry: the entry would make two. */
  lemma FreeHeldLeafOk(w: World, f: nat, pool': Pool)
    requires LeafOk(w.m, w.F) && Exact(w) && f in w.held && |w.m.pool.refs| == |w.m.mem| && f < |w.m.mem|
    requires w.m.pool.refs[f] > 0
    requires pool'.refs == w.m.pool.refs[f := w.m.pool.refs[f] - 1]
    ensures LeafOk(w.m.(pool := pool'), w.F)
  {
    forall t, l | t in w.F && w.F[t].level == 1 && 0 <= l < ENTRIES && Load(w.m.mem, t, l).flags.present
        && Load(w.m.mem, t, l).flags.writable
      ensures Load(w.m.mem, t, l).frame != f
    {
      assert Refcount(w.m.pool, f) == References(w, f);
      if Load(w.m.mem, t, l).frame == f {
        CountPositive(Leaves(w.m.mem, w.F), (t, l));
      }
    }
  }

  // ---- The entry operations keep the invariant ----

  lemma LeafUser(w: World, t: nat, l: nat)
    requires Shape(w.m.mem, w.F) && t in w.F && w.F[t].level == 1 && l < ENTRIES && Load(w.m.mem, t, l).flags.present
    ensures Load(w.m.mem, t, l).flags.user
  {
  }

  lemma CowEntryInv(w: World, t: nat, l: nat)
    requires Inv(w) && t in w.F && w.F[t].level == 1 && l < ENTRIES
    ensures var w' := w.(m := CowEntry(w.m, t, l).0);
            Inv(w') && OthersKept(w, w', w.F[t].root)
  {
    var e := Load(w.m.mem, t, l);
    if e.flags.present && e.flags.cow {
      var flags := e.flags.(cow := false, present := true, writable := true);
      LeafReferenced(w, t, l);
      LeafUser(w, t, l);
      if Refcount(w.m.pool, e.frame) > 1 {
        CopyOutInv(w, t, l, flags);
      } else {
        SetFlagsInv(w, t, l, flags);
      }
    }
  }

  lemma ProtectEntryInv(w: World, t: nat, l: nat, flags: Flags)
    requires Inv(w) && t in w.F && w.F[t].level == 1 && l < ENTRIES && flags.present && flags.user
    ensures var w' := w.(m := ProtectEntry(w.m, t, l, flags).0);
            Inv(w') && OthersKept(w, w', w.F[t].root)
  {
    var e := Load(w.m.mem, t, l);
    if e.flags.present {
      LeafReferenced(w, t, l);
      if flags.writable && (e.flags.cow || Refcount(w.m.pool, e.frame) > 1) {
        CopyOutInv(w, t, l, flags);
      } else {
        SetFlagsInv(w, t, l, if e.flags.cow then flags.(cow := true) else flags);
      }
    }
  }
}
