/** What page operations do to the space they are done for, and when they succeed: resolved faults, protection changes
    and unmappings touch one page and keep the contents of all others; vmm_prepare_user_write opens a range. */
module CowWrites {
  import opened Pmm
  import opened PageTables
  import opened CowSpaces
  import opened CowFork
  import opened CowRuns
  import opened Vmm

  /** The page at `v` can be written, and reads as it did in `m`. */
  ghost predicate NowWritable(m: Machine, m': Machine, a: nat, v: VPage)
  {
    var before, after := Translate(m.mem, a, v), Translate(m'.mem, a, v);
    && before.Mapped? && after.Mapped? && after.writable && after.user
    && before.frame < |m.mem| && after.frame < |m'.mem| && m'.mem[after.frame] == m.mem[before.frame]
  }

  /** The page at `v` now has the given flags, and reads as it did in `m`. */
  ghost predicate PageBecame(m: Machine, m': Machine, a: nat, v: VPage, flags: Flags)
  {
    var before, after := Translate(m.mem, a, v), Translate(m'.mem, a, v);
    && before.Mapped? && after.Mapped? && after.flags == flags && after.writable == flags.writable
        && after.user == flags.user
    && before.frame < |m.mem| && after.frame < |m'.mem| && m'.mem[after.frame] == m.mem[before.frame]
  }

  /** The other table entries are unchanged. */
  ghost predicate OtherEntries(w: World, m': Machine, t: nat, l: nat)
  {
    forall x, k :: x in w.F && 0 <= k < ENTRIES && !(x == t && k == l) ==> Load(m'.mem, x, k) == Load(w.m.mem, x, k)
  }

  /** Entry (t, l) got new flags and perhaps a copy of its page; the other table entries are unchanged. */
  ghost predicate EntryBecame(w: World, m': Machine, t: nat, l: nat, flags: Flags)
  {
    var e, e' := Load(w.m.mem, t, l), Load(m'.mem, t, l);
    && e'.flags == flags
    && e.frame < |w.m.mem| && e'.frame < |m'.mem| && m'.mem[e'.frame] == w.m.mem[e.frame]
    && OtherEntries(w, m', t, l)
  }

  function Opened(flags: Flags): (r: Flags)
  {
    flags.(cow := false, present := true, writable := true)
  }

  lemma CopyOutBecomes(w: World, t: nat, l: nat, flags: Flags)
    requires Inv(w) && t in w.F && w.F[t].level == 1 && l < ENTRIES && Load(w.m.mem, t, l).flags.present
    requires flags.present && flags.user && CopyOut(w.m, t, l, flags).1
    ensures EntryBecame(w, CopyOut(w.m, t, l, flags).0, t, l, flags)
  {
    LeafReferenced(w, t, l);
    CopyOutInv(w, t, l, flags);
    FreshFrame(w);
  }

  lemma SetFlagsBecomes(w: World, t: nat, l: nat, flags: Flags)
    requires MemOk(w.m) && t in w.F && t < |w.m.mem| && l < ENTRIES
    requires Load(w.m.mem, t, l).frame < |w.m.mem| && Load(w.m.mem, t, l).frame !in w.F
    ensures EntryBecame(w, SetFlags(w.m, t, l, flags), t, l, flags)
  {
  }

  lemma CowEntryOpens(w: World, t: nat, l: nat)
    requires Inv(w) && t in w.F && w.F[t].level == 1 && l < ENTRIES && CowEntry(w.m, t, l).1
    ensures EntryBecame(w, CowEntry(w.m, t, l).0, t, l, Opened(Load(w.m.mem, t, l).flags))
    ensures Load(w.m.mem, t, l).flags.present && Load(w.m.mem, t, l).flags.user
  {
    var e := Load(w.m.mem, t, l);
    LeafReferenced(w, t, l);
    LeafUser(w, t, l);
    if Refcount(w.m.pool, e.frame) > 1 {
      CopyOutBecomes(w, t, l, Opened(e.flags));
    } else {
      SetFlagsBecomes(w, t, l, Opened(e.flags));
    }
  }

  /** A resolved fault opens exactly the faulting page. */
  lemma CowFaultOpens(w: World, a: nat, v: VPage)
    requires Inv(w) && IsRoot(w.F, a) && UserPage(v) && CowFault(w.m, a, v).1
    ensures var m' := CowFault(w.m, a, v).0;
            && NowWritable(w.m, m', a, v)
            && forall u: VPage :: UserPage(u) && u != v ==> SameView(w.m, m', a, u)
  {
    LeafTableIn(w, a, v);
    var t := Walk(w.m.mem, a, v, 1).table;
    CowEntryOpens(w, t, v.i1);
    CowFaultInv(w, a, v);
    var w' := w.(m := CowFault(w.m, a, v).0);
    PageViewed(w, w', a, v, t, Opened(Load(w.m.mem, t, v.i1).flags));
    OthersViewed(w, w', a, v, t);
  }

  /** The page whose entry was rewritten. */
  lemma PageViewed(w: World, w': World, a: nat, v: VPage, t: nat, flags: Flags)
    requires Inv(w) && Inv(w') && w'.F == w.F && IsRoot(w.F, a) && w.F[a].root == a && UserPage(v) && flags.present
    requires LeafTableOf(w, a, v, t) && EntryBecame(w, w'.m, t, v.i1, flags) && Load(w.m.mem, t, v.i1).flags.present
    ensures PageBecame(w.m, w'.m, a, v, flags)
  {
    WalkAgrees(false, w.m.mem, w.F, w'.m.mem, a, v, 1);
    UserTranslate(w.m.mem, w.F, a, v);
    UserTranslate(w'.m.mem, w.F, a, v);
  }

  /** The other pages of the space. */
  lemma OthersViewed(w: World, w': World, a: nat, v: VPage, t: nat)
    requires Inv(w) && Inv(w') && w'.F == w.F && IsRoot(w.F, a) && w.F[a].root == a && UserPage(v)
    requires LeafTableOf(w, a, v, t) && OtherEntries(w, w'.m, t, v.i1) && OthersKept(w, w', a)
    ensures forall u: VPage :: UserPage(u) && u != v ==> SameView(w.m, w'.m, a, u)
  {
    forall u: VPage | UserPage(u) && u != v ensures SameView(w.m, w'.m, a, u) {
      OtherViewed(w, w', a, v, u, t);
    }
  }

  lemma OtherViewed(w: World, w': World, a: nat, v: VPage, u: VPage, t: nat)
    requires Inv(w) && Inv(w') && w'.F == w.F && IsRoot(w.F, a) && w.F[a].root == a && UserPage(v) && UserPage(u)
    requires u != v
    requires LeafTableOf(w, a, v, t) && OtherEntries(w, w'.m, t, v.i1) && OthersKept(w, w', a)
    ensures SameView(w.m, w'.m, a, u)
  {
    WalkAgrees(false, w.m.mem, w.F, w'.m.mem, a, u, 1);
    UserTranslate(w.m.mem, w.F, a, u);
    UserTranslate(w'.m.mem, w.F, a, u);
    var c := Walk(w.m.mem, a, u, 1);
    if c.Reached? {
      OtherSlot(w, a, v, u, t);
      if Load(w.m.mem, c.table, u.i1).flags.present {
        LeafReferenced(w, c.table, u.i1);
        UsedKept(w, w', a, Load(w.m.mem, c.table, u.i1).frame);
      }
    }
  }

  lemma UsedKept(w: World, w': World, a: nat, f: nat)
    requires MemOk(w.m) && OthersKept(w, w', a) && f < |w.m.mem| && f !in w.F && Refcount(w.m.pool, f) >= 1
    ensures f < |w'.m.mem| && w'.m.mem[f] == w.m.mem[f]
  {
  }

  /** Different pages of one space use different entries. */
  lemma OtherSlot(w: World, a: nat, v: VPage, u: VPage, t: nat)
    requires Closed(false, w.m.mem, w.F) && IsRoot(w.F, a) && w.F[a].root == a && UserPage(v) && UserPage(u) && u != v
    requires LeafTableOf(w, a, v, t) && Walk(w.m.mem, a, u, 1).Reached?
    ensures Walk(w.m.mem, a, u, 1).table != t || u.i1 != v.i1
  {
    if Walk(w.m.mem, a, u, 1).table == t {
      WalkInjective(false, w.m.mem, w.F, a, u, a, v, 1);
      assert u.At(2) == v.At(2) && u.At(3) == v.At(3) && u.At(4) == v.At(4);
    }
  }

  // ---- When faults, protection changes, unmappings and mappings succeed, and what they do ----

  /** A fault is resolved exactly on a copy-on-write page, with a free frame if the page is shared; otherwise nothing
      changes. */
  lemma CowFaultSucceedsIff(w: World, a: nat, v: VPage)
    requires Inv(w) && IsRoot(w.F, a) && UserPage(v)
    ensures var (m', ok) := CowFault(w.m, a, v);
            var r := Translate(w.m.mem, a, v);
            && (ok <==> r.Mapped? && r.flags.cow && (Refcount(w.m.pool, r.frame) > 1 ==> w.m.pool.free > 0))
            && (!ok ==> m' == w.m)
  {
    LeafTableIn(w, a, v);
    UserTranslate(w.m.mem, w.F, a, v);
    AllocFailsIff(w.m.pool);
    AllocKeeps(w.m.pool);
  }

  /** vmm_protect_page gives a mapped page the new flags, on a private copy when it becomes writable; a read-only page
      stays copy-on-write if it was. It fails only unmapped or for lack of memory, and then changes nothing. */
  lemma ProtectSets(w: World, a: nat, v: VPage, flags: Flags)
    requires Inv(w) && IsRoot(w.F, a) && UserPage(v) && flags.present && flags.user
    ensures var (m', ok) := Protect(w.m, a, v, flags);
            var r := Translate(w.m.mem, a, v);
            && (ok <==>
                r.Mapped? && (flags.writable && (r.flags.cow || Refcount(w.m.pool, r.frame) > 1) ==> w.m.pool.free > 0))
            && (!ok ==> m' == w.m)
            && (ok ==> PageBecame(w.m, m', a, v, flags.(cow := flags.cow || (r.flags.cow && !flags.writable)))
                       && forall u: VPage :: UserPage(u) && u != v ==> SameView(w.m, m', a, u))
  {
    LeafTableIn(w, a, v);
    UserTranslate(w.m.mem, w.F, a, v);
    AllocFailsIff(w.m.pool);
    AllocKeeps(w.m.pool);
    var (m', ok) := Protect(w.m, a, v, flags);
    if ok {
      var t := Walk(w.m.mem, a, v, 1).table;
      var cow := Load(w.m.mem, t, v.i1).flags.cow;
      ProtectEntryBecomes(w, t, v.i1, flags);
      ProtectInv(w, a, v, flags);
      PageViewed(w, w.(m := m'), a, v, t, flags.(cow := flags.cow || (cow && !flags.writable)));
      OthersViewed(w, w.(m := m'), a, v, t);
    }
  }

  lemma ProtectEntryBecomes(w: World, t: nat, l: nat, flags: Flags)
    requires Inv(w) && t in w.F && w.F[t].level == 1 && l < ENTRIES && flags.present && flags.user
    requires ProtectEntry(w.m, t, l, flags).1
    ensures var cow := Load(w.m.mem, t, l).flags.cow;
            EntryBecame(w, ProtectEntry(w.m, t, l, flags).0, t, l, flags.(cow := flags.cow || (cow && !flags.writable)))
  {
    var e := Load(w.m.mem, t, l);
    var flags1 := flags.(cow := flags.cow || (e.flags.cow && !flags.writable));
    LeafReferenced(w, t, l);
    if flags.writable && (e.flags.cow || Refcount(w.m.pool, e.frame) > 1) {
      CopyOutBecomes(w, t, l, flags);
    } else {
      SetFlagsBecomes(w, t, l, flags1);
    }
  }

  /** vmm_unmap_page returns the frame that was mapped, or 0 for none, and leaves exactly that page unmapped. */
  lemma UnmapRemoves(w: World, a: nat, v: VPage)
    requires Inv(w) && IsRoot(w.F, a) && UserPage(v)
    ensures var (m', f) := Unmap(w.m, a, v);
            var r := Translate(w.m.mem, a, v);
            && (if r.Mapped? then f == r.frame != 0 else f == 0)
            && Translate(m'.mem, a, v) == Unmapped && m'.pool == w.m.pool
            && forall u: VPage :: UserPage(u) && u != v ==> SameView(w.m, m', a, u)
  {
    LeafTableIn(w, a, v);
    UserTranslate(w.m.mem, w.F, a, v);
    var (m', f) := Unmap(w.m, a, v);
    var c := Walk(w.m.mem, a, v, 1);
    if c.Reached? && Load(w.m.mem, c.table, v.i1).flags.present {
      NullUnmapped(w, c.table, v.i1);
      UnmapInv(w, a, v);
      var w' := w.(m := m', held := w.held + multiset{f});
      OthersViewed(w, w', a, v, c.table);
      WalkAgrees(false, w.m.mem, w.F, m'.mem, a, v, 1);
      UserTranslate(m'.mem, w.F, a, v);
    } else {
      SpaceKeptView(w, w, a);
    }
  }

  /** The page at `v` can be written, and reads as it did in `m` but for the one word stored. */
  ghost predicate Stored(m: Machine, m': Machine, a: nat, v: VPage, index: nat, value: Word)
  {
    var before, after := Translate(m.mem, a, v), Translate(m'.mem, a, v);
    && before.Mapped? && after.Mapped? && after.writable && after.user
    && before.frame < |m.mem| && index < |m.mem[before.frame]| && after.frame < |m'.mem|
    && m'.mem[after.frame] == m.mem[before.frame][index := value]
  }

  /** A store instruction goes through exactly on a mapped page that is writable, or copy-on-write with a free frame if
      it is shared; then that word of that page changes and no other page of the space does, and otherwise nothing. */
  lemma StoreGoesThroughIff(w: World, a: nat, v: VPage, index: nat, value: Word)
    requires Inv(w) && IsRoot(w.F, a) && UserPage(v) && index < ENTRIES
    ensures var m', r := StoreUser(w.m, a, v, index, value), Translate(w.m.mem, a, v);
            if r.Mapped? && (r.writable || (r.flags.cow && (Refcount(w.m.pool, r.frame) > 1 ==> w.m.pool.free > 0)))
            then Stored(w.m, m', a, v, index, value) && ViewSame(w.m, m', a, v)
            else m' == w.m
  {
    hide CowFault, Inv, Translate, OthersKept, SameView, Stored;
    var r := Translate(w.m.mem, a, v);
    if r.Mapped? {
      UserOf(w, a, v);
      if r.writable {
        WritableNow(w, a, v);
        StoreInPage(w, w.m, a, v, index, value);
      } else {
        CowFaultSucceedsIff(w, a, v);
        if CowFault(w.m, a, v).1 {
          CowFaultOpens(w, a, v);
          CowFaultInv(w, a, v);
          StoreInPage(w, CowFault(w.m, a, v).0, a, v, index, value);
        }
      }
    }
  }

  /** A writable page shares its frame with no other page of its space. */
  lemma WritableApart(w: World, a: nat, v: VPage, u: VPage)
    requires Inv(w) && IsRoot(w.F, a) && UserPage(v) && UserPage(u) && u != v
    requires Translate(w.m.mem, a, v).Mapped? && Translate(w.m.mem, a, v).writable && Translate(w.m.mem, a, u).Mapped?
    ensures Translate(w.m.mem, a, u).frame != Translate(w.m.mem, a, v).frame
  {
    LeafTableIn(w, a, v);
    LeafTableIn(w, a, u);
    UserTranslate(w.m.mem, w.F, a, v);
    UserTranslate(w.m.mem, w.F, a, u);
    var t, x := Walk(w.m.mem, a, v, 1).table, Walk(w.m.mem, a, u, 1).table;
    OtherSlot(w, a, v, u, t);
    if Load(w.m.mem, x, u.i1).frame == Load(w.m.mem, t, v.i1).frame {
      TwiceMapped(w, t, v.i1, x, u.i1);
    }
  }

  lemma StoreInPage(w: World, m1: Machine, a: nat, v: VPage, index: nat, value: Word)
    requires Inv(w) && Inv(w.(m := m1)) && IsRoot(w.F, a) && UserPage(v) && index < ENTRIES
    requires NowWritable(w.m, m1, a, v) && ViewSame(w.m, m1, a, v)
    ensures var m2 := m1.(mem := Store(m1.mem, Translate(m1.mem, a, v).frame, index, value));
            Stored(w.m, m2, a, v, index, value) && ViewSame(w.m, m2, a, v)
  {
    hide Inv, Translate, Store;
    var w1, f := w.(m := m1), Translate(m1.mem, a, v).frame;
    var mem2 := Store(m1.mem, f, index, value);
    WritableAlone(w1, a, v);
    StoreKeepsPage(w1, a, v, f, index, value);
    StoreReplaces(w, m1, f, index, value);
    forall u: VPage | UserPage(u) && u != v ensures SameView(w.m, m1.(mem := mem2), a, u) {
      assert SameView(w.m, m1, a, u);
      StoreKeepsPage(w1, a, u, f, index, value);
      if Translate(m1.mem, a, u).Mapped? {
        WritableApart(w1, a, v, u);
      }
    }
  }

  lemma StoreReplaces(w: World, m1: Machine, f: nat, index: nat, value: Word)
    requires Inv(w) && Inv(w.(m := m1)) && f < |m1.mem| && index < ENTRIES
    ensures |m1.mem[f]| == ENTRIES && Store(m1.mem, f, index, value)[f] == m1.mem[f][index := value]
    ensures forall g :: 0 <= g < |w.m.mem| ==> |w.m.mem[g]| == ENTRIES
  {
  }

  lemma UserOf(w: World, a: nat, v: VPage)
    requires Inv(w) && IsRoot(w.F, a) && UserPage(v) && Translate(w.m.mem, a, v).Mapped?
    ensures Translate(w.m.mem, a, v).user
  {
    LeafTableIn(w, a, v);
    UserTranslate(w.m.mem, w.F, a, v);
    LeafUser(w, Walk(w.m.mem, a, v, 1).table, v.i1);
  }

  lemma StoreKeepsPage(w: World, a: nat, v: VPage, f: nat, index: nat, value: Word)
    requires Inv(w) && IsRoot(w.F, a) && UserPage(v) && f !in w.F && f < |w.m.mem| && index < ENTRIES
    ensures Translate(Store(w.m.mem, f, index, value), a, v) == Translate(w.m.mem, a, v)
    ensures Load(Store(w.m.mem, f, index, value), f, index) == value
  {
    DataStoreInv(w, f, index, value);
    var mem' := Store(w.m.mem, f, index, value);
    LeafTableIn(w, a, v);
    WalkAgrees(false, w.m.mem, w.F, mem', a, v, 1);
    UserTranslate(w.m.mem, w.F, a, v);
    UserTranslate(mem', w.F, a, v);
  }

  /** vmm_map_page gives up only when no block is left. */
  lemma MapFailsOnlyWhenFull(m: Machine, root: nat, v: VPage, frame: nat, flags: Flags)
    requires PoolOk(m.pool)
    ensures var (m', ok) := MapPage(m, root, v, frame, flags); PoolOk(m'.pool) && (!ok ==> m'.pool.free == 0)
  {
    hide PoolOk;
    var (a, ok4) := EnsureTable(m, root, v.i4);
    EnsureFailsOnlyWhenFull(m, root, v.i4);
    if ok4 {
      var pdpt := Load(a.mem, root, v.i4).frame;
      var (b, ok3) := EnsureTable(a, pdpt, v.i3);
      EnsureFailsOnlyWhenFull(a, pdpt, v.i3);
      if ok3 {
        var pd := Load(b.mem, pdpt, v.i3).frame;
        AllocFailsIff(b.pool);
        AllocKeeps(b.pool);
        var e := Load(b.mem, pd, v.i2);
        var c := if e.flags.present && e.flags.huge then SplitHuge(b, pd, v.i2).0 else b;
        EnsureFailsOnlyWhenFull(c, pd, v.i2);
      }
    }
  }

  lemma EnsureFailsOnlyWhenFull(m: Machine, t: nat, i: nat)
    requires PoolOk(m.pool)
    ensures var (m', ok) := EnsureTable(m, t, i); PoolOk(m'.pool) && (!ok ==> m'.pool.free == 0)
  {
    AllocFailsIff(m.pool);
    AllocKeeps(m.pool);
  }

  // ---- vmm_prepare_user_write ----

  ghost predicate ViewSame(m: Machine, m': Machine, a: nat, v: VPage)
  {
    forall u: VPage :: UserPage(u) && u != v ==> SameView(m, m', a, u)
  }

  lemma AlreadyWritable(w: World, a: nat, v: VPage, t: nat)
    requires Inv(w) && IsRoot(w.F, a) && w.F[a].root == a && UserPage(v) && LeafTableOf(w, a, v, t)
    requires var e := Load(w.m.mem, t, v.i1); e.flags.present && e.flags.user && e.flags.writable
    ensures NowWritable(w.m, w.m, a, v) && ViewSame(w.m, w.m, a, v)
  {
    UserTranslate(w.m.mem, w.F, a, v);
    LeafReferenced(w, t, v.i1);
    SpaceKeptView(w, w, a);
  }

  lemma WritableNow(w: World, a: nat, v: VPage)
    requires Inv(w) && IsRoot(w.F, a) && UserPage(v)
    requires Translate(w.m.mem, a, v).Mapped? && Translate(w.m.mem, a, v).writable
    ensures NowWritable(w.m, w.m, a, v) && ViewSame(w.m, w.m, a, v)
  {
    LeafTableIn(w, a, v);
    UserTranslate(w.m.mem, w.F, a, v);
    var t := Walk(w.m.mem, a, v, 1).table;
    LeafUser(w, t, v.i1);
    AlreadyWritable(w, a, v, t);
  }

  lemma PrepareOneOpens(w: World, a: nat, v: VPage)
    requires Inv(w) && IsRoot(w.F, a) && UserPage(v)
    ensures var (m', ok) := PrepareOne(w.m, a, v);
            && Inv(w.(m := m')) && OthersKept(w, w.(m := m'), a)
            && (ok ==> NowWritable(w.m, m', a, v) && ViewSame(w.m, m', a, v))
  {
    LeafTableIn(w, a, v);
    var c := Walk(w.m.mem, a, v, 1);
    if c.Reached? && Load(w.m.mem, c.table, v.i1).flags.present && Load(w.m.mem, c.table, v.i1).flags.user {
      if Load(w.m.mem, c.table, v.i1).flags.writable {
        AlreadyWritable(w, a, v, c.table);
      } else {
        hide Inv;
        CowFaultInv(w, a, v);
        if CowFault(w.m, a, v).1 {
          CowFaultOpens(w, a, v);
        }
      }
    }
  }

  /** `at` numbers distinct user pages. */
  ghost predicate Numbering(at: nat -> VPage, first: nat, last: nat)
  {
    && (forall n :: first <= n <= last ==> UserPage(at(n)))
    && (forall n, k :: first <= n < k <= last ==> at(n) != at(k))
  }

  ghost predicate RangeOpened(m: Machine, m': Machine, a: nat, at: nat -> VPage, first: nat, last: nat)
  {
    && (forall n :: first <= n <= last ==> NowWritable(m, m', a, at(n)))
    && (forall u: VPage :: UserPage(u) && (forall n :: first <= n <= last ==> at(n) != u) ==> SameView(m, m', a, u))
  }

  /** When the preparation of a range succeeds, every page of it can be written and reads as before, and
      every page outside it is unchanged; other spaces notice nothing, even when it fails half-way. */
  lemma {:induction false} PrepareOpensRange(w: World, a: nat, at: nat -> VPage, first: nat, last: nat)
    requires Inv(w) && IsRoot(w.F, a) && first <= last && Numbering(at, first, last)
    ensures var (m', ok) := Prepare(w.m, a, at, first, last);
            StepOk(w, w.(m := m'), a) && (ok ==> RangeOpened(w.m, m', a, at, first, last))
    decreases last - first
  {
    hide Prepare, PrepareOne, Inv, RangeOpened;
    var (m1, ok1) := PrepareOne(w.m, a, at(first));
    var w1 := w.(m := m1);
    PrepareOneStep(w, a, at(first));
    PrepareUnfold(w.m, a, at, first, last);
    if ok1 && first < last {
      PrepareOpensRange(w1, a, at, first + 1, last);
      var (m', ok) := Prepare(m1, a, at, first + 1, last);
      StepOkTrans(w, w1, w1.(m := m'), a);
      if ok {
        RangeExtends(w.m, m1, m', a, at, first, last);
      }
    } else if ok1 {
      RangeSingle(w.m, m1, a, at, first);
    }
  }

  lemma RangeSingle(m: Machine, m': Machine, a: nat, at: nat -> VPage, n: nat)
    requires NowWritable(m, m', a, at(n)) && ViewSame(m, m', a, at(n))
    ensures RangeOpened(m, m', a, at, n, n)
  {
    forall u: VPage | UserPage(u) && (forall k :: n <= k <= n ==> at(k) != u) ensures SameView(m, m', a, u) {
      assert at(n) != u;
    }
  }

  lemma PrepareUnfold(m: Machine, a: nat, at: nat -> VPage, first: nat, last: nat)
    requires first <= last
    ensures Prepare(m, a, at, first, last) ==
              var (m1, ok) := PrepareOne(m, a, at(first));
              if ok && first < last then Prepare(m1, a, at, first + 1, last) else (m1, ok)
  {
  }

  lemma PrepareOneStep(w: World, a: nat, v: VPage)
    requires Inv(w) && IsRoot(w.F, a) && UserPage(v)
    ensures var (m', ok) := PrepareOne(w.m, a, v);
            && StepOk(w, w.(m := m'), a)
            && (ok ==> NowWritable(w.m, m', a, v) && ViewSame(w.m, m', a, v))
  {
    PrepareOneOpens(w, a, v);
    OthersStepOk(w, w.(m := PrepareOne(w.m, a, v).0), a);
  }

  lemma RangeExtends(m: Machine, m1: Machine, m': Machine, a: nat, at: nat -> VPage, first: nat, last: nat)
    requires first < last && Numbering(at, first, last)
    requires NowWritable(m, m1, a, at(first)) && ViewSame(m, m1, a, at(first))
    requires RangeOpened(m1, m', a, at, first + 1, last)
    ensures RangeOpened(m, m', a, at, first, last)
  {
    forall n | first <= n <= last ensures NowWritable(m, m', a, at(n)) {
      if n == first {
        assert SameView(m1, m', a, at(first));
      } else {
        assert SameView(m, m1, a, at(n)) && NowWritable(m1, m', a, at(n));
      }
    }
    forall u: VPage | UserPage(u) && (forall n :: first <= n <= last ==> at(n) != u) ensures SameView(m, m', a, u) {
      assert at(first) != u;
      assert SameView(m, m1, a, u) && SameView(m1, m', a, u);
    }
  }

  /** Page numbers of the user half name distinct user pages. */
  lemma PagesAreNumbered(first: nat, last: nat)
    requires USER_SPACE_START / 4096 <= first && last < USER_SPACE_END / 4096
    ensures Numbering(PageAt, first, last)
  {
    forall n | first <= n <= last ensures UserPage(PageAt(n)) {
      UserPageNumber(n);
    }
    forall n, k | first <= n < k <= last ensures PageAt(n) != PageAt(k) {
      if PageAt(n) == PageAt(k) { PageAtInjective(n, k); }
    }
  }

  /** The page numbers the kernel accepts as user pages are exactly those of the user slots. */
  lemma UserPageNumber(n: nat)
    requires n < 0x10_0000_0000
    ensures UserPage(PageAt(n)) <==> USER_SPACE_START / 4096 <= n < USER_SPACE_END / 4096
  {
    PageNumber(n);
  }
}
