/** When vmm_prepare_user_write succeeds: exactly when every page of the range can be opened and there are as many free
    frames as copies it will make. */
module CowPrepare {
  import opened Pmm
  import opened PageTables
  import opened CowSpaces
  import opened CowFork
  import opened CowRuns
  import opened Vmm
  import opened CowWrites

  /** The page can be written, or becomes so when a frame is free. */
  ghost predicate Openable(m: Machine, a: nat, v: VPage)
  {
    var r := Translate(m.mem, a, v);
    r.Mapped? && r.user && (r.writable || r.flags.cow)
  }

  /** A store to the page faults into the copy-on-write handler. */
  ghost predicate Faults(m: Machine, a: nat, v: VPage)
  {
    var r := Translate(m.mem, a, v);
    r.Mapped? && !r.writable && r.flags.cow
  }

  ghost predicate Shares(m: Machine, a: nat, v: VPage)
  {
    Faults(m, a, v) && Refcount(m.pool, Translate(m.mem, a, v).frame) > 1
  }

  /** One page is prepared exactly when it can be opened, with a free frame if it is shared; otherwise nothing
      changes. */
  lemma PrepareOneIff(w: World, a: nat, v: VPage)
    requires Inv(w) && IsRoot(w.F, a) && UserPage(v)
    ensures var (m', ok) := PrepareOne(w.m, a, v);
            && (ok <==> Openable(w.m, a, v) && (Shares(w.m, a, v) ==> w.m.pool.free > 0))
            && (!ok ==> m' == w.m)
            && (ok ==> m' == if Faults(w.m, a, v) then CowFault(w.m, a, v).0 else w.m)
  {
    LeafTableIn(w, a, v);
    UserTranslate(w.m.mem, w.F, a, v);
    if Translate(w.m.mem, a, v).Mapped? {
      UserOf(w, a, v);
    }
    hide Inv, CowFault;
    CowFaultSucceedsIff(w, a, v);
  }

  // ---- What a resolved fault takes from the allocator ----

  /** A resolved fault on a shared page takes one frame and one reference of the old page; any other takes nothing. */
  ghost predicate Took(m: Machine, m': Machine, f: nat, shared: bool)
  {
    && m'.pool.free == m.pool.free - (if shared then 1 else 0)
    && forall g :: Refcount(m.pool, g) > 0 ==>
         Refcount(m'.pool, g) == Refcount(m.pool, g) - if shared && g == f then 1 else 0
  }

  lemma CopyOutTakes(m: Machine, t: nat, l: nat, flags: Flags)
    requires PoolOk(m.pool) && CopyOut(m, t, l, flags).1 && Refcount(m.pool, Load(m.mem, t, l).frame) > 1
    ensures Took(m, CopyOut(m, t, l, flags).0, Load(m.mem, t, l).frame, true)
  {
    AllocKeeps(m.pool);
    AllocFailsIff(m.pool);
    var (pool, n) := Alloc(m.pool);
    FreeKeeps(pool, Load(m.mem, t, l).frame);
    hide PoolOk;
  }

  lemma FaultTakes(w: World, a: nat, v: VPage)
    requires Inv(w) && IsRoot(w.F, a) && UserPage(v) && Faults(w.m, a, v) && CowFault(w.m, a, v).1
    ensures Took(w.m, CowFault(w.m, a, v).0, Translate(w.m.mem, a, v).frame, Shares(w.m, a, v))
  {
    LeafTableIn(w, a, v);
    UserTranslate(w.m.mem, w.F, a, v);
    var t := Walk(w.m.mem, a, v, 1).table;
    var e := Load(w.m.mem, t, v.i1);
    if Refcount(w.m.pool, e.frame) > 1 {
      CopyOutTakes(w.m, t, v.i1, Opened(e.flags));
    }
  }

  // ---- The frames a range needs ----

  /** How many pages from number `first` to `n - 1` fault on frame `f`. */
  ghost function Earlier(m: Machine, a: nat, at: nat -> VPage, first: nat, n: nat, f: nat): (r: nat)
    decreases n - first
  {
    if first >= n then 0
    else (if Faults(m, a, at(first)) && Translate(m.mem, a, at(first)).frame == f then 1 else 0)
         + Earlier(m, a, at, first + 1, n, f)
  }

  /** Page `n` is still shared when its turn comes: more references than the page itself and those before it. */
  ghost predicate Copies(m: Machine, a: nat, at: nat -> VPage, first: nat, n: nat)
  {
    Faults(m, a, at(n)) &&
    var f := Translate(m.mem, a, at(n)).frame; Refcount(m.pool, f) > 1 + Earlier(m, a, at, first, n, f)
  }

  /** How many pages from number `page` to `last` are copied. */
  ghost function Needed(m: Machine, a: nat, at: nat -> VPage, first: nat, page: nat, last: nat): (r: nat)
    decreases last + 1 - page
  {
    if page > last then 0
    else (if Copies(m, a, at, first, page) then 1 else 0) + Needed(m, a, at, first, page + 1, last)
  }

  /** Two pages of a space with one frame mean two references. */
  lemma TwoPages(w: World, a: nat, v: VPage, u: VPage)
    requires Inv(w) && IsRoot(w.F, a) && UserPage(v) && UserPage(u) && u != v
    requires Translate(w.m.mem, a, v).Mapped? && Translate(w.m.mem, a, u).Mapped?
    requires Translate(w.m.mem, a, u).frame == Translate(w.m.mem, a, v).frame
    ensures Refcount(w.m.pool, Translate(w.m.mem, a, v).frame) > 1 && !Translate(w.m.mem, a, v).writable
  {
    LeafTableIn(w, a, v);
    LeafTableIn(w, a, u);
    UserTranslate(w.m.mem, w.F, a, v);
    UserTranslate(w.m.mem, w.F, a, u);
    var t, x := Walk(w.m.mem, a, v, 1).table, Walk(w.m.mem, a, u, 1).table;
    OtherSlot(w, a, v, u, t);
    TwiceMapped(w, t, v.i1, x, u.i1);
  }

  /** The rest of the range is as before the first page was prepared. */
  ghost predicate RestSame(m: Machine, m': Machine, a: nat, at: nat -> VPage, page: nat, last: nat)
  {
    forall n :: page <= n <= last ==> Translate(m'.mem, a, at(n)) == Translate(m.mem, a, at(n))
  }

  lemma {:induction false} EarlierSame(m: Machine, m': Machine, a: nat, at: nat -> VPage, page: nat, n: nat, f: nat)
    requires RestSame(m, m', a, at, page, n)
    ensures Earlier(m', a, at, page, n, f) == Earlier(m, a, at, page, n, f)
    decreases n - page
  {
    hide Translate;
    if page < n {
      EarlierSame(m, m', a, at, page + 1, n, f);
    }
  }

  /** The same pages are copied whether the first one has been prepared or is still to be. */
  lemma CopiesSame(w: World, m': Machine, a: nat, at: nat -> VPage, first: nat, n: nat, last: nat)
    requires Inv(w) && IsRoot(w.F, a) && Numbering(at, first, last) && first < n <= last
    requires RestSame(w.m, m', a, at, first + 1, last) && Translate(w.m.mem, a, at(first)).Mapped?
    requires Took(w.m, m', Translate(w.m.mem, a, at(first)).frame, Shares(w.m, a, at(first)))
    ensures Copies(m', a, at, first + 1, n) <==> Copies(w.m, a, at, first, n)
  {
    hide Inv, Translate;
    if Faults(w.m, a, at(n)) {
      var f := Translate(w.m.mem, a, at(n)).frame;
      EarlierSame(w.m, m', a, at, first + 1, n, f);
      PageReferenced(w, a, at(n));
      if Translate(w.m.mem, a, at(first)).frame == f {
        TwoPages(w, a, at(first), at(n));
      }
    }
  }

  lemma PageReferenced(w: World, a: nat, v: VPage)
    requires Inv(w) && IsRoot(w.F, a) && UserPage(v) && Translate(w.m.mem, a, v).Mapped?
    ensures Refcount(w.m.pool, Translate(w.m.mem, a, v).frame) > 0
  {
    LeafTableIn(w, a, v);
    UserTranslate(w.m.mem, w.F, a, v);
    LeafReferenced(w, Walk(w.m.mem, a, v, 1).table, v.i1);
  }

  lemma {:induction false} NeededSame(w: World, m': Machine, a: nat, at: nat -> VPage, first: nat, page: nat, last: nat)
    requires Inv(w) && IsRoot(w.F, a) && Numbering(at, first, last) && first < page
    requires RestSame(w.m, m', a, at, first + 1, last) && Translate(w.m.mem, a, at(first)).Mapped?
    requires Took(w.m, m', Translate(w.m.mem, a, at(first)).frame, Shares(w.m, a, at(first)))
    ensures Needed(m', a, at, first + 1, page, last) == Needed(w.m, a, at, first, page, last)
    decreases last + 1 - page
  {
    hide Inv, Copies, Took, Translate;
    if page <= last {
      CopiesSame(w, m', a, at, first, page, last);
      NeededSame(w, m', a, at, first, page + 1, last);
    }
  }

  ghost predicate AllOpenable(m: Machine, a: nat, at: nat -> VPage, first: nat, last: nat)
  {
    forall n :: first <= n <= last ==> Openable(m, a, at(n))
  }

  /** A range is prepared exactly when every page of it is a mapped user page that is writable or copy-on-write, and
      there is a free frame for each page that is still shared when its turn comes. */
  lemma {:induction false} PrepareSucceedsIff(w: World, a: nat, at: nat -> VPage, first: nat, last: nat)
    requires Inv(w) && IsRoot(w.F, a) && first <= last && Numbering(at, first, last)
    ensures Prepare(w.m, a, at, first, last).1 <==>
              AllOpenable(w.m, a, at, first, last) && Needed(w.m, a, at, first, first, last) <= w.m.pool.free
    decreases last - first
  {
    hide Prepare, PrepareOne, Inv, CowFault, Translate, Openable;
    var v := at(first);
    var (m1, ok1) := PrepareOne(w.m, a, v);
    PrepareOneStep(w, a, v);
    PrepareOneIff(w, a, v);
    PrepareUnfold(w.m, a, at, first, last);
    assert Copies(w.m, a, at, first, first) <==> Shares(w.m, a, v);
    if ok1 {
      PreparedRest(w, a, at, first, last);
      NeededSame(w, m1, a, at, first, first + 1, last);
      if first < last {
        PrepareSucceedsIff(w.(m := m1), a, at, first + 1, last);
        assert AllOpenable(m1, a, at, first + 1, last) <==> AllOpenable(w.m, a, at, first + 1, last) by {
          OpenableSame(w.m, m1, a, at, first + 1, last);
        }
      }
    }
  }

  lemma OpenableSame(m: Machine, m': Machine, a: nat, at: nat -> VPage, first: nat, last: nat)
    requires RestSame(m, m', a, at, first, last)
    ensures AllOpenable(m', a, at, first, last) <==> AllOpenable(m, a, at, first, last)
  {
    hide Translate;
    forall n | first <= n <= last ensures Openable(m', a, at(n)) <==> Openable(m, a, at(n)) {
    }
  }

  lemma PreparedRest(w: World, a: nat, at: nat -> VPage, first: nat, last: nat)
    requires Inv(w) && IsRoot(w.F, a) && first <= last && Numbering(at, first, last) && PrepareOne(w.m, a, at(first)).1
    ensures var m1 := PrepareOne(w.m, a, at(first)).0;
            && RestSame(w.m, m1, a, at, first + 1, last) && Translate(w.m.mem, a, at(first)).Mapped?
            && Took(w.m, m1, Translate(w.m.mem, a, at(first)).frame, Shares(w.m, a, at(first)))
  {
    hide Prepare, PrepareOne, Inv, CowFault, Translate;
    var v := at(first);
    var m1 := PrepareOne(w.m, a, v).0;
    PrepareOneStep(w, a, v);
    PrepareOneIff(w, a, v);
    forall n | first + 1 <= n <= last ensures Translate(m1.mem, a, at(n)) == Translate(w.m.mem, a, at(n)) {
      assert at(n) != v;
      assert SameView(w.m, m1, a, at(n));
    }
    if Faults(w.m, a, v) {
      CowFaultSucceedsIff(w, a, v);
      FaultTakes(w, a, v);
    }
  }

  // ---- The ranges that are accepted ----

  const CANONICAL: nat := 0x1_0000_0000_0000

  /** The user half is exactly where a byte's page has a user slot in the root. */
  lemma UserAddresses(a: nat)
    requires a < CANONICAL
    ensures UserPage(PageAt(a / 4096)) <==> USER_SPACE_START <= a < USER_SPACE_END
  {
    var n := a / 4096;
    assert n / ENTRIES / ENTRIES / ENTRIES == a / 0x80_0000_0000;
  }

  /** A range of 48-bit addresses is accepted exactly when every byte of it is in the user half. */
  lemma AcceptedRange(virt: nat, length: nat)
    requires 0 < length && virt + length <= CANONICAL
    ensures InUserHalf(virt, length) <==> forall a :: virt <= a < virt + length ==> UserPage(PageAt(a / 4096))
  {
    forall a | virt <= a < virt + length
      ensures UserPage(PageAt(a / 4096)) <==> USER_SPACE_START <= a < USER_SPACE_END
    {
      UserAddresses(a);
    }
    if forall a :: virt <= a < virt + length ==> UserPage(PageAt(a / 4096)) {
      assert UserPage(PageAt(virt / 4096)) && UserPage(PageAt((virt + length - 1) / 4096));
    }
  }
}
