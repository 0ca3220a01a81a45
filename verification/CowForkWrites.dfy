/** Stores after a fork: a page that was writable can be written on either side, and the other side does not see it. */
module CowForkWrites {
  import opened PageTables
  import opened CowSpaces
  import opened CowFork
  import opened CowRuns
  import opened CowTheorems
  import opened CowWrites

  /** Space `x` reads at `v`, in machine `now`, the page `a` had there in machine `m`, but for one word. */
  ghost predicate ReadsStored(m: Machine, a: nat, now: Machine, x: nat, v: VPage, index: nat, value: Word)
  {
    var before, after := Translate(m.mem, a, v), Translate(now.mem, x, v);
    && before.Mapped? && after.Mapped? && before.frame < |m.mem| && after.frame < |now.mem|
    && index < |m.mem[before.frame]| && now.mem[after.frame] == m.mem[before.frame][index := value]
  }

  lemma SharedThenStored(m: Machine, m1: Machine, now: Machine, a: nat, d: nat, x: nat, v: VPage, index: nat,
          value: Word)
    requires SharedAt(m, m1, a, d, v) && Translate(m.mem, a, v).Mapped? && (x == a || x == d)
    requires Stored(m1, now, x, v, index, value)
    ensures ReadsStored(m, a, now, x, v, index, value)
  {
  }

  lemma SharedThenKept(m: Machine, m1: Machine, now: Machine, a: nat, d: nat, y: nat, v: VPage)
    requires SharedAt(m, m1, a, d, v) && SameView(m1, now, y, v) && (y == a || y == d)
    ensures ReadsPageOf(m, a, now, y, v)
  {
  }

  lemma StoreStepIs(s: System, x: nat, v: VPage, index: nat, value: Word)
    requires Good(s) && x in s.roots && UserPage(v) && index < ENTRIES && s.m.pool.free > 0
    requires Translate(s.m.mem, x, v).Mapped? && Translate(s.m.mem, x, v).flags.cow
    ensures Stored(s.m, Step(s, UserStore(x, v, index, value)).m, x, v, index, value)
  {
    hide StoreUser, Inv, Translate, Stored;
    var F :| GoodWith(s, F);
    StoreGoesThroughIff(WorldOf(s, F), x, v, index, value);
  }

  /** After a fork, with a frame free, a store by parent or child to a page the parent could write goes through: the
      storing side reads the page of the fork with that one word changed, and the other side the page of the fork. */
  lemma StoreAfterFork(s: System, a: nat, v: VPage, child: bool, index: nat, value: Word)
    requires Good(s) && a in s.roots && Fork(s.m, a, s.fixed.boot).1 != 0 && UserPage(v) && index < ENTRIES
    requires Translate(s.m.mem, a, v).Mapped? && Translate(s.m.mem, a, v).writable
    requires Fork(s.m, a, s.fixed.boot).0.pool.free > 0
    ensures var d := Fork(s.m, a, s.fixed.boot).1;
            var (x, y) := if child then (d, a) else (a, d);
            var now := Run(s, [Duplicate(a), UserStore(x, v, index, value)]).m;
            ReadsStored(s.m, a, now, x, v, index, value) && ReadsPageOf(s.m, a, now, y, v)
  {
    hide Fork, Translate, SharedAt, Step, Good;
    var (m1, d) := Fork(s.m, a, s.fixed.boot);
    var (x, y) := if child then (d, a) else (a, d);
    var store := UserStore(x, v, index, value);
    var s1 := Step(s, Duplicate(a));
    StepKeepsGood(s, Duplicate(a));
    ForkStepIs(s, a, m1, d);
    ForkShares(s, a, v);
    NewRoot(s, a);
    SharedIsCow(s, a, v, m1, d);
    StoreStepIs(s1, x, v, index, value);
    RunsAreIsolated(s1, [store], y);
    RunCons(s, Duplicate(a), [store]);
    RunCons(s1, store, []);
    assert [store] + [] == [store] && [Duplicate(a)] + [store] == [Duplicate(a), store];
    SharedThenStored(s.m, m1, Step(s1, store).m, a, d, x, v, index, value);
    SharedThenKept(s.m, m1, Step(s1, store).m, a, d, y, v);
  }

  lemma SharedIsCow(s: System, a: nat, v: VPage, m1: Machine, d: nat)
    requires Good(s) && a in s.roots && UserPage(v) && SharedAt(s.m, m1, a, d, v)
    requires Translate(s.m.mem, a, v).Mapped? && Translate(s.m.mem, a, v).writable
    ensures Translate(m1.mem, a, v).Mapped? && Translate(m1.mem, a, v).flags.cow
    ensures Translate(m1.mem, d, v) == Translate(m1.mem, a, v)
  {
    var F :| GoodWith(s, F);
    LeafTableIn(WorldOf(s, F), a, v);
    UserTranslate(s.m.mem, F, a, v);
  }

  /** The copy is a new space. */
  lemma NewRoot(s: System, a: nat)
    requires Good(s) && a in s.roots && Fork(s.m, a, s.fixed.boot).1 != 0
    ensures Fork(s.m, a, s.fixed.boot).1 !in s.roots
  {
    var F :| GoodWith(s, F);
    FreshFrame(WorldOf(s, F));
  }
}
