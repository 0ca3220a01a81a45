/** From boot on the kernel can reach, for any process and any parent with a child nearer to it, a state in which that
    parent and child starve the process. */
module SchedulerReach {
  import opened Options
  import opened Scheduler
  import opened SchedulerRuns

  /** init_process: only slot 0 is in use. */
  function Booted(): (k: Kernel)
    ensures KernelOk(k)
  {
    Kernel(seq(MAX_PROCESSES, i => if i == 0 then Process(Running, false, 0) else NOBODY),
      seq(MAX_PROCESSES, i => if i == 0 then Id(1, 0, None) else NO_ID), 0, 2, false)
  }

  ghost predicate Reached(k: Kernel)
  {
    exists events :: k == Run(Booted(), events)
  }

  lemma {:induction false} RunThen(k: Kernel, events: seq<Event>, e: Event)
    requires KernelOk(k)
    ensures Run(k, events + [e]) == Act(Run(k, events), e)
    decreases |events|
  {
    hide Act;
    if events == [] {
      assert [e][1..] == [];
    } else {
      assert (events + [e])[1..] == events[1..] + [e];
      RunThen(Act(k, events[0]), events[1..], e);
    }
  }

  lemma ReachedAct(k: Kernel, e: Event)
    requires Reached(k)
    ensures KernelOk(k) && Reached(Act(k, e))
  {
    var events :| k == Run(Booted(), events);
    RunThen(Booted(), events, e);
  }

  lemma ReachedBoot()
    ensures Reached(Booted())
  {
    assert Booted() == Run(Booted(), []);
  }

  /** The first `n` slots are in use, with their first processes, and no others. */
  ghost predicate Filled(k: Kernel, n: nat)
  {
    && Reached(k) && KernelOk(k) && !k.halted && k.current < n <= MAX_PROCESSES && k.nextPid == n + 1
    && k.ps[k.current].status == Running
    && (forall i :: 0 <= i < n ==> k.ids[i].pid == i + 1 && k.ps[i].status != Dead && !k.ps[i].throttled
                                   && k.ps[i].phase == 0)
    && (forall i :: n <= i < MAX_PROCESSES ==> k.ps[i].status == Dead)
  }

  /** All of them but the current one are ready, and those from slot `from` on are its children. */
  ghost predicate Crowd(k: Kernel, n: nat, from: nat)
  {
    && Filled(k, n) && (forall i :: 0 <= i < n && i != k.current ==> k.ps[i].status == Ready)
    && (forall i :: from <= i < n ==> k.ids[i].parent == k.current + 1)
  }

  lemma ForkOne(k: Kernel, n: nat, from: nat)
    requires Crowd(k, n, from) && k.current < from <= n < MAX_PROCESSES
    ensures Crowd(Act(k, Forks(false, true)), n + 1, from) && Act(k, Forks(false, true)).current == k.current
  {
    hide Reached, FirstDead;
    ReachedAct(k, Forks(false, true));
    assert k.ps[n].status == Dead && FirstDead(k.ps, 0) == n;
  }

  lemma {:induction false} ForkMany(k: Kernel, n: nat, from: nat, m: nat) returns (k': Kernel)
    requires Crowd(k, n, from) && k.current < from <= n <= m <= MAX_PROCESSES
    ensures Crowd(k', m, from) && k'.current == k.current
    decreases m - n
  {
    hide Crowd, Act;
    if n == m {
      k' := k;
    } else {
      assert KernelOk(k) by { CrowdOk(k, n, from); }
      ForkOne(k, n, from);
      k' := ForkMany(Act(k, Forks(false, true)), n + 1, from, m);
    }
  }

  lemma CrowdOk(k: Kernel, n: nat, from: nat)
    requires Crowd(k, n, from)
    ensures KernelOk(k)
  {
  }

  lemma NextIsNearest(current: nat, n: nat, i: nat)
    requires current + 1 < n <= MAX_PROCESSES && i < MAX_PROCESSES
    ensures Distance(current, current + 1) <= Distance(current, i)
  {
  }

  lemma TickOne(k: Kernel, n: nat)
    requires Crowd(k, n, n) && k.current + 1 < n
    ensures Crowd(Act(k, Tick), n, n) && Act(k, Tick).current == k.current + 1
  {
    hide Reached, Distance, Act;
    ReachedAct(k, Tick);
    forall i | 0 <= i < MAX_PROCESSES ensures Distance(k.current, k.current + 1) <= Distance(k.current, i) {
      NextIsNearest(k.current, n, i);
    }
    TickPicks(k, k.current + 1);
  }

  lemma {:induction false} TickMany(k: Kernel, n: nat, b: nat) returns (k': Kernel)
    requires Crowd(k, n, n) && k.current <= b < n
    ensures Crowd(k', n, n) && k'.current == b
    decreases b - k.current
  {
    hide Crowd, Act;
    if k.current == b {
      k' := k;
    } else {
      assert KernelOk(k) by { CrowdOk(k, n, n); }
      TickOne(k, n);
      k' := TickMany(Act(k, Tick), n, b);
    }
  }

  lemma BootedCrowd()
    ensures Crowd(Booted(), 1, 1)
  {
    ReachedBoot();
  }

  // A child above its parent

  /** All slots are in use; slots b + 1 to m hold zombies and all others but `b` are ready. */
  ghost predicate Thinned(k: Kernel, b: nat, m: nat)
  {
    && Filled(k, MAX_PROCESSES) && k.current == b <= m < MAX_PROCESSES
    && (forall i :: b < i < MAX_PROCESSES ==> k.ids[i].parent == b + 1)
    && (forall i :: 0 <= i < MAX_PROCESSES && i != b ==> k.ps[i].status == if b < i <= m then Zombie else Ready)
  }

  /** The exit of the current process hands the processor to its ready or waiting parent. */
  lemma ExitHands(k: Kernel, n: nat, b: nat)
    requires Filled(k, n) && b < n && b != k.current && k.ids[k.current].parent == b + 1
    requires k.ps[b].status == Ready || (k.ps[b].status == Waiting && k.ids[b].target.Some?
                                         && k.ids[b].target != Some(k.current + 1))
    ensures Act(k, Exits) == k.(current := b, ids := k.ids[b := k.ids[b].(target := None)],
              ps := k.ps[k.current := k.ps[k.current].(status := Zombie)][b := k.ps[b].(status := Running)])
  {
    hide Reached, FindPid;
    ParentIs(k, b);
  }

  lemma ThinOne(k: Kernel, b: nat, m: nat)
    requires Thinned(k, b, m) && m + 1 < MAX_PROCESSES
    ensures Thinned(Act(Act(k, Tick), Exits), b, m + 1)
  {
    hide Reached, Distance, Act;
    forall i | 0 <= i < MAX_PROCESSES && k.ps[i].status == Ready ensures Distance(b, m + 1) <= Distance(b, i) {
      Above(b, m + 1, i);
    }
    TickPicks(k, m + 1);
    ReachedAct(k, Tick);
    var k1 := Act(k, Tick);
    ExitHands(k1, MAX_PROCESSES, b);
    ReachedAct(k1, Exits);
  }

  /** Seen from `b`, slots above it come before slots from there on and before those up to `b`. */
  lemma Above(b: nat, x: nat, i: nat)
    requires b < x < MAX_PROCESSES && i < MAX_PROCESSES && (i <= b || x <= i)
    ensures Distance(b, x) <= Distance(b, i) && (Distance(b, x) == Distance(b, i) ==> i == x)
  {
  }

  lemma {:induction false} ThinMany(k: Kernel, b: nat, m: nat, a: nat) returns (k': Kernel)
    requires Thinned(k, b, m) && m <= a < MAX_PROCESSES
    ensures Thinned(k', b, a)
    decreases a - m
  {
    hide Thinned, Act;
    if m == a {
      k' := k;
    } else {
      assert KernelOk(k) by { ThinnedOk(k, b, m); }
      ThinOne(k, b, m);
      k' := ThinMany(Act(Act(k, Tick), Exits), b, m + 1, a);
    }
  }

  lemma ThinnedOk(k: Kernel, b: nat, m: nat)
    requires Thinned(k, b, m)
    ensures KernelOk(k)
  {
  }

  /** wait4 for the zombie in slot `x` frees that slot. */
  lemma WaitFrees(k: Kernel, x: nat)
    requires KernelOk(k) && !k.halted && x < MAX_PROCESSES && k.ids[x].parent == k.ids[k.current].pid
    requires k.ps[x].status == Zombie
    requires forall i :: 0 <= i < MAX_PROCESSES && k.ps[i].status != Dead ==> k.ids[i].pid == i + 1
    ensures Act(k, Waits(Some(x + 1), false)) == k.(ps := k.ps[x := NOBODY], ids := k.ids[x := NO_ID])
  {
    hide FirstAwaited;
    AwaitedIs(k, Some(x + 1), Zombie, x);
  }

  lemma ReachAbove(p: nat, a: nat, b: nat) returns (k: Kernel)
    requires p < MAX_PROCESSES && b < a < MAX_PROCESSES && p != a && p != b && Distance(a, p) < Distance(b, p)
    ensures Reached(k) && Cornered(k, p, a, b)
  {
    hide Reached, Act;
    BootedCrowd();
    var k1 := ForkMany(Booted(), 1, 1, b + 1);
    var k2 := TickMany(k1, b + 1, b);
    var k3 := ForkMany(k2, b + 1, b + 1, MAX_PROCESSES);
    var k4 := ThinMany(k3, b, b, a);
    WaitFrees(k4, a);
    ReachedAct(k4, Waits(Some(a + 1), false));
    k := Act(k4, Waits(Some(a + 1), false));
    FreedAbove(k4, p, a, b);
  }

  lemma NotBetween(p: nat, a: nat, b: nat)
    requires p < MAX_PROCESSES && b < a < MAX_PROCESSES && p != a && p != b && Distance(a, p) < Distance(b, p)
    ensures p < b || a < p
  {
  }

  lemma FreedAbove(k: Kernel, p: nat, a: nat, b: nat)
    requires p < MAX_PROCESSES && b < a < MAX_PROCESSES && p != a && p != b && Distance(a, p) < Distance(b, p)
    requires Thinned(k, b, a)
    ensures Cornered(k.(ps := k.ps[a := NOBODY], ids := k.ids[a := NO_ID]), p, a, b)
  {
    hide Reached, Distance;
    var k1 := k.(ps := k.ps[a := NOBODY], ids := k.ids[a := NO_ID]);
    NotBetween(p, a, b);
    forall i | 0 <= i < MAX_PROCESSES && k1.ps[i].status == Ready ensures Distance(b, a) < Distance(b, i) {
      Above(b, a, i);
    }
  }

  // A child below its parent

  /** Slot 0 waits for `b`, which runs; slots 1 to m hold zombies and the others below `b` are ready. */
  ghost predicate Held(k: Kernel, b: nat, m: nat)
  {
    && Filled(k, b + 1) && k.current == b && m < b && k.ps[0].status == Waiting && k.ids[0].target == Some(b + 1)
    && (forall i :: 1 <= i < b ==> k.ps[i].status == if i <= m then Zombie else Ready)
    && (forall i :: 1 <= i <= b ==> k.ids[i].parent == 1)
  }

  /** wait4 for the ready child in slot `x` hands the processor to it. */
  lemma WaitHands(k: Kernel, x: nat)
    requires KernelOk(k) && !k.halted && x < MAX_PROCESSES && k.ids[x].parent == k.ids[k.current].pid
    requires k.ps[x].status == Ready && x != k.current
    requires forall i :: 0 <= i < MAX_PROCESSES && k.ps[i].status != Dead ==> k.ids[i].pid == i + 1
    ensures var c := k.current;
            Act(k, Waits(Some(x + 1), false)) == k.(current := x, ids := k.ids[c := k.ids[c].(target := Some(x + 1))],
              ps := k.ps[c := k.ps[c].(status := Waiting)][x := k.ps[x].(status := Running)])
  {
    hide FirstAwaited;
    AwaitedIs(k, Some(x + 1), Ready, x);
    assert FirstAwaited(k, Some(x + 1), Zombie, 0) == MAX_PROCESSES;
  }

  /** Seen from `b`, lower slots come in order, and before those between them and `b`. */
  lemma Below(b: nat, x: nat, i: nat)
    requires x < b < MAX_PROCESSES && i <= b && x <= i
    ensures Distance(b, x) <= Distance(b, i) && (Distance(b, x) == Distance(b, i) ==> i == x)
  {
  }

  /** The next child of slot 0 runs, exits and so wakes slot 0. */
  lemma Wake(k: Kernel, b: nat, m: nat) returns (k': Kernel)
    requires Held(k, b, m) && m + 1 < b
    ensures Reached(k')
    ensures k' == k.(current := 0, ids := k.ids[0 := k.ids[0].(target := None)],
      ps := k.ps[b := k.ps[b].(status := Ready)][m + 1 := k.ps[m + 1].(status := Zombie)]
                [0 := k.ps[0].(status := Running)])
  {
    hide Reached, Distance, Act;
    forall i | 0 <= i < MAX_PROCESSES && k.ps[i].status == Ready ensures Distance(b, m + 1) <= Distance(b, i) {
      Below(b, m + 1, i);
    }
    TickPicks(k, m + 1);
    ReachedAct(k, Tick);
    var k1 := Act(k, Tick);
    ExitHands(k1, b + 1, 0);
    ReachedAct(k1, Exits);
    k' := Act(k1, Exits);
  }

  lemma HoldOne(k: Kernel, b: nat, m: nat) returns (k': Kernel)
    requires Held(k, b, m) && m + 1 < b
    ensures Held(k', b, m + 1)
  {
    hide Reached, Distance, Act;
    var k1 := Wake(k, b, m);
    WaitHands(k1, b);
    ReachedAct(k1, Waits(Some(b + 1), false));
    k' := Act(k1, Waits(Some(b + 1), false));
  }

  lemma {:induction false} HoldMany(k: Kernel, b: nat, m: nat, n: nat) returns (k': Kernel)
    requires Held(k, b, m) && m <= n < b
    ensures Held(k', b, n)
    decreases n - m
  {
    hide Held;
    if m == n {
      k' := k;
    } else {
      var k1 := HoldOne(k, b, m);
      k' := HoldMany(k1, b, m + 1, n);
    }
  }

  lemma Nearer(p: nat, a: nat, b: nat)
    requires a < p < b < MAX_PROCESSES
    ensures Distance(a, p) < Distance(b, p)
  {
  }

  lemma ReachBelow(p: nat, a: nat, b: nat) returns (k: Kernel)
    requires 0 < a < p < b < MAX_PROCESSES
    ensures Reached(k) && Cornered(k, p, a, b)
  {
    hide Reached, Act, Distance;
    BootedCrowd();
    var k1 := ForkMany(Booted(), 1, 1, b + 1);
    WaitHands(k1, b);
    ReachedAct(k1, Waits(Some(b + 1), false));
    var k2 := HoldMany(Act(k1, Waits(Some(b + 1), false)), b, 0, a - 1);
    var k3 := Wake(k2, b, a - 1);
    WaitFrees(k3, a);
    ReachedAct(k3, Waits(Some(a + 1), false));
    var k4 := Act(k3, Waits(Some(a + 1), false));
    WaitHands(k4, b);
    ReachedAct(k4, Waits(Some(b + 1), false));
    k := Act(k4, Waits(Some(b + 1), false));
    assert Distance(a, p) < Distance(b, p) by { Nearer(p, a, b); }
    forall i | 0 <= i < MAX_PROCESSES && k.ps[i].status == Ready ensures Distance(b, a) < Distance(b, i) {
      Below(b, a, i);
    }
  }

  /** For every process and every retreat from a slot other than 0 there is a run from boot after which the process is
      cornered. */
  lemma CorneredFromBoot(p: nat, a: nat, b: nat) returns (k: Kernel)
    requires p < MAX_PROCESSES && 0 < a < MAX_PROCESSES && b < MAX_PROCESSES && p != a && p != b
    requires Distance(a, p) < Distance(b, p)
    ensures Reached(k) && Cornered(k, p, a, b)
  {
    if b < a {
      k := ReachAbove(p, a, b);
    } else {
      assert a < p < b;
      k := ReachBelow(p, a, b);
    }
  }

  /** Bounded waiting from boot on, exactly: process 0 never exits, and whatever handoffs the others make, how often a
      ready process can be passed over is bounded if and only if none takes the processor farther from it. */
  lemma BootBoundedIff(p: nat, hands: set<(nat, nat)>)
    requires p < MAX_PROCESSES && forall h :: h in hands ==> h.0 != 0
    ensures (exists bound :: KernelBoundedBy(p, hands, FromBoot(), bound)) <==> NoneRetreats(p, hands)
  {
    hide KernelBoundedBy;
    if NoneRetreats(p, hands) {
      EnoughForKernel(p, hands, FromBoot());
    } else {
      var h :| h in hands && h.0 < MAX_PROCESSES && h.1 < MAX_PROCESSES && h.0 != p && h.1 != p
        && Distance(h.1, p) > Distance(h.0, p);
      var k := CorneredFromBoot(p, h.0, h.1);
      forall bound: nat ensures !KernelBoundedBy(p, hands, FromBoot(), bound) {
        NoBoundFor(p, hands, k, h.0, h.1, bound);
      }
    }
  }

  ghost function FromBoot(): (states: iset<Kernel>)
  {
    iset k: Kernel | Reached(k)
  }
}
