/** What holds in every run of the process operations from boot: while the machine has not halted exactly one process
    runs, and whoever waits has a child to wait for. */
module ProcessLaws {
  import opened Options
  import opened Scheduler
  import opened SchedulerRuns
  import opened SchedulerReach

  /** The current process runs, no other does, and none is paused. */
  predicate OneRuns(k: Kernel)
    requires KernelOk(k)
  {
    && k.ps[k.current].status == Running
    && forall i :: 0 <= i < MAX_PROCESSES && i != k.current ==> k.ps[i].status != Running && k.ps[i].status != Paused
  }

  /** Processes have distinct numbers, younger than those of their parents. */
  predicate Numbered(k: Kernel)
    requires KernelOk(k)
  {
    && (forall i :: 0 <= i < MAX_PROCESSES && k.ps[i].status != Dead ==> k.ids[i].parent < k.ids[i].pid < k.nextPid)
    && (forall i, j :: 0 <= i < j < MAX_PROCESSES && k.ps[i].status != Dead && k.ps[j].status != Dead ==>
          k.ids[i].pid != k.ids[j].pid)
  }

  /** Slot `c` holds a process that has not exited and whose exit slot `w` awaits. */
  predicate AwaitedBy(k: Kernel, c: nat, w: nat)
    requires KernelOk(k) && c < MAX_PROCESSES && w < MAX_PROCESSES
  {
    && k.ps[c].status != Dead && k.ps[c].status != Zombie
    && k.ids[c].parent == k.ids[w].pid && Matches(k.ids[w].target, k.ids[c].pid)
  }

  predicate WaitersHaveChildren(k: Kernel)
    requires KernelOk(k)
  {
    forall w :: 0 <= w < MAX_PROCESSES && k.ps[w].status == Waiting ==>
      exists c :: 0 <= c < MAX_PROCESSES && AwaitedBy(k, c, w)
  }

  predicate Lively(k: Kernel)
  {
    KernelOk(k) && (!k.halted ==> OneRuns(k) && Numbered(k) && WaitersHaveChildren(k))
  }

  // Each operation

  /** Giving up the processor moves it from one process to another, or leaves it. */
  lemma YieldMoves(ps: Table, current: nat)
    requires current < MAX_PROCESSES && ps[current].status == Running
    ensures var (ps1, next) := Yield(ps, current);
            && (next != current ==> ps[next].status == Ready)
            && forall i :: 0 <= i < MAX_PROCESSES ==>
                 ps1[i].status == if i == next then Running else if i == current then Ready else ps[i].status
  {
    hide Scan;
    var ps0: Table := ps[current := ps[current].(status := Ready)];
    SelectInRange(ps0, current);
    SelectedIsReady(ps0, current);
  }

  lemma YieldLively(k: Kernel)
    requires Lively(k) && !k.halted
    ensures var (ps, next) := Yield(k.ps, k.current); Lively(k.(ps := ps, current := next))
  {
    hide Yield;
    YieldMoves(k.ps, k.current);
    var (ps, next) := Yield(k.ps, k.current);
    var k1 := k.(ps := ps, current := next);
    forall w | 0 <= w < MAX_PROCESSES && k1.ps[w].status == Waiting
      ensures exists c :: 0 <= c < MAX_PROCESSES && AwaitedBy(k1, c, w)
    {
      var c :| 0 <= c < MAX_PROCESSES && AwaitedBy(k, c, w);
      assert AwaitedBy(k1, c, w);
    }
  }

  lemma ForkLively(k: Kernel, throttled: bool, memory: bool)
    requires Lively(k) && !k.halted
    ensures Lively(Fork(k, throttled, memory))
  {
    hide FirstDead;
    var k1 := Fork(k, throttled, memory);
    forall w | 0 <= w < MAX_PROCESSES && k1.ps[w].status == Waiting
      ensures exists c :: 0 <= c < MAX_PROCESSES && AwaitedBy(k1, c, w)
    {
      var c :| 0 <= c < MAX_PROCESSES && AwaitedBy(k, c, w);
      assert AwaitedBy(k1, c, w);
    }
  }

  /** A fork gives the lowest dead slot to a ready child with a number of its own, throttled as the policy says; without
      such a slot nothing happens, and without memory only the number is spent. */
  lemma ForkEffects(k: Kernel, throttled: bool, memory: bool)
    requires Lively(k) && !k.halted
    ensures var r := Fork(k, throttled, memory);
            if forall i :: 0 <= i < MAX_PROCESSES ==> k.ps[i].status != Dead then r == k
            else exists c :: 0 <= c < MAX_PROCESSES && Born(k, r, c, throttled, memory)
  {
    hide FirstDead;
    if exists i :: 0 <= i < MAX_PROCESSES && k.ps[i].status == Dead {
      assert Born(k, Fork(k, throttled, memory), FirstDead(k.ps, 0), throttled, memory);
    }
  }

  predicate Born(k: Kernel, r: Kernel, c: nat, throttled: bool, memory: bool)
    requires KernelOk(k) && KernelOk(r) && c < MAX_PROCESSES
  {
    && k.ps[c].status == Dead && (forall i :: 0 <= i < c ==> k.ps[i].status != Dead)
    && r.current == k.current && r.nextPid == k.nextPid + 1 && r.halted == k.halted
    && (forall i :: 0 <= i < MAX_PROCESSES && i != c ==> r.ps[i] == k.ps[i] && r.ids[i] == k.ids[i])
    && (if memory
        then r.ps[c] == Process(Ready, throttled, 0) && r.ids[c] == Id(k.nextPid, k.ids[k.current].pid, None)
        else r.ps[c].status == Dead)
  }

  /** Slot `c` is the lowest with a child of the current process that has that status and matches the request. */
  predicate LowestChild(k: Kernel, target: Option<nat>, status: Status, c: nat)
    requires KernelOk(k)
  {
    && c < MAX_PROCESSES && ChildWith(k, target, status, c)
    && forall i :: 0 <= i < c ==> !ChildWith(k, target, status, i)
  }

  predicate ChildWith(k: Kernel, target: Option<nat>, status: Status, i: nat)
    requires KernelOk(k) && i < MAX_PROCESSES
  {
    && k.ps[i].status == status && k.ids[i].parent == k.ids[k.current].pid
    && (target.Some? ==> target.value == k.ids[i].pid)
  }

  /** wait4 frees the slot of the lowest matching zombie. Without one it does nothing if told not to block or if no
      matching child is ready, and otherwise waits and lets the lowest such child run. */
  lemma WaitEffects(k: Kernel, target: Option<nat>, nohang: bool)
    requires Lively(k) && !k.halted
    ensures var me, r := k.current, Wait(k, target, nohang);
            var zombie, ready := FirstAwaited(k, target, Zombie, 0), FirstAwaited(k, target, Ready, 0);
            if exists i :: 0 <= i < MAX_PROCESSES && ChildWith(k, target, Zombie, i)
            then LowestChild(k, target, Zombie, zombie)
                 && r == k.(ps := k.ps[zombie := Process(Dead, false, 0)], ids := k.ids[zombie := Id(0, 0, None)])
            else if !nohang && exists i :: 0 <= i < MAX_PROCESSES && ChildWith(k, target, Ready, i)
            then LowestChild(k, target, Ready, ready) && ready != me
                 && r.current == ready && r.ps[ready] == k.ps[ready].(status := Running)
                 && r.ps[me] == k.ps[me].(status := Waiting) && r.ids == k.ids[me := k.ids[me].(target := target)]
                 && forall i :: 0 <= i < MAX_PROCESSES && i != me && i != ready ==> r.ps[i] == k.ps[i]
            else r == k
  {
    hide FirstAwaited, ChildWith, LowestChild, Numbered, WaitersHaveChildren;
    LowestIs(k, target, Zombie);
    LowestIs(k, target, Ready);
    NoneIsZero(k, target);
  }

  lemma LowestIs(k: Kernel, target: Option<nat>, status: Status)
    requires KernelOk(k) && status != Dead
    ensures var c := FirstAwaited(k, target, status, 0);
            if exists i :: 0 <= i < MAX_PROCESSES && ChildWith(k, target, status, i)
            then c < MAX_PROCESSES && LowestChild(k, target, status, c) && k.ps[c].status == status
            else c == MAX_PROCESSES
  {
    hide FirstAwaited;
    forall i | 0 <= i < MAX_PROCESSES
      ensures ChildWith(k, target, status, i) <==> Awaited(k, target, i) && k.ps[i].status == status
    {
    }
  }

  /** No process has number 0. */
  lemma NoneIsZero(k: Kernel, target: Option<nat>)
    requires Lively(k) && !k.halted
    ensures target == Some(0) ==>
              forall status, i :: 0 <= i < MAX_PROCESSES && status != Dead ==> !ChildWith(k, target, status, i)
  {
    hide WaitersHaveChildren, OneRuns;
  }

  lemma WaitLively(k: Kernel, target: Option<nat>, nohang: bool)
    requires Lively(k) && !k.halted
    ensures Lively(Wait(k, target, nohang))
  {
    hide FirstAwaited;
    var k1 := Wait(k, target, nohang);
    var ready := FirstAwaited(k, target, Ready, 0);
    forall w | 0 <= w < MAX_PROCESSES && k1.ps[w].status == Waiting
      ensures exists c :: 0 <= c < MAX_PROCESSES && AwaitedBy(k1, c, w)
    {
      if k.ps[w].status == Waiting {
        var c :| 0 <= c < MAX_PROCESSES && AwaitedBy(k, c, w);
        assert AwaitedBy(k1, c, w);
      } else {
        assert AwaitedBy(k1, ready, w);
      }
    }
  }

  /** What an exit does, by the state of the parent: the child of a parent that waits for it is gone, that of any other
      parent stays behind as a zombie, and either parent gets the processor; without a living parent all halts. */
  lemma ExitEffects(k: Kernel)
    requires Lively(k) && !k.halted
    ensures var me, parent, r := k.current, Parent(k), Exit(k);
            && r.nextPid == k.nextPid && (parent == MAX_PROCESSES || k.ps[parent].status == Zombie ==> r.halted)
            && (parent < MAX_PROCESSES && k.ps[parent].status != Zombie ==>
                  && !r.halted && r.current == parent != me
                  && r.ps[parent] == k.ps[parent].(status := Running) && r.ids[parent] == k.ids[parent].(target := None)
                  && (k.ps[parent].status == Waiting && Matches(k.ids[parent].target, k.ids[me].pid) ==>
                        r.ps[me] == NOBODY && r.ids[me] == NO_ID)
                  && (k.ps[parent].status == Ready || !Matches(k.ids[parent].target, k.ids[me].pid) ==>
                        r.ps[me] == k.ps[me].(status := Zombie) && r.ids[me] == k.ids[me])
                  && forall i :: 0 <= i < MAX_PROCESSES && i != me && i != parent ==>
                       r.ps[i] == k.ps[i] && r.ids[i] == k.ids[i])
  {
    hide FindPid;
  }

  lemma ExitLively(k: Kernel)
    requires Lively(k) && !k.halted
    ensures Lively(Exit(k))
  {
    hide FindPid, Exit;
    ExitEffects(k);
    var r, parent := Exit(k), Parent(k);
    if !r.halted {
      forall w | 0 <= w < MAX_PROCESSES && r.ps[w].status == Waiting
        ensures exists c :: 0 <= c < MAX_PROCESSES && AwaitedBy(r, c, w)
      {
        var c :| 0 <= c < MAX_PROCESSES && AwaitedBy(k, c, w);
        assert AwaitedBy(r, c, w);
      }
    }
  }

  lemma ActLively(k: Kernel, e: Event)
    requires Lively(k)
    ensures Lively(Act(k, e))
  {
    hide Lively, Yield, Fork, Exit, Wait;
    assert KernelOk(k) by { LivelyOk(k); }
    if !k.halted {
      match e {
        case Tick =>
          assert k.ps[k.current].status == Running by { LivelyOk(k); }
          YieldLively(k);
        case Schedule => YieldLively(k);
        case Forks(throttled, memory) => ForkLively(k, throttled, memory);
        case Exits => ExitLively(k);
        case Waits(target, nohang) => WaitLively(k, target, nohang);
      }
    }
  }

  lemma LivelyOk(k: Kernel)
    requires Lively(k)
    ensures KernelOk(k) && (!k.halted ==> k.ps[k.current].status == Running)
  {
  }

  lemma {:induction false} RunKeepsLively(k: Kernel, events: seq<Event>)
    requires Lively(k)
    ensures KernelOk(k) && Lively(Run(k, events))
    decreases |events|
  {
    hide Lively, Act;
    assert KernelOk(k) by { LivelyOk(k); }
    if events != [] {
      ActLively(k, events[0]);
      RunKeepsLively(Act(k, events[0]), events[1..]);
    }
  }

  /** From boot on, until the machine halts, the current process runs and no other does, and every process that waits
      waits for a child that has not exited. */
  lemma BootedRunsAreLively(events: seq<Event>)
    ensures Lively(Run(Booted(), events))
  {
    assert Lively(Booted());
    RunKeepsLively(Booted(), events);
  }
}
