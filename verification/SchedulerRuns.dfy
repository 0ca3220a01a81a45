/** Runs of the kernel's own process operations (kernel/process.c, kernel/syscall/process_lifecycle.c), and exactly when
    waiting for the processor is bounded in them. */
module SchedulerRuns {
  import opened Options
  import opened Scheduler

  /** The fields of process_t that name a process, its parent and the child it waits for (none: any child). */
  datatype Id = Id(pid: nat, parent: nat, target: Option<nat>)

  const NOBODY := Process(Dead, false, 0)
  const NO_ID := Id(0, 0, None)

  /** `halted` after halt_forever. */
  datatype Kernel = Kernel(ps: Table, ids: seq<Id>, current: nat, nextPid: nat, halted: bool)

  predicate KernelOk(k: Kernel)
  {
    |k.ids| == MAX_PROCESSES && k.current < MAX_PROCESSES
  }

  // The operations

  /** The first dead slot from `i` on, or MAX_PROCESSES. */
  function FirstDead(ps: Table, i: nat): (slot: nat)
    requires i <= MAX_PROCESSES
    ensures i <= slot <= MAX_PROCESSES && (slot < MAX_PROCESSES ==> ps[slot].status == Dead)
    ensures forall j :: i <= j < slot ==> ps[j].status != Dead
    decreases MAX_PROCESSES - i
  {
    if i == MAX_PROCESSES || ps[i].status == Dead then i else FirstDead(ps, i + 1)
  }

  /** sys_fork; `memory` says whether the address space can be copied, `throttled` what the thermal policy decides. */
  function Fork(k: Kernel, throttled: bool, memory: bool): (r: Kernel)
    requires KernelOk(k)
    ensures KernelOk(r)
  {
    var slot := FirstDead(k.ps, 0);
    if slot == MAX_PROCESSES then k
    else
      var id := Id(k.nextPid, k.ids[k.current].pid, None);
      k.(ps := k.ps[slot := if memory then Process(Ready, throttled, 0) else NOBODY],
         ids := k.ids[slot := if memory then id else NO_ID], nextPid := k.nextPid + 1)
  }

  /** The first process from slot `i` on with that pid, or MAX_PROCESSES. */
  function FindPid(k: Kernel, pid: nat, i: nat): (slot: nat)
    requires KernelOk(k) && i <= MAX_PROCESSES
    ensures i <= slot <= MAX_PROCESSES
    ensures slot < MAX_PROCESSES ==> k.ps[slot].status != Dead && k.ids[slot].pid == pid
    ensures forall j :: i <= j < slot ==> k.ps[j].status == Dead || k.ids[j].pid != pid
    decreases MAX_PROCESSES - i
  {
    if i == MAX_PROCESSES || (k.ps[i].status != Dead && k.ids[i].pid == pid) then i else FindPid(k, pid, i + 1)
  }

  predicate Matches(target: Option<nat>, pid: nat)
  {
    target.None? || target.value == pid
  }

  function Parent(k: Kernel): (slot: nat)
    requires KernelOk(k)
    ensures slot <= MAX_PROCESSES
  {
    FindPid(k, k.ids[k.current].parent, 0)
  }

  /** process_exit_and_wake_parent of a process that is not a thread. */
  function Exit(k: Kernel): (r: Kernel)
    requires KernelOk(k)
    ensures KernelOk(r)
  {
    var me, parent := k.current, Parent(k);
    if parent < MAX_PROCESSES && k.ps[parent].status == Waiting && Matches(k.ids[parent].target, k.ids[me].pid) then
      k.(ps := k.ps[parent := k.ps[parent].(status := Running)][me := NOBODY],
         ids := k.ids[parent := k.ids[parent].(target := None)][me := NO_ID], current := parent)
    else
      var ps: Table := k.ps[me := k.ps[me].(status := Zombie)];
      if parent == MAX_PROCESSES || ps[parent].status == Zombie then k.(ps := ps, halted := true)
      else if ps[parent].status == Ready || ps[parent].status == Waiting then
        k.(ps := ps[parent := ps[parent].(status := Running)],
           ids := k.ids[parent := k.ids[parent].(target := None)], current := parent)
      else k.(ps := ps, current := parent)
  }

  /** A child of the current process in slot `i` that wait4 for `target` looks at. */
  predicate Awaited(k: Kernel, target: Option<nat>, i: nat)
    requires KernelOk(k) && i < MAX_PROCESSES
  {
    k.ps[i].status != Dead && k.ids[i].parent == k.ids[k.current].pid && Matches(target, k.ids[i].pid)
  }

  /** The first such child from slot `i` on with that status, or MAX_PROCESSES. */
  function FirstAwaited(k: Kernel, target: Option<nat>, status: Status, i: nat): (slot: nat)
    requires KernelOk(k) && i <= MAX_PROCESSES
    ensures i <= slot <= MAX_PROCESSES
    ensures slot < MAX_PROCESSES ==> Awaited(k, target, slot) && k.ps[slot].status == status
    ensures forall j :: i <= j < slot ==> !Awaited(k, target, j) || k.ps[j].status != status
    decreases MAX_PROCESSES - i
  {
    if i == MAX_PROCESSES || (Awaited(k, target, i) && k.ps[i].status == status) then i
    else FirstAwaited(k, target, status, i + 1)
  }

  /** sys_wait4: reaps the first zombie, or else waits and hands the processor to the first ready child. */
  function Wait(k: Kernel, target: Option<nat>, nohang: bool): (r: Kernel)
    requires KernelOk(k)
    ensures KernelOk(r)
  {
    var zombie, ready := FirstAwaited(k, target, Zombie, 0), FirstAwaited(k, target, Ready, 0);
    if target == Some(0) then k
    else if zombie < MAX_PROCESSES then k.(ps := k.ps[zombie := NOBODY], ids := k.ids[zombie := NO_ID])
    else if nohang || ready == MAX_PROCESSES then k
    else
      var me := k.current;
      k.(ps := k.ps[me := k.ps[me].(status := Waiting)][ready := k.ps[ready].(status := Running)],
         ids := k.ids[me := k.ids[me].(target := target)], current := ready)
  }

  /** What the current process does, or the timer to it. */
  datatype Event =
    | Tick
    | Schedule
    | Forks(throttled: bool, memory: bool)
    | Exits
    | Waits(target: Option<nat>, nohang: bool)

  function Act(k: Kernel, e: Event): (r: Kernel)
    requires KernelOk(k)
    ensures KernelOk(r)
  {
    if k.halted then k
    else
      match e
      case Tick => var (ps, next) := Preempt(k.ps, k.current); k.(ps := ps, current := next)
      case Schedule => var (ps, next) := Yield(k.ps, k.current); k.(ps := ps, current := next)
      case Forks(throttled, memory) => Fork(k, throttled, memory)
      case Exits => Exit(k)
      case Waits(target, nohang) => Wait(k, target, nohang)
  }

  function Run(k: Kernel, events: seq<Event>): (r: Kernel)
    requires KernelOk(k)
    ensures KernelOk(r)
    decreases |events|
  {
    if events == [] then k else Run(Act(k, events[0]), events[1..])
  }

  /** The selection or handoff that an event amounts to, if any. */
  function MovesOf(k: Kernel, e: Event): (moves: seq<Move>)
    requires KernelOk(k)
    ensures |moves| <= 1 && InRange(moves)
  {
    if k.halted || (e.Tick? && k.ps[k.current].status != Running) then []
    else if e.Tick? || e.Schedule? then [Selection(k.ps)]
    else if Act(k, e).current != k.current then [Handoff(Act(k, e).ps, Act(k, e).current)]
    else []
  }

  function Moves(k: Kernel, events: seq<Event>): (moves: seq<Move>)
    requires KernelOk(k)
    ensures InRange(moves)
    decreases |events|
  {
    if events == [] then [] else MovesOf(k, events[0]) + Moves(Act(k, events[0]), events[1..])
  }

  /** `p` is ready and not given the processor through the whole run. */
  predicate PassedOver(p: nat, k: Kernel, events: seq<Event>)
    requires KernelOk(k)
    decreases |events|
  {
    && p < MAX_PROCESSES && p != k.current && k.ps[p].status == Ready && k.ps[p].phase < 4
    && (events != [] ==> PassedOver(p, Act(k, events[0]), events[1..]))
  }

  // Every kernel run is a run of moves

  lemma ActPasses(p: nat, k: Kernel, e: Event)
    requires KernelOk(k) && PassedOver(p, k, [e])
    ensures var k1, moves := Act(k, e), MovesOf(k, e);
            if moves == [] then k1.current == k.current && k1.ps[p] == k.ps[p]
            else
              && moves[0].table[p] == k.ps[p] && Perform(moves[0], k.current).1 == k1.current
              && Perform(moves[0], k.current).0[p] == k1.ps[p]
  {
    hide Yield, FirstDead, FindPid, FirstAwaited;
    assert PassedOver(p, Act(k, e), [e][1..]);
  }

  lemma {:induction false} RunsAreMoves(p: nat, k: Kernel, events: seq<Event>)
    requires KernelOk(k) && PassedOver(p, k, events)
    ensures Starves(p, k.ps[p], k.current, Moves(k, events))
    decreases |events|
  {
    hide Act, MovesOf, Perform;
    if events != [] {
      var k1 := Act(k, events[0]);
      RunsAreMoves(p, k1, events[1..]);
      assert PassedOver(p, k, [events[0]]) by {
        assert [events[0]][1..] == [];
      }
      ActPasses(p, k, events[0]);
      var moves := MovesOf(k, events[0]);
      if moves != [] {
        assert Moves(k, events)[1..] == Moves(k1, events[1..]);
      } else {
        assert Moves(k, events) == Moves(k1, events[1..]);
      }
    }
  }

  // When waiting is bounded

  /** Every handoff of the run goes from a slot to a slot as a pair of `hands` says. */
  predicate Within(hands: set<(nat, nat)>, current: nat, moves: seq<Move>)
    requires current < MAX_PROCESSES
    requires InRange(moves)
    decreases |moves|
  {
    moves != [] ==>
      && (moves[0].Handoff? ==> (current, moves[0].to) in hands)
      && Within(hands, Perform(moves[0], current).1, moves[1..])
  }

  /** No handoff between other processes takes the processor farther from `p`. */
  predicate NoneRetreats(p: nat, hands: set<(nat, nat)>)
    requires p < MAX_PROCESSES
  {
    forall h :: h in hands && h.0 < MAX_PROCESSES && h.1 < MAX_PROCESSES && h.0 != p && h.1 != p ==>
      Distance(h.1, p) <= Distance(h.0, p)
  }

  lemma {:induction false} NoRetreat(p: nat, me: Process, hands: set<(nat, nat)>, current: nat, moves: seq<Move>)
    requires Starves(p, me, current, moves) && NoneRetreats(p, hands)
    requires InRange(moves)
    requires Within(hands, current, moves)
    ensures Retreat(p, current, moves) == 0
    decreases |moves|
  {
    hide Yield, Distance;
    if moves != [] {
      var (ps1, current1) := Perform(moves[0], current);
      NoRetreat(p, ps1[p], hands, current1, moves[1..]);
    }
  }

  // How a handoff that retreats starves a process

  /** The run passes over `p` with `n` selections and hands the processor over only as `hands` says. */
  predicate StarvedIn(p: nat, hands: set<(nat, nat)>, k: Kernel, events: seq<Event>, n: nat)
    requires KernelOk(k)
  {
    var moves := Moves(k, events);
    PassedOver(p, k, events) && Within(hands, k.current, moves) && Selections(moves) == n
  }

  lemma StarvedStep(p: nat, hands: set<(nat, nat)>, k: Kernel, e: Event, rest: seq<Event>, n: nat)
    requires KernelOk(k) && StarvedIn(p, hands, Act(k, e), rest, n)
    requires p != k.current && k.ps[p].status == Ready && k.ps[p].phase < 4
    requires var moves := MovesOf(k, e);
             moves != [] ==> (moves[0].Handoff? ==> (k.current, moves[0].to) in hands)
    requires MovesOf(k, e) == [] ==> Act(k, e).current == k.current
    requires MovesOf(k, e) != [] ==> Perform(MovesOf(k, e)[0], k.current).1 == Act(k, e).current
    ensures StarvedIn(p, hands, k, [e] + rest, n + if MovesOf(k, e) != [] && MovesOf(k, e)[0].Selection? then 1 else 0)
  {
    hide Act, MovesOf, Perform;
    var events := [e] + rest;
    assert events[0] == e && events[1..] == rest;
    var moves := MovesOf(k, e);
    if moves == [] {
      assert Moves(k, events) == Moves(Act(k, e), rest);
    } else {
      assert Moves(k, events)[0] == moves[0] && Moves(k, events)[1..] == Moves(Act(k, e), rest);
    }
  }

  /** The parent `b` runs, its child is to go to the dead slot `a`, and no process between them is ready. `p`, which
      waits, comes after `a`. */
  predicate Cornered(k: Kernel, p: nat, a: nat, b: nat)
  {
    && KernelOk(k) && !k.halted && p < MAX_PROCESSES && a < MAX_PROCESSES && k.current == b && p != b
    && Distance(a, p) < Distance(b, p) && p != a
    && k.ps[b].status == Running && k.ps[a].status == Dead && k.ps[p].status == Ready && k.ps[p].phase < 4
    && (forall i :: 0 <= i < a ==> k.ps[i].status != Dead)
    && (forall i :: 0 <= i < MAX_PROCESSES && k.ps[i].status == Ready ==> Distance(b, a) < Distance(b, i))
    && (forall i :: 0 <= i < MAX_PROCESSES && k.ps[i].status != Dead ==> 0 < k.ids[i].pid < k.nextPid)
    && (forall i :: 0 <= i < MAX_PROCESSES && i != b && k.ps[i].status != Dead ==> k.ids[i].pid != k.ids[b].pid)
  }

  function Forked(k: Kernel, a: nat): (r: Kernel)
    requires KernelOk(k) && a < MAX_PROCESSES
    ensures KernelOk(r)
  {
    k.(ps := k.ps[a := Process(Ready, false, 0)], ids := k.ids[a := Id(k.nextPid, k.ids[k.current].pid, None)],
       nextPid := k.nextPid + 1)
  }

  /** The child in slot `a` runs instead of its parent. */
  function Taken(k: Kernel, a: nat): (r: Kernel)
    requires KernelOk(k) && a < MAX_PROCESSES
    ensures KernelOk(r)
  {
    var f := Forked(k, a);
    f.(ps := f.ps[k.current := f.ps[k.current].(status := Ready)][a := Process(Running, false, 0)], current := a)
  }

  function Exited(k: Kernel, a: nat): (r: Kernel)
    requires KernelOk(k) && a < MAX_PROCESSES
    ensures KernelOk(r)
  {
    var f := Forked(k, a);
    f.(ps := f.ps[a := Process(Zombie, false, 0)], ids := f.ids[k.current := f.ids[k.current].(target := None)])
  }

  function Reaped(k: Kernel, a: nat): (r: Kernel)
    requires KernelOk(k) && a < MAX_PROCESSES
    ensures KernelOk(r)
  {
    k.(ps := k.ps[a := NOBODY], ids := k.ids[k.current := k.ids[k.current].(target := None)][a := NO_ID],
       nextPid := k.nextPid + 1)
  }

  lemma ForkTakesSlot(k: Kernel, p: nat, a: nat, b: nat)
    requires Cornered(k, p, a, b)
    ensures Act(k, Forks(false, true)) == Forked(k, a)
  {
    hide Distance;
  }

  /** The timer gives the processor to the next ready process, if it is not throttled. */
  lemma TickPicks(k: Kernel, x: nat)
    requires KernelOk(k) && !k.halted && x < MAX_PROCESSES && x != k.current
    requires k.ps[k.current].status == Running && k.ps[x].status == Ready && !k.ps[x].throttled
    requires forall i :: 0 <= i < MAX_PROCESSES && k.ps[i].status == Ready ==>
               Distance(k.current, x) <= Distance(k.current, i)
    ensures var b := k.current;
            Act(k, Tick) == k.(current := x,
              ps := k.ps[b := k.ps[b].(status := Ready)][x := k.ps[x].(status := Running)])
  {
    var b := k.current;
    var ps0: Table := k.ps[b := k.ps[b].(status := Ready)];
    var start := b + 1;
    var j := Offset(start, x);
    forall i | 0 <= i < j ensures ps0[At(start, i)].status != Ready {
      OffsetIs(start, At(start, i), i);
      OffsetIs(start, b, MAX_PROCESSES - 1);
    }
    OffsetIs(start, x, j);
    ScanTo(ps0, start, 0, j);
    ScanUnfold(ps0, start, j, None);
  }

  lemma TickPicksChild(k: Kernel, p: nat, a: nat, b: nat)
    requires Cornered(k, p, a, b)
    ensures Act(Forked(k, a), Tick) == Taken(k, a)
  {
    hide Distance, Act;
    TickPicks(Forked(k, a), a);
  }

  lemma ParentIs(k: Kernel, slot: nat)
    requires KernelOk(k) && slot < MAX_PROCESSES && k.ps[slot].status != Dead
    requires k.ids[slot].pid == k.ids[k.current].parent
    requires forall i :: 0 <= i < slot && k.ps[i].status != Dead ==> k.ids[i].pid != k.ids[slot].pid
    ensures Parent(k) == slot
  {
    hide FindPid;
    var found := FindPid(k, k.ids[k.current].parent, 0);
    assert !(slot < found);
  }

  lemma AwaitedIs(k: Kernel, target: Option<nat>, status: Status, slot: nat)
    requires KernelOk(k) && slot < MAX_PROCESSES && Awaited(k, target, slot) && k.ps[slot].status == status
    requires forall i :: 0 <= i < slot && k.ps[i].status == status ==> !Awaited(k, target, i)
    ensures FirstAwaited(k, target, status, 0) == slot
  {
    hide FirstAwaited;
    assert !(slot < FirstAwaited(k, target, status, 0));
  }

  lemma ExitReturns(k: Kernel, p: nat, a: nat, b: nat)
    requires Cornered(k, p, a, b)
    ensures Act(Taken(k, a), Exits) == Exited(k, a)
  {
    hide Distance, FindPid;
    var t := Taken(k, a);
    ParentIs(t, b);
    assert Exit(t).ps == Exited(k, a).ps;
    assert Exit(t).ids == Exited(k, a).ids;
  }

  lemma WaitReaps(k: Kernel, p: nat, a: nat, b: nat)
    requires Cornered(k, p, a, b)
    ensures Act(Exited(k, a), Waits(Some(k.nextPid), false)) == Reaped(k, a)
  {
    hide Distance, FirstAwaited;
    var x := Exited(k, a);
    AwaitedIs(x, Some(k.nextPid), Zombie, a);
    assert Wait(x, Some(k.nextPid), false).ps == Reaped(k, a).ps;
    assert Wait(x, Some(k.nextPid), false).ids == Reaped(k, a).ids;
  }

  lemma StillCornered(k: Kernel, p: nat, a: nat, b: nat)
    requires Cornered(k, p, a, b)
    ensures Cornered(Reaped(k, a), p, a, b)
  {
    hide Distance;
  }

  /** A parent that forks, is preempted by its child, gets the processor back when the child exits, and reaps it. */
  function Rounds(pid: nat, n: nat): (events: seq<Event>)
    decreases n
  {
    if n == 0 then []
    else [Forks(false, true)] + ([Tick] + ([Exits] + ([Waits(Some(pid), false)] + Rounds(pid + 1, n - 1))))
  }

  /** A parent and child that keep handing the processor over starve the process after the child through any number of
      selections. */
  lemma {:induction false} HandoffsStarve(k: Kernel, p: nat, a: nat, b: nat, n: nat)
    requires Cornered(k, p, a, b)
    ensures StarvedIn(p, {(a, b)}, k, Rounds(k.nextPid, n), n)
    decreases n
  {
    hide Distance, StarvedIn, Fork, Exit, Wait, Yield;
    if n == 0 {
      assert StarvedIn(p, {(a, b)}, k, [], 0) by { StarvedNow(p, {(a, b)}, k); }
    } else {
      ForkTakesSlot(k, p, a, b);
      TickPicksChild(k, p, a, b);
      ExitReturns(k, p, a, b);
      WaitReaps(k, p, a, b);
      StillCornered(k, p, a, b);
      HandoffsStarve(Reaped(k, a), p, a, b, n - 1);
      var hands, wait, rest := {(a, b)}, Waits(Some(k.nextPid), false), Rounds(k.nextPid + 1, n - 1);
      StarvedStep(p, hands, Exited(k, a), wait, rest, n - 1);
      StarvedStep(p, hands, Taken(k, a), Exits, [wait] + rest, n - 1);
      StarvedStep(p, hands, Forked(k, a), Tick, [Exits] + ([wait] + rest), n - 1);
      StarvedStep(p, hands, k, Forks(false, true), [Tick] + ([Exits] + ([wait] + rest)), n);
    }
  }

  lemma StarvedNow(p: nat, hands: set<(nat, nat)>, k: Kernel)
    requires KernelOk(k) && p < MAX_PROCESSES && p != k.current && k.ps[p].status == Ready && k.ps[p].phase < 4
    ensures StarvedIn(p, hands, k, [], 0)
  {
  }

  // Exactly when waiting is bounded

  /** No run of moves that hands the processor over as `hands` says passes over `me` in slot `p` more often. */
  ghost predicate BoundedBy(p: nat, me: Process, hands: set<(nat, nat)>, bound: nat)
  {
    forall current, moves :: Starves(p, me, current, moves) && InRange(moves) && Within(hands, current, moves) ==>
      Selections(moves) < bound
  }

  /** The same for the runs of the kernel's own operations from the states of `from`. */
  ghost predicate KernelBoundedBy(p: nat, hands: set<(nat, nat)>, from: iset<Kernel>, bound: nat)
  {
    forall k, events ::
      k in from && KernelOk(k) && PassedOver(p, k, events) && Within(hands, k.current, Moves(k, events)) ==>
        Selections(Moves(k, events)) < bound
  }

  lemma EnoughFor(p: nat, me: Process, hands: set<(nat, nat)>)
    requires p < MAX_PROCESSES && NoneRetreats(p, hands)
    ensures BoundedBy(p, me, hands, 4 * MAX_PROCESSES)
  {
    forall current, moves | Starves(p, me, current, moves) && InRange(moves) && Within(hands, current, moves)
      ensures Selections(moves) < 4 * MAX_PROCESSES
    {
      NoRetreat(p, me, hands, current, moves);
      BoundedWaiting(p, me, current, moves);
    }
  }

  lemma EnoughForKernel(p: nat, hands: set<(nat, nat)>, from: iset<Kernel>)
    requires p < MAX_PROCESSES && NoneRetreats(p, hands)
    ensures KernelBoundedBy(p, hands, from, 4 * MAX_PROCESSES)
  {
    forall k, events |
      k in from && KernelOk(k) && PassedOver(p, k, events) && Within(hands, k.current, Moves(k, events))
      ensures Selections(Moves(k, events)) < 4 * MAX_PROCESSES
    {
      RunsAreMoves(p, k, events);
      EnoughFor(p, k.ps[p], hands);
    }
  }

  lemma {:induction false} WithinMore(hands: set<(nat, nat)>, more: set<(nat, nat)>, current: nat, moves: seq<Move>)
    requires current < MAX_PROCESSES && hands <= more
    requires InRange(moves)
    requires Within(hands, current, moves)
    ensures Within(more, current, moves)
    decreases |moves|
  {
    hide Perform;
    if moves != [] {
      WithinMore(hands, more, Perform(moves[0], current).1, moves[1..]);
    }
  }

  /** A cornered process is passed over more often than any bound. */
  lemma NoBoundFor(p: nat, hands: set<(nat, nat)>, k: Kernel, a: nat, b: nat, bound: nat)
    requires Cornered(k, p, a, b) && (a, b) in hands
    ensures !BoundedBy(p, k.ps[p], hands, bound)
    ensures forall from :: k in from ==> !KernelBoundedBy(p, hands, from, bound)
  {
    hide Cornered, PassedOver, Moves, Within, Starves;
    var events := Rounds(k.nextPid, bound);
    assert KernelOk(k) && k.current < MAX_PROCESSES by { CorneredOk(k, p, a, b); }
    HandoffsStarve(k, p, a, b, bound);
    RunsAreMoves(p, k, events);
    WithinMore({(a, b)}, hands, k.current, Moves(k, events));
  }

  lemma CorneredOk(k: Kernel, p: nat, a: nat, b: nat)
    requires Cornered(k, p, a, b)
    ensures KernelOk(k)
  {
  }

  /** Slot `b` runs, `a` is free, `me` waits in slot `p` and every other process waits for a child. */
  function Blocked(p: nat, me: Process, a: nat, b: nat): (k: Kernel)
    requires b < MAX_PROCESSES
    ensures KernelOk(k)
  {
    Kernel(
      seq(MAX_PROCESSES, i => if i == a then NOBODY else if i == p then me
        else Process(if i == b then Running else Waiting, false, 0)),
      seq(MAX_PROCESSES, (i: nat) => Id(i + 1, 0, None)), b, MAX_PROCESSES + 1, false)
  }

  lemma BlockedIsCornered(p: nat, me: Process, a: nat, b: nat)
    requires p < MAX_PROCESSES && a < MAX_PROCESSES && b < MAX_PROCESSES && p != a && p != b
    requires Distance(a, p) < Distance(b, p) && me.status == Ready && me.phase < 4
    ensures Cornered(Blocked(p, me, a, b), p, a, b)
  {
  }

  /** Bounded waiting, exactly: how often a ready process can be passed over is bounded if and only if no handoff
      between two other processes takes the processor farther from it. */
  lemma BoundedIff(p: nat, me: Process, hands: set<(nat, nat)>)
    requires p < MAX_PROCESSES && me.status == Ready && me.phase < 4
    ensures (exists bound :: BoundedBy(p, me, hands, bound)) <==> NoneRetreats(p, hands)
  {
    hide BoundedBy;
    if NoneRetreats(p, hands) {
      EnoughFor(p, me, hands);
    } else {
      var h :| h in hands && h.0 < MAX_PROCESSES && h.1 < MAX_PROCESSES && h.0 != p && h.1 != p
        && Distance(h.1, p) > Distance(h.0, p);
      BlockedIsCornered(p, me, h.0, h.1);
      forall bound: nat ensures !BoundedBy(p, me, hands, bound) {
        NoBoundFor(p, hands, Blocked(p, me, h.0, h.1), h.0, h.1, bound);
      }
    }
  }

  ghost function AnyState(): (states: iset<Kernel>)
  {
    iset k: Kernel | KernelOk(k)
  }

  /** The same for the kernel's own operations, from any state. */
  lemma KernelBoundedIff(p: nat, hands: set<(nat, nat)>)
    requires p < MAX_PROCESSES
    ensures (exists bound :: KernelBoundedBy(p, hands, AnyState(), bound)) <==> NoneRetreats(p, hands)
  {
    hide KernelBoundedBy;
    var all := AnyState();
    if NoneRetreats(p, hands) {
      EnoughForKernel(p, hands, all);
    } else {
      var h :| h in hands && h.0 < MAX_PROCESSES && h.1 < MAX_PROCESSES && h.0 != p && h.1 != p
        && Distance(h.1, p) > Distance(h.0, p);
      var k := Blocked(p, Process(Ready, false, 0), h.0, h.1);
      BlockedIsCornered(p, Process(Ready, false, 0), h.0, h.1);
      forall bound: nat ensures !KernelBoundedBy(p, hands, all, bound) {
        NoBoundFor(p, hands, k, h.0, h.1, bound);
      }
    }
  }
}
