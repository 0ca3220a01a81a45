/** The round-robin scheduler with thermal throttling (kernel/process.c). */
module Scheduler {
  import opened Options

  const MAX_PROCESSES: nat := 64

  datatype Status = Dead | Ready | Running | Waiting | Zombie | Paused

  /** The fields of process_t that the scheduler reads or writes. */
  datatype Process = Process(status: Status, throttled: bool, phase: nat)

  type Table = ps: seq<Process> | |ps| == MAX_PROCESSES witness seq(MAX_PROCESSES, _ => Process(Dead, false, 0))

  /** The `i`-th candidate after `start`. */
  function At(start: nat, i: nat): (idx: nat)
    ensures idx < MAX_PROCESSES
  {
    (start + i) % MAX_PROCESSES
  }

  /** process_select_next_ready from the `i`-th candidate after `start` on, with the fallback found so far. Visiting a
      throttled process advances its skip phase. */
  function Scan(ps: Table, start: nat, i: nat, fallback: Option<nat>): (r: (Table, Option<nat>))
    requires i <= MAX_PROCESSES
    decreases MAX_PROCESSES - i
  {
    if i == MAX_PROCESSES then (ps, fallback)
    else
      var idx := At(start, i);
      var c := ps[idx];
      if c.status != Ready then Scan(ps, start, i + 1, fallback)
      else if c.throttled then
        var phase := (c.phase + 1) % 4;
        var ps1: Table := ps[idx := c.(phase := phase)];
        if phase != 0 then Scan(ps1, start, i + 1, if fallback.None? then Some(idx) else fallback) else (ps1, Some(idx))
      else (ps, Some(idx))
  }

  function Select(ps: Table, current: nat): (r: (Table, Option<nat>))
  {
    Scan(ps, current + 1, 0, None)
  }

  /** schedule(): the current process gives up the processor. */
  function Yield(ps: Table, current: nat): (r: (Table, nat))
    requires current < MAX_PROCESSES
    ensures r.1 < MAX_PROCESSES
  {
    var ps0: Table := if ps[current].status == Running then ps[current := ps[current].(status := Ready)] else ps;
    var (ps1, next) := Select(ps0, current);
    SelectInRange(ps0, current);
    if next.Some? && next.value != current then (ps1[next.value := ps1[next.value].(status := Running)], next.value)
    else (ps1[current := ps1[current].(status := Running)], current)
  }

  /** process_preempt_from_interrupt: the timer takes the processor from a running process. */
  function Preempt(ps: Table, current: nat): (r: (Table, nat))
    requires current < MAX_PROCESSES
    ensures r.1 < MAX_PROCESSES
  {
    if ps[current].status != Running then (ps, current) else Yield(ps, current)
  }

  lemma {:induction false} ScanInRange(ps: Table, start: nat, i: nat, fallback: Option<nat>)
    requires i <= MAX_PROCESSES && (fallback.Some? ==> fallback.value < MAX_PROCESSES)
    ensures var (_, next) := Scan(ps, start, i, fallback); next.Some? ==> next.value < MAX_PROCESSES
    decreases MAX_PROCESSES - i
  {
    if i < MAX_PROCESSES {
      var idx := At(start, i);
      var c := ps[idx];
      if c.status != Ready {
        ScanInRange(ps, start, i + 1, fallback);
      } else if c.throttled && (c.phase + 1) % 4 != 0 {
        ScanInRange(ps[idx := c.(phase := (c.phase + 1) % 4)], start, i + 1, if fallback.None? then Some(idx)
            else fallback);
      }
    }
  }

  lemma SelectInRange(ps: Table, current: nat)
    ensures Select(ps, current).1.Some? ==> Select(ps, current).1.value < MAX_PROCESSES
  {
    ScanInRange(ps, current + 1, 0, None);
  }

  // Bounded waiting

  /** How many candidates a scan from `start` visits before `x`. */
  function Offset(start: nat, x: nat): (r: nat)
    requires x < MAX_PROCESSES
  {
    var s := start % MAX_PROCESSES;
    if x >= s then x - s else x + MAX_PROCESSES - s
  }

  /** Cyclic distance from the running process to `p`: 64 for itself. */
  function Distance(current: nat, p: nat): (d: nat)
    requires p < MAX_PROCESSES
    ensures 1 <= d <= MAX_PROCESSES
  {
    Offset(current + 1, p) + 1
  }

  lemma OffsetIs(start: nat, p: nat, i: nat)
    requires p < MAX_PROCESSES && i < MAX_PROCESSES
    ensures At(start, i) == p <==> i == Offset(start, p)
  {
  }

  lemma Closer(current: nat, p: nat, q: nat)
    requires p < MAX_PROCESSES && q < MAX_PROCESSES && Offset(current + 1, q) < Offset(current + 1, p)
    ensures Distance(q, p) == Offset(current + 1, p) - Offset(current + 1, q) < Distance(current, p)
  {
  }

  // What is selected

  /** Unthrottled, or throttled with its turn come. */
  predicate HasTurn(c: Process)
  {
    !c.throttled || c.phase == 0
  }

  lemma {:induction false} ScanChanges(ps: Table, start: nat, i: nat, fallback: Option<nat>, k: nat)
    requires i <= MAX_PROCESSES && k < MAX_PROCESSES
    ensures var ps1 := Scan(ps, start, i, fallback).0; ps1[k] == ps[k].(phase := ps1[k].phase)
    decreases MAX_PROCESSES - i
  {
    if i < MAX_PROCESSES {
      var idx := At(start, i);
      var c := ps[idx];
      if c.status != Ready {
        ScanChanges(ps, start, i + 1, fallback, k);
      } else if c.throttled && (c.phase + 1) % 4 != 0 {
        ScanChanges(ps[idx := c.(phase := (c.phase + 1) % 4)], start, i + 1, if fallback.None? then Some(idx)
            else fallback, k);
      }
    }
  }

  lemma {:induction false} ScanReady(ps: Table, start: nat, i: nat, fallback: Option<nat>)
    requires i <= MAX_PROCESSES
    requires (fallback.Some? ==> fallback.value < MAX_PROCESSES && ps[fallback.value].status == Ready)
    ensures var next := Scan(ps, start, i, fallback).1;
            (next.Some? ==> next.value < MAX_PROCESSES && ps[next.value].status == Ready)
                && (fallback.Some? ==> next.Some?)
    decreases MAX_PROCESSES - i
  {
    if i < MAX_PROCESSES {
      var idx := At(start, i);
      var c := ps[idx];
      if c.status != Ready {
        ScanReady(ps, start, i + 1, fallback);
      } else if c.throttled && (c.phase + 1) % 4 != 0 {
        ScanReady(ps[idx := c.(phase := (c.phase + 1) % 4)], start, i + 1, if fallback.None? then Some(idx)
            else fallback);
      }
    }
  }

  lemma {:induction false} ScanFinds(ps: Table, start: nat, i: nat, fallback: Option<nat>, p: nat)
    requires p < MAX_PROCESSES && ps[p].status == Ready && i <= Offset(start, p) < MAX_PROCESSES
    requires fallback.Some? ==> fallback.value < MAX_PROCESSES && ps[fallback.value].status == Ready
    ensures var (ps1, next) := Scan(ps, start, i, fallback);
            next.Some? && (ps[p].throttled || (next.value < MAX_PROCESSES && HasTurn(ps1[next.value])))
    decreases MAX_PROCESSES - i
  {
    var idx := At(start, i);
    var c := ps[idx];
    OffsetIs(start, p, i);
    if c.status != Ready {
      ScanFinds(ps, start, i + 1, fallback, p);
    } else if c.throttled && (c.phase + 1) % 4 != 0 {
      var ps1: Table := ps[idx := c.(phase := (c.phase + 1) % 4)];
      var fallback1 := if fallback.None? then Some(idx) else fallback;
      if idx == p {
        ScanReady(ps1, start, i + 1, fallback1);
      } else {
        ScanFinds(ps1, start, i + 1, fallback1, p);
      }
    }
  }

  /** Some process is selected exactly when one is ready; it is ready, and a throttled one whose turn has not come is
      taken only when every ready process is throttled. Nothing but skip phases changes. */
  lemma SelectedIsReady(ps: Table, current: nat)
    ensures var (ps1, next) := Select(ps, current);
            && (forall k :: 0 <= k < MAX_PROCESSES ==> ps1[k] == ps[k].(phase := ps1[k].phase))
            && (next.Some? <==> exists p :: 0 <= p < MAX_PROCESSES && ps[p].status == Ready)
            && (next.Some? ==> next.value < MAX_PROCESSES && ps[next.value].status == Ready)
            && (next.Some? && !HasTurn(ps1[next.value]) ==>
                  forall p :: 0 <= p < MAX_PROCESSES && ps[p].status == Ready ==> ps[p].throttled)
  {
    hide Scan, HasTurn;
    ScanReady(ps, current + 1, 0, None);
    forall k | 0 <= k < MAX_PROCESSES
      ensures var (ps1, next) := Select(ps, current);
              && ps1[k] == ps[k].(phase := ps1[k].phase)
              && (ps[k].status == Ready ==>
                  next.Some? && (ps[k].throttled || (next.value < MAX_PROCESSES && HasTurn(ps1[next.value]))))
    {
      ScanChanges(ps, current + 1, 0, None, k);
      if ps[k].status == Ready {
        ScanFinds(ps, current + 1, 0, None, k);
      }
    }
  }

  // A waiting process

  /** A scan that does not choose the ready process `p` either stopped before reaching it, leaving it alone, or passed
      it and advanced its skip phase. */
  lemma {:induction false} ScanPasses(ps: Table, start: nat, i: nat, fallback: Option<nat>, p: nat)
    requires p < MAX_PROCESSES && ps[p].status == Ready && ps[p].phase < 4 && i <= Offset(start, p)
    requires fallback.Some? ==> fallback.value < MAX_PROCESSES && fallback.value != p
    ensures var (ps1, next) := Scan(ps, start, i, fallback);
            || next == Some(p)
            || (ps1[p] == ps[p] && next.Some? && next.value < MAX_PROCESSES
                && Offset(start, next.value) < Offset(start, p))
            || (ps[p].throttled && ps[p].phase < 3 && ps1[p] == ps[p].(phase := ps[p].phase + 1) && next.Some?)
    decreases MAX_PROCESSES - i
  {
    var idx := At(start, i);
    var c := ps[idx];
    OffsetIs(start, p, i);
    OffsetIs(start, idx, i);
    if idx == p {
      if c.throttled && (c.phase + 1) % 4 != 0 {
        var ps1: Table := ps[idx := c.(phase := (c.phase + 1) % 4)];
        ScanKeeps(ps1, start, i + 1, if fallback.None? then Some(idx) else fallback, p);
      }
    } else if c.status != Ready {
      ScanPasses(ps, start, i + 1, fallback, p);
    } else if c.throttled && (c.phase + 1) % 4 != 0 {
      ScanPasses(ps[idx := c.(phase := (c.phase + 1) % 4)], start, i + 1, if fallback.None? then Some(idx)
          else fallback, p);
    }
  }

  /** A scan past `p` leaves it alone. */
  lemma {:induction false} ScanKeeps(ps: Table, start: nat, i: nat, fallback: Option<nat>, p: nat)
    requires p < MAX_PROCESSES && Offset(start, p) < i <= MAX_PROCESSES && fallback.Some?
    ensures var (ps1, next) := Scan(ps, start, i, fallback); ps1[p] == ps[p] && next.Some?
    decreases MAX_PROCESSES - i
  {
    if i < MAX_PROCESSES {
      var idx := At(start, i);
      var c := ps[idx];
      OffsetIs(start, p, i);
      if c.status != Ready {
        ScanKeeps(ps, start, i + 1, fallback, p);
      } else if c.throttled && (c.phase + 1) % 4 != 0 {
        ScanKeeps(ps[idx := c.(phase := (c.phase + 1) % 4)], start, i + 1, fallback, p);
      }
    }
  }

  /** One step of a run. Before it the environment may put any processes it likes into the table. A selection is made
      by the timer or by a yield; a handoff (vfork, wait4, exit) makes `to` the current process without a selection. */
  datatype Move = Selection(table: Table) | Handoff(table: Table, to: nat)

  function Perform(m: Move, current: nat): (r: (Table, nat))
    requires current < MAX_PROCESSES && (m.Handoff? ==> m.to < MAX_PROCESSES)
    ensures r.1 < MAX_PROCESSES
  {
    match m
    case Selection(table) => Yield(table, current)
    case Handoff(table, to) => (table[to := table[to].(status := Running)], to)
  }

  /** `me` stays in slot `p` through the whole run, ready and untouched by anything but the scheduler's skip phase, and
      is never given the processor. */
  ghost predicate Starves(p: nat, me: Process, current: nat, moves: seq<Move>)
    decreases |moves|
  {
    && p < MAX_PROCESSES && current < MAX_PROCESSES && p != current && me.status == Ready && me.phase < 4
    && (moves != [] ==>
          && moves[0].table[p] == me
          && (moves[0].Handoff? ==> moves[0].to < MAX_PROCESSES)
          && (var (ps1, current1) := Perform(moves[0], current); Starves(p, ps1[p], current1, moves[1..])))
  }

  function Selections(moves: seq<Move>): (r: nat)
  {
    if moves == [] then 0 else (if moves[0].Selection? then 1 else 0) + Selections(moves[1..])
  }

  predicate InRange(moves: seq<Move>)
  {
    forall k :: 0 <= k < |moves| && moves[k].Handoff? ==> moves[k].to < MAX_PROCESSES
  }

  /** How much farther from `p` the handoffs of a run take the current process. */
  function Retreat(p: nat, current: nat, moves: seq<Move>): (r: nat)
    requires p < MAX_PROCESSES && current < MAX_PROCESSES
    requires InRange(moves)
    decreases |moves|
  {
    if moves == [] then 0
    else
      var next := Perform(moves[0], current).1;
      var step := if moves[0].Handoff? && Distance(next, p) > Distance(current, p)
          then Distance(next, p) - Distance(current, p) else 0;
      step + Retreat(p, next, moves[1..])
  }

  /** Remaining skip phases and cyclic distance, as one number. */
  function Measure(me: Process, current: nat, p: nat): (r: nat)
    requires p < MAX_PROCESSES && me.phase < 4
  {
    (if me.throttled then (3 - me.phase) * MAX_PROCESSES else 0) + Distance(current, p)
  }

  /** A selection that passes over `p` brings its turn closer. */
  lemma YieldProgress(ps: Table, current: nat, p: nat)
    requires p < MAX_PROCESSES && current < MAX_PROCESSES && p != current && ps[p].status == Ready && ps[p].phase < 4
    ensures var (ps1, next) := Yield(ps, current);
            next == p || (ps1[p] == ps[p].(phase := ps1[p].phase) && ps1[p].phase < 4
                          && Measure(ps1[p], next, p) < Measure(ps[p], current, p))
  {
    hide Scan, Offset;
    var ps0: Table := if ps[current].status == Running then ps[current := ps[current].(status := Ready)] else ps;
    SelectInRange(ps0, current);
    ScanPasses(ps0, current + 1, 0, None, p);
    var next := Select(ps0, current).1;
    if next.Some? && Offset(current + 1, next.value) < Offset(current + 1, p) {
      Closer(current, p, next.value);
      OffsetIs(current + 1, current, MAX_PROCESSES - 1);
    }
  }

  lemma {:induction false} WaitBound(p: nat, me: Process, current: nat, moves: seq<Move>)
    requires Starves(p, me, current, moves)
    requires InRange(moves)
    ensures Selections(moves) < Measure(me, current, p) + Retreat(p, current, moves)
    decreases |moves|
  {
    hide Yield, Distance;
    if moves != [] {
      var (ps1, current1) := Perform(moves[0], current);
      match moves[0] {
        case Selection(table) => YieldProgress(table, current, p);
        case Handoff(table, to) =>
      }
      WaitBound(p, ps1[p], current1, moves[1..]);
    }
  }

  /** Bounded waiting: while no handoff moves the processor farther from it, a process that stays ready is given the
      processor within 64 selections, or within 4 * 64 if it stays throttled, whatever all other processes do. */
  lemma BoundedWaiting(p: nat, me: Process, current: nat, moves: seq<Move>)
    requires Starves(p, me, current, moves)
    requires InRange(moves)
    requires Retreat(p, current, moves) == 0
    ensures Selections(moves) < (if me.throttled then 4 * MAX_PROCESSES else MAX_PROCESSES)
  {
    WaitBound(p, me, current, moves);
    NeverItself(current, p);
  }

  lemma NeverItself(current: nat, p: nat)
    requires p < MAX_PROCESSES && current < MAX_PROCESSES && p != current
    ensures Distance(current, p) < MAX_PROCESSES
  {
  }

  /** A scan walks over slots that are not ready. */
  lemma {:induction false} ScanTo(ps: Table, start: nat, i: nat, j: nat)
    requires i <= j < MAX_PROCESSES && forall k :: i <= k < j ==> ps[At(start, k)].status != Ready
    ensures Scan(ps, start, i, None) == Scan(ps, start, j, None)
    decreases j - i
  {
    if i < j {
      ScanTo(ps, start, i + 1, j);
    }
  }

  // The kernel's own loops over process_list

  class ProcessList {
    const list: array<Process>
    var current: nat

    ghost predicate Valid()
      reads this
    {
      list.Length == MAX_PROCESSES && current < MAX_PROCESSES
    }

    constructor ()
      ensures Valid() && fresh(list) && current == 0
    {
      list := new Process[MAX_PROCESSES](i => Process(if i == 0 then Running else Dead, false, 0));
      current := 0;
    }

    /** process_select_next_ready. */
    method SelectNextReady(from: nat) returns (next: Option<nat>)
      requires Valid() && from < MAX_PROCESSES
      modifies list
      ensures (list[..], next) == Select(old(list[..]), from)
    {
      hide Scan;
      var start: nat := 0;
      for i := 0 to MAX_PROCESSES
        invariant start == if i <= from then 0 else from + 1
      {
        if i == from { start := i + 1; }
      }
      ghost var whole := Scan(list[..], start, 0, None);
      next := None;
      for i := 0 to MAX_PROCESSES
        invariant whole == Scan(list[..], start, i, next)
      {
        ScanUnfold(list[..], start, i, next);
        var idx := At(start, i);
        if list[idx].status != Ready { continue; }
        if list[idx].throttled {
          ghost var before := list[..];
          var fallback := if next.None? then Some(idx) else next;
          list[idx] := list[idx].(phase := (list[idx].phase + 1) % 4);
          assert list[..] == before[idx := list[idx]];
          if list[idx].phase != 0 {
            next := fallback;
            continue;
          }
        }
        return Some(idx);
      }
      ScanUnfold(list[..], start, MAX_PROCESSES, next);
    }

    method SetStatus(i: nat, status: Status)
      requires Valid() && i < MAX_PROCESSES
      modifies list
      ensures list[..] == old(list[..])[i := old(list[i]).(status := status)]
    {
      list[i] := list[i].(status := status);
    }

    /** schedule. */
    method Schedule()
      requires Valid()
      modifies this, list
      ensures Valid() && (list[..], current) == Yield(old(list[..]), old(current))
    {
      hide Scan;
      if list[current].status == Running { SetStatus(current, Ready); }
      SelectInRange(list[..], current);
      var next := SelectNextReady(current);
      if next.Some? && next.value != current {
        current := next.value;
      }
      SetStatus(current, Running);
    }

    /** process_preempt_from_interrupt. */
    method PreemptFromInterrupt()
      requires Valid()
      modifies this, list
      ensures Valid() && (list[..], current) == Preempt(old(list[..]), old(current))
    {
      hide Scan;
      if list[current].status != Running { return; }
      var previous := current;
      SetStatus(previous, Ready);
      SelectInRange(list[..], current);
      var next := SelectNextReady(previous);
      if next.None? || next.value == previous {
        SetStatus(previous, Running);
        return;
      }
      current := next.value;
      SetStatus(current, Running);
    }
  }

  lemma ScanUnfold(ps: Table, start: nat, i: nat, fallback: Option<nat>)
    requires i <= MAX_PROCESSES
    ensures i == MAX_PROCESSES ==> Scan(ps, start, i, fallback) == (ps, fallback)
    ensures i < MAX_PROCESSES ==>
              var idx := At(start, i);
              var c := ps[idx];
              var ps1: Table := ps[idx := c.(phase := (c.phase + 1) % 4)];
              Scan(ps, start, i, fallback) ==
                if c.status != Ready then Scan(ps, start, i + 1, fallback)
                else if !c.throttled then (ps, Some(idx))
                else if (c.phase + 1) % 4 != 0 then Scan(ps1, start, i + 1, if fallback.None? then Some(idx)
                    else fallback)
                else (ps1, Some(idx))
  {
  }
}
