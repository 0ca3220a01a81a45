/** The kernel's loops over process_list that create, end and await processes (kernel/process.c,
    kernel/syscall/process_lifecycle.c). */
module ProcessTable {
  import opened Options
  import opened Scheduler
  import opened SchedulerRuns

  class Processes {
    const list: array<Process>
    const ids: array<Id>
    var current: nat
    var nextPid: nat
    var halted: bool

    ghost predicate Valid()
      reads this
    {
      list.Length == MAX_PROCESSES && ids.Length == MAX_PROCESSES && current < MAX_PROCESSES
    }

    ghost function State(): (k: Kernel)
      requires Valid()
      reads this, list, ids
      ensures KernelOk(k)
    {
      Kernel(list[..], ids[..], current, nextPid, halted)
    }

    constructor ()
      ensures Valid() && fresh(list) && fresh(ids) && current == 0 && nextPid == 2 && !halted
      ensures list[..] == seq(MAX_PROCESSES, i => if i == 0 then Process(Running, false, 0) else NOBODY)
      ensures ids[..] == seq(MAX_PROCESSES, i => if i == 0 then Id(1, 0, None) else NO_ID)
    {
      list := new Process[MAX_PROCESSES](i => if i == 0 then Process(Running, false, 0) else NOBODY);
      ids := new Id[MAX_PROCESSES](i => if i == 0 then Id(1, 0, None) else NO_ID);
      current, nextPid, halted := 0, 2, false;
    }

    /** sys_fork. */
    method ForkProcess(throttled: bool, memory: bool)
      requires Valid()
      modifies this, list, ids
      ensures Valid() && State() == Fork(old(State()), throttled, memory)
    {
      hide FirstDead;
      ghost var k := State();
      var slot := 0;
      while slot < MAX_PROCESSES && list[slot].status != Dead
        invariant slot <= MAX_PROCESSES && forall j :: 0 <= j < slot ==> k.ps[j].status != Dead
      {
        slot := slot + 1;
      }
      assert slot < MAX_PROCESSES ==> k.ps[slot].status == Dead;
      if slot == MAX_PROCESSES { return; }
      list[slot] := NOBODY;
      ids[slot] := Id(nextPid, ids[current].pid, None);
      nextPid := nextPid + 1;
      if !memory {
        ids[slot] := NO_ID;
        return;
      }
      list[slot] := Process(Ready, throttled, 0);
    }

    method FindParent() returns (slot: nat)
      requires Valid()
      ensures slot == Parent(State())
    {
      hide FindPid;
      var pid := ids[current].parent;
      slot := 0;
      while slot < MAX_PROCESSES && (list[slot].status == Dead || ids[slot].pid != pid)
        invariant slot <= MAX_PROCESSES
        invariant forall j :: 0 <= j < slot ==> State().ps[j].status == Dead || State().ids[j].pid != pid
      {
        slot := slot + 1;
      }
      assert slot < MAX_PROCESSES ==> State().ps[slot].status != Dead && State().ids[slot].pid == pid;
    }

    /** process_exit_and_wake_parent. */
    method ExitProcess()
      requires Valid()
      modifies this, list, ids
      ensures Valid() && State() == Exit(old(State()))
    {
      hide FindPid;
      var child := current;
      var parent := FindParent();
      if parent < MAX_PROCESSES && list[parent].status == Waiting && Matches(ids[parent].target, ids[child].pid) {
        list[parent] := list[parent].(status := Running);
        ids[parent] := ids[parent].(target := None);
        list[child] := NOBODY;
        ids[child] := NO_ID;
        current := parent;
        return;
      }
      list[child] := list[child].(status := Zombie);
      if parent == MAX_PROCESSES || list[parent].status == Zombie {
        halted := true;
        return;
      }
      current := parent;
      if list[parent].status == Ready || list[parent].status == Waiting {
        list[parent] := list[parent].(status := Running);
        ids[parent] := ids[parent].(target := None);
      }
    }

    /** sys_wait4. */
    method WaitForChild(target: Option<nat>, nohang: bool)
      requires Valid()
      modifies this, list, ids
      ensures Valid() && State() == Wait(old(State()), target, nohang)
    {
      hide FirstAwaited, Awaited;
      ghost var k := State();
      if target == Some(0) { return; }
      var firstReady: nat, i: nat := MAX_PROCESSES, 0;
      while i < MAX_PROCESSES && !(IsAwaited(target, i) && list[i].status == Zombie)
        invariant i <= MAX_PROCESSES && firstReady <= MAX_PROCESSES && k == State()
        invariant forall j :: 0 <= j < i && k.ps[j].status == Zombie ==> !Awaited(k, target, j)
        invariant forall j :: 0 <= j < i && j < firstReady && k.ps[j].status == Ready ==> !Awaited(k, target, j)
        invariant firstReady < MAX_PROCESSES ==>
                    firstReady < i && k.ps[firstReady].status == Ready && Awaited(k, target, firstReady)
      {
        if firstReady == MAX_PROCESSES && IsAwaited(target, i) && list[i].status == Ready {
          firstReady := i;
        }
        i := i + 1;
      }
      if i < MAX_PROCESSES {
        AwaitedIs(k, target, Zombie, i);
      } else if firstReady < MAX_PROCESSES {
        AwaitedIs(k, target, Ready, firstReady);
      }
      if i < MAX_PROCESSES {
        list[i] := NOBODY;
        ids[i] := NO_ID;
        return;
      }
      if nohang || firstReady == MAX_PROCESSES { return; }
      list[current] := list[current].(status := Waiting);
      ids[current] := ids[current].(target := target);
      list[firstReady] := list[firstReady].(status := Running);
      current := firstReady;
    }

    /** Whether slot `i` holds a child that wait4 for `target` looks at. */
    function IsAwaited(target: Option<nat>, i: nat): (b: bool)
      requires Valid() && i < MAX_PROCESSES
      reads this, list, ids
      ensures b == Awaited(State(), target, i)
    {
      list[i].status != Dead && ids[i].parent == ids[current].pid && Matches(target, ids[i].pid)
    }
  }
}
