/** What descriptor calls do to the tables, beyond keeping the counts exact. */
module DescriptorEffects {
  import opened Options
  import opened Descriptors
  import opened DescriptorRuns

  /** The slot that dup, dup2 or F_DUPFD fills. */
  function DupTarget(row: seq<Fd>, prior: nat, target: Option<nat>, overwrite: bool): (r: Option<nat>)
  {
    if prior >= |row| || row[prior].kind == Free then None
    else
      match target
      case None => if FreeSlot(row, 0) == |row| then None else Some(FreeSlot(row, 0))
      case Some(f) => if f >= |row| || f == prior || (!overwrite && row[f].kind != Free) then None else Some(f)
  }

  /** A duplicate names the same object as the original, which survives even when the slot it replaces held the last
      other reference to it; no other slot changes. */
  lemma DupShares(k: Kernel, p: nat, prior: nat, target: Option<nat>, overwrite: bool)
    requires Exact(k, multiset{}) && p < MAX_PROCESSES
    ensures var r, f := Dup(k, p, prior, target, overwrite), DupTarget(k.tables[p], prior, target, overwrite);
            if f.None? then r == k
            else
              && r.tables == k.tables[p := k.tables[p][f.value := k.tables[p][prior]]]
              && (IsRef(k.tables[p][prior]) ==> Live(r, k.tables[p][prior]) && Refs(r, k.tables[p][prior]) >= 2)
  {
    hide Exact, Copy, Close;
    var f := DupTarget(k.tables[p], prior, target, overwrite);
    if f.Some? {
      DupExact(k, p, prior, target, overwrite);
      if target.Some? && overwrite {
        CloseExact(k, p, f.value);
        CopyFills(Close(k, p, f.value), p, prior, f.value);
        var row := k.tables[p];
        assert row[f.value := Close(k, p, f.value).tables[p][f.value]][f.value := row[prior]]
               == row[f.value := row[prior]];
      } else {
        CopyFills(k, p, prior, f.value);
      }
      TwiceNamed(Dup(k, p, prior, target, overwrite), p, prior, f.value);
    }
  }

  lemma CopyFills(k: Kernel, p: nat, from: nat, f: nat)
    requires Exact(k, multiset{}) && p < MAX_PROCESSES && from < FD_MAX && f < FD_MAX
    ensures Copy(k, p, from, f).tables == k.tables[p := k.tables[p][f := k.tables[p][from]]]
  {
    hide Exact, Retain;
    var fd := k.tables[p][from];
    SlotLive(k, p, from);
    RetainTables(k, fd, SetSlot(k, p, f, fd).tables);
    if IsRef(fd) {
      RetainLive(k, fd, fd);
      assert Live(SetSlot(Retain(k, fd), p, f, fd), fd) == Live(Retain(k, fd), fd);
    }
  }

  /** An object named by two slots has at least two references. */
  lemma TwiceNamed(k: Kernel, p: nat, f: nat, g: nat)
    requires Exact(k, multiset{}) && p < MAX_PROCESSES && f < FD_MAX && g < FD_MAX && f != g
    requires k.tables[p][f] == k.tables[p][g]
    ensures var fd := k.tables[p][f]; IsRef(fd) ==> Live(k, fd) && Refs(k, fd) >= 2
  {
    hide Slots, Queued;
    var fd, row := k.tables[p][f], k.tables[p];
    if IsRef(fd) {
      SlotLive(k, p, f);
      RowChange(row, f, FREE_FD, fd);
      assert row[f := FREE_FD][g] == fd && fd in multiset(row[f := FREE_FD]);
      TablesChange(k.tables, p, [], fd);
      assert Refs(k, fd) == (Named(k) + multiset{})[fd];
    }
  }

  /** The descriptors of one row, without the free slots. */
  function Held(row: seq<Fd>, fd: Fd): (r: nat)
  {
    if fd.kind == Free then 0 else multiset(row)[fd]
  }

  lemma {:induction false} RetainAllRefs(k: Kernel, fds: seq<Fd>, x: Fd)
    requires Shaped(k) && IsRef(x) && forall i :: 0 <= i < |fds| && IsRef(fds[i]) ==> Live(k, fds[i])
    ensures Refs(RetainAll(k, fds), x) == Refs(k, x) + multiset(fds)[x]
    decreases |fds|
  {
    hide Retain;
    if fds != [] {
      var r := Retain(k, fds[0]);
      RetainRefs(k, fds[0], x);
      forall i | 0 <= i < |fds[1..]| && IsRef(fds[1..][i]) ensures Live(r, fds[1..][i]) {
        RetainLive(k, fds[0], fds[i + 1]);
      }
      RetainAllRefs(r, fds[1..], x);
      assert fds == [fds[0]] + fds[1..];
    }
  }

  /** A fork gives the child a copy of the parent's table, and every object gains as many references as the parent has
      slots naming it; it does nothing when no process is free. */
  lemma ForkRetains(k: Kernel, p: nat, x: Fd)
    requires Exact(k, multiset{}) && p < MAX_PROCESSES && IsRef(x)
    ensures var r, child := Fork(k, p), DeadSlot(k.alive, 0);
            if child == MAX_PROCESSES then r == k
            else
              && !k.alive[child] && r.tables == k.tables[child := k.tables[p]] && r.alive == k.alive[child := true]
              && Refs(r, x) == Refs(k, x) + Held(k.tables[p], x)
  {
    hide Exact, RetainAll;
    var child := DeadSlot(k.alive, 0);
    if child < MAX_PROCESSES {
      var row, alive := k.tables[p], k.alive[child := true];
      forall i | 0 <= i < |row| && IsRef(row[i]) ensures Live(k, row[i]) {
        SlotLive(k, p, i);
      }
      RetainAllRefs(k, row, x);
      RetainAllTables(k, row, k.tables[child := row], alive);
      var k1 := RetainAll(k, row);
      assert Refs(k1.(tables := k.tables[child := row], alive := alive), x) == Refs(k1, x);
    }
  }

  // Closing

  /** The sockets of `before` that are no longer in use in `after`. */
  function Freed(before: seq<Sock>, after: seq<Sock>): (r: seq<Sock>)
    requires |before| == |after|
    ensures |r| == |before|
  {
    seq(|before|, i requires 0 <= i < |before| => if after[i].inUse then NO_SOCK else before[i])
  }

  /** Sockets still in use were in use, with the same descriptors queued. */
  predicate QueuesKept(before: seq<Sock>, after: seq<Sock>)
  {
    |before| == |after| && forall i :: 0 <= i < |before| && after[i].inUse ==>
      before[i].inUse && after[i].queue == before[i].queue
  }

  lemma {:induction false} ReleaseKeepsQueues(k: Kernel, fd: Fd)
    requires Shaped(k)
    ensures QueuesKept(k.sockets, Release(k, fd).sockets)
    decreases LiveSockets(k.sockets), 0
  {
    if Live(k, fd) && fd.kind == Socket && Less(k.sockets[fd.handle].refs) == 0 {
      OneSocketLess(k.sockets, fd.handle, NO_SOCK);
      ReleaseAllKeepsQueues(k.(sockets := k.sockets[fd.handle := NO_SOCK]), k.sockets[fd.handle].queue);
    }
  }

  lemma {:induction false} ReleaseAllKeepsQueues(k: Kernel, fds: seq<Fd>)
    requires Shaped(k)
    ensures QueuesKept(k.sockets, ReleaseAll(k, fds).sockets)
    decreases LiveSockets(k.sockets), |fds|
  {
    hide Release;
    if fds != [] {
      ReleaseKeepsQueues(k, fds[0]);
      ReleaseAllKeepsQueues(Release(k, fds[0]), fds[1..]);
    }
  }

  lemma OneSplits(before: Sock, after: Sock)
    requires after.inUse ==> before.inUse && after.queue == before.queue
    ensures QueuedIn(before) == QueuedIn(after) + QueuedIn(if after.inUse then NO_SOCK else before)
  {
  }

  lemma {:induction false} QueuedSplits(before: seq<Sock>, after: seq<Sock>, x: Fd)
    requires QueuesKept(before, after)
    ensures Queued(before)[x] == Queued(after)[x] + Queued(Freed(before, after))[x]
    decreases |before|
  {
    hide QueuedIn;
    if before != [] {
      QueuedSplits(before[1..], after[1..], x);
      var freed := Freed(before, after);
      assert freed[1..] == Freed(before[1..], after[1..]);
      assert QueuedIn(before[0]) == QueuedIn(after[0]) + QueuedIn(freed[0]) by { OneSplits(before[0], after[0]); }
    }
  }

  /** Closing frees exactly that slot, and every object loses one reference if the slot named it and one for each
      descriptor naming it in the queues of the sockets that are freed, through any depth of queued sockets. */
  lemma CloseDrops(k: Kernel, p: nat, f: nat, x: Fd)
    requires Exact(k, multiset{}) && p < MAX_PROCESSES && f < FD_MAX && IsRef(k.tables[p][f]) && IsRef(x)
    ensures var r := Close(k, p, f);
            && r.tables == k.tables[p := k.tables[p][f := FREE_FD]] && Shaped(r)
            && QueuesKept(k.sockets, r.sockets)
            && Refs(r, x) == Refs(k, x) - (if x == k.tables[p][f] then 1 else 0)
                             - Queued(Freed(k.sockets, r.sockets))[x]
  {
    hide Release, Exact, Queued, Slots;
    var fd, r := k.tables[p][f], Close(k, p, f);
    SlotLive(k, p, f);
    CloseExact(k, p, f);
    ReleaseKeepsQueues(k, fd);
    QueuedSplits(k.sockets, r.sockets, x);
    RowChange(k.tables[p], f, FREE_FD, x);
    TablesChange(k.tables, p, k.tables[p][f := FREE_FD], x);
    ExactRefs(k, x);
    ExactRefs(r, x);
  }

  lemma ExactRefs(k: Kernel, x: Fd)
    requires Exact(k, multiset{}) && IsRef(x)
    ensures Shaped(k) && Refs(k, x) == Slots(k.tables)[x] + Queued(k.sockets)[x]
  {
    hide Queued, Slots;
    assert Refs(k, x) == (Named(k) + multiset{})[x];
  }

  /** Releasing the descriptor frees no socket with descriptors queued in it. */
  predicate FreesNoQueue(k: Kernel, fd: Fd)
    requires Shaped(k)
  {
    fd.kind == Socket && Live(k, fd) && Refs(k, fd) <= 1 ==> k.sockets[fd.handle].queue == []
  }

  /** So unless a socket with descriptors queued in it is freed, the object named there loses one reference and no other
      object loses any. */
  lemma CloseDropsOne(k: Kernel, p: nat, f: nat, x: Fd)
    requires Exact(k, multiset{}) && p < MAX_PROCESSES && f < FD_MAX && IsRef(k.tables[p][f]) && IsRef(x)
    requires FreesNoQueue(k, k.tables[p][f])
    ensures Refs(Close(k, p, f), x) == Refs(k, x) - if x == k.tables[p][f] then 1 else 0
  {
    hide Exact, Queued;
    var fd, r := k.tables[p][f], Close(k, p, f);
    CloseDrops(k, p, f, x);
    SlotLive(k, p, f);
    ReleaseFreesOne(k, fd);
    forall i | 0 <= i < MAX_SOCKETS ensures QueuedIn(Freed(k.sockets, r.sockets)[i]) == multiset{} {
    }
    NothingQueued(Freed(k.sockets, r.sockets));
  }

  lemma ReleaseFreesOne(k: Kernel, fd: Fd)
    requires Shaped(k) && FreesNoQueue(k, fd)
    ensures forall i :: 0 <= i < MAX_SOCKETS && !(fd.kind == Socket && i == fd.handle && k.sockets[i].queue == []) ==>
              Release(k, fd).sockets[i].inUse == k.sockets[i].inUse
  {
  }

  lemma {:induction false} NothingQueued(s: seq<Sock>)
    requires forall i :: 0 <= i < |s| ==> QueuedIn(s[i]) == multiset{}
    ensures Queued(s) == multiset{}
    decreases |s|
  {
    if s != [] {
      NothingQueued(s[1..]);
    }
  }

  lemma HeldFill(row: seq<Fd>, f: nat, x: Fd, fd: Fd)
    requires f < |row| && row[f].kind == Free
    ensures Held(row[f := x], fd) == Held(row, fd) + Held([x], fd)
  {
    RowChange(row, f, x, fd);
  }

  lemma HeldCons(fds: seq<Fd>, fd: Fd)
    requires fds != []
    ensures Held(fds, fd) == Held([fds[0]], fd) + Held(fds[1..], fd)
  {
    assert fds == [fds[0]] + fds[1..];
  }

  lemma {:induction false} InstallAdds(k: Kernel, p: nat, fds: seq<Fd>, from: nat, fd: Fd)
    requires Shaped(k) && p < MAX_PROCESSES && from <= FD_MAX && HasRoom(k.tables[p], |fds|, from)
    ensures var r := InstallFrom(k, p, fds, from);
            && r == k.(tables := k.tables[p := r.tables[p]])
            && Held(r.tables[p], fd) == Held(k.tables[p], fd) + Held(fds, fd)
    decreases |fds|
  {
    hide Held, FreeSlot, Shaped;
    RowOf(k, p);
    if fds == [] {
      assert k.tables[p := k.tables[p]] == k.tables;
      assert Held(fds, fd) == 0 by { HeldNone(fd); }
    } else {
      var f := FreeSlot(k.tables[p], from);
      RoomLater(k.tables[p], |fds| - 1, f + 1, f, fds[0]);
      var k1 := SetSlot(k, p, f, fds[0]);
      RowOf(k1, p);
      InstallAdds(k1, p, fds[1..], f + 1, fd);
      HeldFill(k.tables[p], f, fds[0], fd);
      HeldCons(fds, fd);
      var r := InstallFrom(k1, p, fds[1..], f + 1);
      assert k1.tables[p := r.tables[p]] == k.tables[p := r.tables[p]];
    }
  }

  lemma RowOf(k: Kernel, p: nat)
    requires Shaped(k) && p < MAX_PROCESSES
    ensures p < |k.tables| && |k.tables[p]| == FD_MAX
  {
  }

  lemma HeldNone(fd: Fd)
    ensures Held([], fd) == 0
  {
  }

  /** Receiving with room hands over exactly the queued descriptors: each appears in the receiver's table as often
      more as it was queued, and the queue is empty. */
  lemma ReceiveHandsOver(k: Kernel, p: nat, f: nat, fd: Fd)
    requires Shaped(k) && p < MAX_PROCESSES && f < FD_MAX && k.tables[p][f].kind == Socket && Live(k, k.tables[p][f])
    requires HasRoom(k.tables[p], |k.sockets[k.tables[p][f].handle].queue|, 0)
    ensures var r, h := Receive(k, p, f, true), k.tables[p][f].handle;
            && r.sockets == k.sockets[h := k.sockets[h].(queue := [])] && r.tables == k.tables[p := r.tables[p]]
            && Held(r.tables[p], fd) == Held(k.tables[p], fd) + Held(k.sockets[h].queue, fd)
  {
    hide InstallFrom, HasRoom;
    var h := k.tables[p][f].handle;
    InstallAdds(SetQueue(k, h, []), p, k.sockets[h].queue, 0, fd);
  }

  lemma {:induction false} DropEmpties(k: Kernel, h: nat, i: nat, count: nat)
    requires Shaped(k) && h < MAX_SOCKETS && i <= count
    ensures DropFrom(k, h, i, count).tables == k.tables && DropFrom(k, h, i, count).sockets[h].queue == []
    decreases count - i
  {
    hide Release;
    if i < count && i < |k.sockets[h].queue| {
      var k1 := Release(k, k.sockets[h].queue[i]);
      DropEmpties(if i < |k1.sockets[h].queue| then SetQueue(k1, h, k1.sockets[h].queue[i := FREE_FD]) else k1,
        h, i + 1, count);
    }
  }

  /** Receiving without room empties the queue all the same, and no table changes. */
  lemma ReceiveDrops(k: Kernel, p: nat, f: nat, room: bool)
    requires Shaped(k) && p < MAX_PROCESSES && f < FD_MAX && k.tables[p][f].kind == Socket && Live(k, k.tables[p][f])
    requires !room || !HasRoom(k.tables[p], |k.sockets[k.tables[p][f].handle].queue|, 0)
    ensures var r := Receive(k, p, f, room);
            r.tables == k.tables && r.sockets[k.tables[p][f].handle].queue == []
  {
    hide HasRoom, DropFrom;
    var h := k.tables[p][f].handle;
    DropEmpties(k, h, 0, |k.sockets[h].queue|);
  }

  /** The socket, the descriptors and the peer a message with descriptors needs. */
  predicate Sendable(k: Kernel, p: nat, f: nat, fds: seq<nat>)
    requires Shaped(k) && p < MAX_PROCESSES
  {
    && f < FD_MAX && k.tables[p][f].kind == Socket && Live(k, k.tables[p][f])
    && 0 < |fds| <= ANCILLARY_MAX
    && (forall i :: 0 <= i < |fds| ==> fds[i] < FD_MAX && k.tables[p][fds[i]].kind != Free)
    && var peer := k.sockets[k.tables[p][f].handle].peer; Live(k, Fd(Socket, peer)) && k.sockets[peer].queue == []
  }

  /** Sending queues the named descriptors at the peer, in order, and leaves the sender's table alone; without the
      message itself being sent, or without a socket, descriptors and a peer that fit, nothing changes. */
  lemma SendQueues(k: Kernel, p: nat, f: nat, fds: seq<nat>, sent: bool)
    requires Exact(k, multiset{}) && p < MAX_PROCESSES
    ensures !(sent && Sendable(k, p, f, fds)) ==> Send(k, p, f, fds, sent) == k
    ensures sent && Sendable(k, p, f, fds) ==>
              var r, peer := Send(k, p, f, fds, sent), k.sockets[k.tables[p][f].handle].peer;
              && r.tables == k.tables && |r.sockets[peer].queue| == |fds|
              && forall i :: 0 <= i < |fds| ==> r.sockets[peer].queue[i] == k.tables[p][fds[i]]
  {
    hide RetainAll;
    if sent && Sendable(k, p, f, fds) {
      var peer := k.sockets[k.tables[p][f].handle].peer;
      var rights := Picked(k.tables[p], fds);
      RetainAllQueue(SetQueue(k, peer, rights), rights, peer, rights);
    }
  }
}
