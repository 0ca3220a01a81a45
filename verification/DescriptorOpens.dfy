/** What opening calls do: which descriptors they install, what those name, and when they fail. */
module DescriptorOpens {
  import opened Descriptors
  import opened DescriptorRuns

  /** `f` is the lowest free slot of the row from `from` on. */
  predicate Lowest(row: seq<Fd>, from: nat, f: nat)
  {
    from <= f < |row| && row[f].kind == Free && forall g :: from <= g < f ==> row[g].kind != Free
  }

  predicate FreeFrom(row: seq<Fd>, from: nat)
  {
    exists f :: from <= f < |row| && row[f].kind == Free
  }

  /** Slot `f` of process `p` got `fd` and no other slot changed. */
  predicate Slotted(k: Kernel, r: Kernel, p: nat, f: nat, fd: Fd)
    requires Shaped(k) && p < MAX_PROCESSES && f < FD_MAX
  {
    r.tables == k.tables[p := k.tables[p][f := fd]]
  }

  /** The descriptors of `fds` name new objects with one reference each, and no other count changed. */
  ghost predicate NewRefs(k: Kernel, r: Kernel, fds: set<Fd>)
    requires Shaped(k) && Shaped(r)
  {
    forall x :: IsRef(x) ==>
      if x in fds then !Live(k, x) && Live(r, x) && Refs(r, x) == 1
          else Refs(r, x) == Refs(k, x) && Live(r, x) == Live(k, x)
  }

  lemma SlotIsLowest(row: seq<Fd>, from: nat)
    requires from <= |row|
    ensures if FreeFrom(row, from) then Lowest(row, from, FreeSlot(row, from)) else FreeSlot(row, from) == |row|
  {
    hide FreeSlot;
    assert FreeSlot(row, from) < |row| ==> row[FreeSlot(row, from)].kind == Free;
  }

  /** Opening a file installs a new one at the lowest free slot from 3 on, exactly when there is such a slot and a free
      file; otherwise nothing changes. */
  lemma OpenFileInstalls(k: Kernel, p: nat) returns (f: nat, h: nat)
    requires Shaped(k) && p < MAX_PROCESSES
    ensures if FreeFrom(k.tables[p], 3) && exists i :: 0 <= i < MAX_FILES && !k.files[i].inUse
            then Lowest(k.tables[p], 3, f) && Slotted(k, OpenFile(k, p), p, f, Fd(Vnode, h))
                 && NewRefs(k, OpenFile(k, p), {Fd(Vnode, h)})
            else OpenFile(k, p) == k
  {
    f, h := FreeSlot(k.tables[p], 3), FreeObject(k.files, 0);
    hide FreeSlot, FreeObject;
    SlotIsLowest(k.tables[p], 3);
  }

  /** The same for eventfds. */
  lemma OpenEventInstalls(k: Kernel, p: nat) returns (f: nat, h: nat)
    requires Shaped(k) && p < MAX_PROCESSES
    ensures if FreeFrom(k.tables[p], 3) && exists i :: 0 <= i < MAX_EVENTS && !k.events[i].inUse
            then Lowest(k.tables[p], 3, f) && Slotted(k, OpenEvent(k, p), p, f, Fd(EventFd, h))
                 && NewRefs(k, OpenEvent(k, p), {Fd(EventFd, h)})
            else OpenEvent(k, p) == k
  {
    f, h := FreeSlot(k.tables[p], 3), FreeObject(k.events, 0);
    hide FreeSlot, FreeObject;
    SlotIsLowest(k.tables[p], 3);
  }

  /** The same for sockets, which are new: without peer and with nothing queued. */
  lemma OpenSocketInstalls(k: Kernel, p: nat) returns (f: nat, h: nat)
    requires Shaped(k) && p < MAX_PROCESSES
    ensures if FreeFrom(k.tables[p], 3) && exists i :: 0 <= i < MAX_SOCKETS && !k.sockets[i].inUse
            then Lowest(k.tables[p], 3, f) && Slotted(k, OpenSocket(k, p), p, f, Fd(Socket, h))
                 && NewRefs(k, OpenSocket(k, p), {Fd(Socket, h)})
                 && h < MAX_SOCKETS && OpenSocket(k, p).sockets == k.sockets[h := Sock(true, 1, -1, [])]
            else OpenSocket(k, p) == k
  {
    f, h := FreeSlot(k.tables[p], 3), FreeSocket(k.sockets, 0);
    hide FreeSlot, FreeSocket;
    SlotIsLowest(k.tables[p], 3);
  }

  /** A device takes the lowest free slot and no object. */
  lemma OpenDeviceInstalls(k: Kernel, p: nat, device: int) returns (f: nat)
    requires Shaped(k) && p < MAX_PROCESSES
    ensures if FreeFrom(k.tables[p], 3)
            then Lowest(k.tables[p], 3, f) && Slotted(k, OpenDevice(k, p, device), p, f, Fd(Plain, device))
                 && NewRefs(k, OpenDevice(k, p, device), {})
            else OpenDevice(k, p, device) == k
  {
    f := FreeSlot(k.tables[p], 3);
    hide FreeSlot;
    SlotIsLowest(k.tables[p], 3);
  }

  /** Slots `f` and `g` of process `p` got `fd` and `gd`, and no other slot changed. */
  predicate TwoSlotted(k: Kernel, r: Kernel, p: nat, f: nat, fd: Fd, g: nat, gd: Fd)
    requires Shaped(k) && p < MAX_PROCESSES && f < FD_MAX && g < FD_MAX
  {
    r.tables == k.tables[p := k.tables[p][f := fd][g := gd]]
  }

  /** Two free slots from 3 on. */
  predicate TwoFree(row: seq<Fd>)
  {
    exists f, g :: 3 <= f < g < |row| && row[f].kind == Free && row[g].kind == Free
  }

  lemma TwoLowest(row: seq<Fd>)
    requires |row| == FD_MAX
    ensures var f := FreeSlot(row, 3);
            && (f < |row| ==> Lowest(row, 3, f))
            && (TwoFree(row) <==> f < |row| && FreeSlot(row, f + 1) < |row|)
            && (TwoFree(row) ==> Lowest(row, f + 1, FreeSlot(row, f + 1)))
  {
    hide FreeSlot;
    SlotIsLowest(row, 3);
    var f := FreeSlot(row, 3);
    if f < |row| {
      SlotIsLowest(row, f + 1);
    }
    if TwoFree(row) {
      var x, y :| 3 <= x < y < |row| && row[x].kind == Free && row[y].kind == Free;
      assert FreeFrom(row, 3) && f <= x && FreeFrom(row, f + 1);
    }
  }

  /** A pipe takes the two lowest free slots from 3 on, its reading end first, exactly when there are two and a free
      pipe; otherwise nothing changes. */
  lemma OpenPipeInstalls(k: Kernel, p: nat) returns (f: nat, g: nat, h: nat)
    requires Shaped(k) && p < MAX_PROCESSES
    ensures if TwoFree(k.tables[p]) && exists i :: 0 <= i < MAX_PIPES && !k.pipes[i].inUse
            then Lowest(k.tables[p], 3, f) && Lowest(k.tables[p], f + 1, g)
                 && TwoSlotted(k, OpenPipe(k, p), p, f, Fd(PipeReader, h), g, Fd(PipeWriter, h))
                 && NewRefs(k, OpenPipe(k, p), {Fd(PipeReader, h), Fd(PipeWriter, h)})
            else OpenPipe(k, p) == k
  {
    f, h := FreeSlot(k.tables[p], 3), FreePipe(k.pipes, 0);
    g := if f < FD_MAX then FreeSlot(k.tables[p], f + 1) else FD_MAX;
    hide FreeSlot, FreePipe;
    TwoLowest(k.tables[p]);
  }

  predicate TwoUnused(sockets: seq<Sock>)
  {
    exists i, j :: 0 <= i < j < |sockets| && !sockets[i].inUse && !sockets[j].inUse
  }

  lemma UnusedPair(sockets: seq<Sock>)
    ensures var a := FreeSocket(sockets, 0); TwoUnused(sockets) <==>
            a < |sockets| && FreeSocket(sockets, a + 1) < |sockets|
  {
    hide FreeSocket;
    var a := FreeSocket(sockets, 0);
    if TwoUnused(sockets) {
      var i, j :| 0 <= i < j < |sockets| && !sockets[i].inUse && !sockets[j].inUse;
      assert a <= i;
    }
  }

  lemma PairRefs(k: Kernel, r: Kernel, a: nat, b: nat)
    requires Shaped(k) && Shaped(r) && a < b < MAX_SOCKETS && !k.sockets[a].inUse && !k.sockets[b].inUse
    requires r.files == k.files && r.pipes == k.pipes && r.events == k.events
    requires r.sockets == k.sockets[a := Sock(true, 1, b, [])][b := Sock(true, 1, a, [])]
    ensures NewRefs(k, r, {Fd(Socket, a), Fd(Socket, b)})
  {
  }

  /** A socket pair takes the two lowest free slots from 3 on and two sockets, each the other's peer, exactly when there
      are two slots and two free sockets; otherwise nothing changes. */
  lemma OpenPairInstalls(k: Kernel, p: nat) returns (f: nat, g: nat, a: nat, b: nat)
    requires Shaped(k) && p < MAX_PROCESSES
    ensures if TwoFree(k.tables[p]) && TwoUnused(k.sockets)
            then Lowest(k.tables[p], 3, f) && Lowest(k.tables[p], f + 1, g) && a != b
                 && TwoSlotted(k, OpenPair(k, p), p, f, Fd(Socket, a), g, Fd(Socket, b))
                 && NewRefs(k, OpenPair(k, p), {Fd(Socket, a), Fd(Socket, b)})
                 && a < MAX_SOCKETS && b < MAX_SOCKETS
                 && OpenPair(k, p).sockets == k.sockets[a := Sock(true, 1, b, [])][b := Sock(true, 1, a, [])]
            else OpenPair(k, p) == k
  {
    f, a := FreeSlot(k.tables[p], 3), FreeSocket(k.sockets, 0);
    g := if f < FD_MAX then FreeSlot(k.tables[p], f + 1) else FD_MAX;
    b := if a < MAX_SOCKETS then FreeSocket(k.sockets, a + 1) else MAX_SOCKETS;
    hide FreeSlot, FreeSocket, NewRefs, TwoFree, TwoUnused;
    TwoLowest(k.tables[p]);
    UnusedPair(k.sockets);
    if f < FD_MAX && g < FD_MAX && a < MAX_SOCKETS && b < MAX_SOCKETS {
      PairRefs(k, OpenPair(k, p), a, b);
    }
  }
}
