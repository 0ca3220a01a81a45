/** Descriptor operations and whole runs of them: reference counts stay exact. */
module DescriptorRuns {
  import opened Options
  import opened Descriptors

  // Changing tables

  function SetSlot(k: Kernel, p: nat, f: nat, fd: Fd): (r: Kernel)
    requires Shaped(k) && p < MAX_PROCESSES && f < FD_MAX
    ensures Shaped(r)
  {
    k.(tables := k.tables[p := k.tables[p][f := fd]])
  }

  lemma {:induction false} TablesChange(t: seq<seq<Fd>>, p: nat, row: seq<Fd>, fd: Fd)
    requires p < |t|
    ensures Slots(t[p := row])[fd] + multiset(t[p])[fd] == Slots(t)[fd] + multiset(row)[fd]
  {
    if p == 0 {
      assert t[p := row][1..] == t[1..];
    } else {
      assert t[p := row][1..] == t[1..][p - 1 := row];
      TablesChange(t[1..], p - 1, row, fd);
    }
  }

  lemma RowChange(row: seq<Fd>, f: nat, x: Fd, fd: Fd)
    requires f < |row|
    ensures multiset(row[f := x])[fd] + multiset{row[f]}[fd] == multiset(row)[fd] + multiset{x}[fd]
  {
    assert row == row[..f] + [row[f]] + row[f + 1..];
    assert row[f := x] == row[..f] + [x] + row[f + 1..];
  }

  lemma SlotCounted(k: Kernel, p: nat, f: nat)
    requires Shaped(k) && p < MAX_PROCESSES && f < FD_MAX
    ensures k.tables[p][f] in Slots(k.tables)
  {
    InSlots(k.tables, p, k.tables[p][f]);
  }

  lemma {:induction false} InSlots(t: seq<seq<Fd>>, p: nat, fd: Fd)
    requires p < |t| && fd in t[p]
    ensures fd in Slots(t)
  {
    if p > 0 {
      InSlots(t[1..], p - 1, fd);
    }
  }

  /** Overwriting a slot moves its old descriptor into the caller's hands and takes the new one out of them. */
  lemma SetSlotExact(k: Kernel, p: nat, f: nat, fd: Fd, extra: multiset<Fd>)
    requires Exact(k, extra + multiset{fd}) && p < MAX_PROCESSES && f < FD_MAX
    ensures Exact(SetSlot(k, p, f, fd), extra + multiset{k.tables[p][f]})
  {
    hide Slots, Queued;
    var r, gone := SetSlot(k, p, f, fd), k.tables[p][f];
    forall x | IsRef(x) ensures Refs(r, x) == (Named(r) + (extra + multiset{gone}))[x] {
      TablesChange(k.tables, p, k.tables[p][f := fd], x);
      RowChange(k.tables[p], f, fd, x);
      assert Refs(r, x) == Refs(k, x);
      assert Refs(k, x) == (Named(k) + (extra + multiset{fd}))[x];
    }
  }

  /** Descriptors that name no object weigh nothing. */
  lemma Weightless(k: Kernel, extra: multiset<Fd>, fd: Fd)
    requires !IsRef(fd)
    ensures Exact(k, extra) <==> Exact(k, extra + multiset{fd})
  {
    if Exact(k, extra) {
      forall x | IsRef(x) ensures Refs(k, x) == (Named(k) + (extra + multiset{fd}))[x] {
        assert Refs(k, x) == (Named(k) + extra)[x];
      }
    }
    if Exact(k, extra + multiset{fd}) {
      forall x | IsRef(x) ensures Refs(k, x) == (Named(k) + extra)[x] {
        assert Refs(k, x) == (Named(k) + (extra + multiset{fd}))[x];
      }
    }
  }

  /** A descriptor in a table or in someone's hands names an object in use. */
  lemma NamedIsLive(k: Kernel, extra: multiset<Fd>, fd: Fd)
    requires Exact(k, extra) && fd in Named(k) + extra && IsRef(fd)
    ensures Live(k, fd)
  {
    assert Refs(k, fd) == (Named(k) + extra)[fd] > 0;
  }

  // Releasing never looks at tables

  predicate TablesOk(t: seq<seq<Fd>>)
  {
    |t| == MAX_PROCESSES && forall p :: 0 <= p < MAX_PROCESSES ==> |t[p]| == FD_MAX
  }

  lemma {:induction false} ReleaseTables(k: Kernel, fd: Fd, t: seq<seq<Fd>>)
    requires Shaped(k) && TablesOk(t)
    ensures Release(k.(tables := t), fd) == Release(k, fd).(tables := t)
    decreases LiveSockets(k.sockets), 0
  {
    if !Shallow(k, fd) {
      OneSocketLess(k.sockets, fd.handle, NO_SOCK);
      ReleaseAllTables(k.(sockets := k.sockets[fd.handle := NO_SOCK]), k.sockets[fd.handle].queue, t);
    }
  }

  lemma {:induction false} ReleaseAllTables(k: Kernel, fds: seq<Fd>, t: seq<seq<Fd>>)
    requires Shaped(k) && TablesOk(t)
    ensures ReleaseAll(k.(tables := t), fds) == ReleaseAll(k, fds).(tables := t)
    decreases LiveSockets(k.sockets), |fds|
  {
    hide Release;
    if fds != [] {
      ReleaseTables(k, fds[0], t);
      ReleaseAllTables(Release(k, fds[0]), fds[1..], t);
    }
  }

  // Closing

  /** close_fd_internal: release, then clear the slot. */
  function Close(k: Kernel, p: nat, f: nat): (r: Kernel)
    requires Shaped(k) && p < MAX_PROCESSES
    ensures Shaped(r) && r.alive == k.alive
    ensures f < FD_MAX ==> r.tables == k.tables[p := k.tables[p][f := r.tables[p][f]]] && r.tables[p][f].kind == Free
  {
    if f >= FD_MAX || k.tables[p][f].kind == Free then
      assert f < FD_MAX ==> k.tables[p][f := k.tables[p][f]] == k.tables[p];
      k
    else SetSlot(Release(k, k.tables[p][f]), p, f, FREE_FD)
  }

  lemma CloseExact(k: Kernel, p: nat, f: nat)
    requires Exact(k, multiset{}) && p < MAX_PROCESSES
    ensures Exact(Close(k, p, f), multiset{})
  {
    hide Exact, Release;
    if f < FD_MAX && k.tables[p][f].kind != Free {
      var fd := k.tables[p][f];
      var k0 := SetSlot(k, p, f, FREE_FD);
      Weightless(k, multiset{}, FREE_FD);
      SetSlotExact(k, p, f, FREE_FD, multiset{});
      ReleaseExact(k0, fd, multiset{});
      ReleaseTables(k, fd, k0.tables);
    }
  }

  /** syscall_release_fd_table_entries from slot `f` on. */
  function CloseFrom(k: Kernel, p: nat, f: nat): (r: Kernel)
    requires Shaped(k) && p < MAX_PROCESSES && f <= FD_MAX
    ensures Shaped(r) && r.alive == k.alive
    decreases FD_MAX - f
  {
    if f == FD_MAX then k else CloseFrom(Close(k, p, f), p, f + 1)
  }

  lemma {:induction false} CloseFromExact(k: Kernel, p: nat, f: nat)
    requires Exact(k, multiset{}) && p < MAX_PROCESSES && f <= FD_MAX
    ensures var r := CloseFrom(k, p, f);
            && Exact(r, multiset{})
            && (forall q :: 0 <= q < MAX_PROCESSES && q != p ==> r.tables[q] == k.tables[q])
            && (forall g :: f <= g < FD_MAX ==> r.tables[p][g].kind == Free)
            && (forall g :: 0 <= g < f ==> r.tables[p][g] == k.tables[p][g])
    decreases FD_MAX - f
  {
    hide Close;
    if f < FD_MAX {
      CloseExact(k, p, f);
      CloseFromExact(Close(k, p, f), p, f + 1);
    }
  }

  /** A process ends: its descriptors are released and its slot is free for another. */
  function Exit(k: Kernel, p: nat): (r: Kernel)
    requires Shaped(k)
    ensures Shaped(r)
  {
    if p >= MAX_PROCESSES || !k.alive[p] then k
    else var r := CloseFrom(k, p, 0); r.(alive := r.alive[p := false])
  }

  // Opening

  function FreeSlot(row: seq<Fd>, from: nat): (f: nat)
    requires from <= |row|
    ensures from <= f <= |row| && (f < |row| ==> row[f].kind == Free)
    ensures forall g :: from <= g < f ==> row[g].kind != Free
    decreases |row| - from
  {
    if from == |row| || row[from].kind == Free then from else FreeSlot(row, from + 1)
  }

  function FreeObject(objects: seq<Object>, from: nat): (i: nat)
    requires from <= |objects|
    ensures from <= i <= |objects| && (i < |objects| ==> !objects[i].inUse)
    ensures forall j :: from <= j < i ==> objects[j].inUse
    decreases |objects| - from
  {
    if from == |objects| || !objects[from].inUse then from else FreeObject(objects, from + 1)
  }

  function FreePipe(pipes: seq<Pipe>, from: nat): (i: nat)
    requires from <= |pipes|
    ensures from <= i <= |pipes| && (i < |pipes| ==> !pipes[i].inUse)
    ensures forall j :: from <= j < i ==> pipes[j].inUse
    decreases |pipes| - from
  {
    if from == |pipes| || !pipes[from].inUse then from else FreePipe(pipes, from + 1)
  }

  function FreeSocket(sockets: seq<Sock>, from: nat): (i: nat)
    requires from <= |sockets|
    ensures from <= i <= |sockets| && (i < |sockets| ==> !sockets[i].inUse)
    ensures forall j :: from <= j < i ==> sockets[j].inUse
    decreases |sockets| - from
  {
    if from == |sockets| || !sockets[from].inUse then from else FreeSocket(sockets, from + 1)
  }

  /** install_vnode_fd. */
  function OpenFile(k: Kernel, p: nat): (r: Kernel)
    requires Shaped(k) && p < MAX_PROCESSES
    ensures Shaped(r) && r.alive == k.alive
  {
    var h, f := FreeObject(k.files, 0), FreeSlot(k.tables[p], 3);
    if h == MAX_FILES || f == FD_MAX then k
    else SetSlot(k.(files := k.files[h := Object(true, 1)]), p, f, Fd(Vnode, h))
  }

  /** sys_eventfd2. */
  function OpenEvent(k: Kernel, p: nat): (r: Kernel)
    requires Shaped(k) && p < MAX_PROCESSES
    ensures Shaped(r) && r.alive == k.alive
  {
    var h, f := FreeObject(k.events, 0), FreeSlot(k.tables[p], 3);
    if h == MAX_EVENTS || f == FD_MAX then k
    else SetSlot(k.(events := k.events[h := Object(true, 1)]), p, f, Fd(EventFd, h))
  }

  /** install_socket_fd. */
  function OpenSocket(k: Kernel, p: nat): (r: Kernel)
    requires Shaped(k) && p < MAX_PROCESSES
    ensures Shaped(r) && r.alive == k.alive
  {
    var h, f := FreeSocket(k.sockets, 0), FreeSlot(k.tables[p], 3);
    if h == MAX_SOCKETS || f == FD_MAX then k
    else SetSlot(k.(sockets := k.sockets[h := Sock(true, 1, -1, [])]), p, f, Fd(Socket, h))
  }

  /** install_device_fd. */
  function OpenDevice(k: Kernel, p: nat, device: int): (r: Kernel)
    requires Shaped(k) && p < MAX_PROCESSES
    ensures Shaped(r) && r.alive == k.alive
  {
    var f := FreeSlot(k.tables[p], 3);
    if f == FD_MAX then k else SetSlot(k, p, f, Fd(Plain, device))
  }

  /** sys_pipe. */
  function OpenPipe(k: Kernel, p: nat): (r: Kernel)
    requires Shaped(k) && p < MAX_PROCESSES
    ensures Shaped(r) && r.alive == k.alive
  {
    var h, f := FreePipe(k.pipes, 0), FreeSlot(k.tables[p], 3);
    if h == MAX_PIPES || f == FD_MAX then k
    else
      var g := FreeSlot(k.tables[p], f + 1);
      if g == FD_MAX then k
      else SetSlot(SetSlot(k.(pipes := k.pipes[h := Pipe(true, 1, 1)]), p, f, Fd(PipeReader, h)), p, g,
          Fd(PipeWriter, h))
  }

  /** sys_socketpair. */
  function OpenPair(k: Kernel, p: nat): (r: Kernel)
    requires Shaped(k) && p < MAX_PROCESSES
    ensures Shaped(r) && r.alive == k.alive
  {
    var a := FreeSocket(k.sockets, 0);
    if a == MAX_SOCKETS then k
    else
      var b, f := FreeSocket(k.sockets, a + 1), FreeSlot(k.tables[p], 3);
      if b == MAX_SOCKETS || f == FD_MAX then k
      else
        var g := FreeSlot(k.tables[p], f + 1);
        if g == FD_MAX then k
        else
          var k1 := k.(sockets := k.sockets[a := Sock(true, 1, b, [])][b := Sock(true, 1, a, [])]);
          SetSlot(SetSlot(k1, p, f, Fd(Socket, a)), p, g, Fd(Socket, b))
  }

  /** A slot that was free takes a descriptor from the caller's hands. */
  lemma FillSlotExact(k: Kernel, p: nat, f: nat, fd: Fd, extra: multiset<Fd>)
    requires Exact(k, extra + multiset{fd}) && p < MAX_PROCESSES && f < FD_MAX && k.tables[p][f].kind == Free
    ensures Exact(SetSlot(k, p, f, fd), extra)
  {
    hide Exact;
    SetSlotExact(k, p, f, fd, extra);
    Weightless(SetSlot(k, p, f, fd), extra, k.tables[p][f]);
  }

  lemma OpenFileExact(k: Kernel, p: nat)
    requires Exact(k, multiset{}) && p < MAX_PROCESSES
    ensures Exact(OpenFile(k, p), multiset{})
  {
    var h, f := FreeObject(k.files, 0), FreeSlot(k.tables[p], 3);
    if h < MAX_FILES && f < FD_MAX {
      var k1, fd := k.(files := k.files[h := Object(true, 1)]), Fd(Vnode, h);
      NewObjectExact(k, k1, multiset{fd});
      FillSlotExact(k1, p, f, fd, multiset{});
    }
  }

  lemma OpenEventExact(k: Kernel, p: nat)
    requires Exact(k, multiset{}) && p < MAX_PROCESSES
    ensures Exact(OpenEvent(k, p), multiset{})
  {
    var h, f := FreeObject(k.events, 0), FreeSlot(k.tables[p], 3);
    if h < MAX_EVENTS && f < FD_MAX {
      var k1, fd := k.(events := k.events[h := Object(true, 1)]), Fd(EventFd, h);
      NewObjectExact(k, k1, multiset{fd});
      FillSlotExact(k1, p, f, fd, multiset{});
    }
  }

  /** Creating an object puts its references into the creator's hands. */
  lemma NewObjectExact(k: Kernel, k1: Kernel, new_: multiset<Fd>)
    requires Exact(k, multiset{}) && Shaped(k1) && UseIsCount(k1) && Named(k1) == Named(k)
    requires forall x {:trigger Refs(k1, x)} :: IsRef(x) ==> Refs(k1, x) == Refs(k, x) + new_[x]
    ensures Exact(k1, multiset{} + new_)
  {
    forall x | IsRef(x) ensures Refs(k1, x) == (Named(k1) + (multiset{} + new_))[x] {
      assert Refs(k, x) == (Named(k) + multiset{})[x];
    }
  }

  lemma FreshQueue(s: seq<Sock>, h: nat, x: Sock)
    requires h < |s| && !s[h].inUse && x.inUse && x.queue == []
    ensures Queued(s[h := x]) == Queued(s)
  {
    forall fd ensures Queued(s[h := x])[fd] == Queued(s)[fd] {
      QueuedChange(s, h, x, fd);
    }
  }

  /** A new socket, with its one reference in the creator's hands. */
  lemma NewSocketExact(k: Kernel, h: nat, peer: int, extra: multiset<Fd>)
    requires Exact(k, extra) && h < MAX_SOCKETS && !k.sockets[h].inUse
    ensures Exact(k.(sockets := k.sockets[h := Sock(true, 1, peer, [])]), extra + multiset{Fd(Socket, h)})
  {
    hide Queued, Slots;
    var x := Sock(true, 1, peer, []);
    var k1 := k.(sockets := k.sockets[h := x]);
    FreshQueue(k.sockets, h, x);
    forall fd | IsRef(fd) ensures Refs(k1, fd) == (Named(k1) + (extra + multiset{Fd(Socket, h)}))[fd] {
      assert Refs(k, fd) == (Named(k) + extra)[fd];
    }
  }

  lemma OpenSocketExact(k: Kernel, p: nat)
    requires Exact(k, multiset{}) && p < MAX_PROCESSES
    ensures Exact(OpenSocket(k, p), multiset{})
  {
    hide Exact;
    var h, f := FreeSocket(k.sockets, 0), FreeSlot(k.tables[p], 3);
    if h < MAX_SOCKETS && f < FD_MAX {
      NewSocketExact(k, h, -1, multiset{});
      FillSlotExact(k.(sockets := k.sockets[h := Sock(true, 1, -1, [])]), p, f, Fd(Socket, h), multiset{});
    }
  }

  lemma OpenDeviceExact(k: Kernel, p: nat, device: int)
    requires Exact(k, multiset{}) && p < MAX_PROCESSES
    ensures Exact(OpenDevice(k, p, device), multiset{})
  {
    hide Exact;
    var f := FreeSlot(k.tables[p], 3);
    if f < FD_MAX {
      Weightless(k, multiset{}, Fd(Plain, device));
      FillSlotExact(k, p, f, Fd(Plain, device), multiset{});
    }
  }

  /** Two new descriptors go into two free slots. */
  lemma FillTwoExact(k: Kernel, p: nat, f: nat, a: Fd, g: nat, b: Fd)
    requires Exact(k, multiset{} + multiset{a, b}) && p < MAX_PROCESSES && f < g < FD_MAX
    requires k.tables[p][f].kind == Free && k.tables[p][g].kind == Free
    ensures Exact(SetSlot(SetSlot(k, p, f, a), p, g, b), multiset{})
  {
    hide Exact;
    assert multiset{} + multiset{a, b} == multiset{b} + multiset{a};
    assert multiset{b} == multiset{} + multiset{b};
    FillSlotExact(k, p, f, a, multiset{b});
    FillSlotExact(SetSlot(k, p, f, a), p, g, b, multiset{});
  }

  lemma OpenPipeExact(k: Kernel, p: nat)
    requires Exact(k, multiset{}) && p < MAX_PROCESSES
    ensures Exact(OpenPipe(k, p), multiset{})
  {
    hide Exact;
    var h, f := FreePipe(k.pipes, 0), FreeSlot(k.tables[p], 3);
    if h < MAX_PIPES && f < FD_MAX {
      var g := FreeSlot(k.tables[p], f + 1);
      if g < FD_MAX {
        NewPipeExact(k, h);
        FillTwoExact(k.(pipes := k.pipes[h := Pipe(true, 1, 1)]), p, f, Fd(PipeReader, h), g, Fd(PipeWriter, h));
      }
    }
  }

  lemma NewPipeExact(k: Kernel, h: nat)
    requires Exact(k, multiset{}) && h < MAX_PIPES && !k.pipes[h].inUse
    ensures Exact(k.(pipes := k.pipes[h := Pipe(true, 1, 1)]),
            multiset{} + multiset{Fd(PipeReader, h), Fd(PipeWriter, h)})
  {
    hide Queued, Slots;
    var k1, new_ := k.(pipes := k.pipes[h := Pipe(true, 1, 1)]), multiset{Fd(PipeReader, h), Fd(PipeWriter, h)};
    forall x | IsRef(x) ensures Refs(k1, x) == (Named(k1) + (multiset{} + new_))[x] {
      assert Refs(k, x) == (Named(k) + multiset{})[x];
    }
  }

  lemma OpenPairExact(k: Kernel, p: nat)
    requires Exact(k, multiset{}) && p < MAX_PROCESSES
    ensures Exact(OpenPair(k, p), multiset{})
  {
    var a := FreeSocket(k.sockets, 0);
    if a < MAX_SOCKETS {
      var b, f := FreeSocket(k.sockets, a + 1), FreeSlot(k.tables[p], 3);
      if b < MAX_SOCKETS && f < FD_MAX {
        var g := FreeSlot(k.tables[p], f + 1);
        if g < FD_MAX {
          PairExact(k, p, a, b);
          FillTwoExact(k.(sockets := k.sockets[a := Sock(true, 1, b, [])][b := Sock(true, 1, a, [])]), p, f,
              Fd(Socket, a), g, Fd(Socket, b));
        }
      }
    }
  }

  lemma PairExact(k: Kernel, p: nat, a: nat, b: nat)
    requires Exact(k, multiset{}) && a < b < MAX_SOCKETS && !k.sockets[a].inUse && !k.sockets[b].inUse
    ensures Exact(k.(sockets := k.sockets[a := Sock(true, 1, b, [])][b := Sock(true, 1, a, [])]),
            multiset{} + multiset{Fd(Socket, a), Fd(Socket, b)})
  {
    hide Exact;
    NewSocketExact(k, a, b, multiset{});
    NewSocketExact(k.(sockets := k.sockets[a := Sock(true, 1, b, [])]), b, a, multiset{} + multiset{Fd(Socket, a)});
    assert multiset{} + multiset{Fd(Socket, a)} + multiset{Fd(Socket, b)} == multiset{}
           + multiset{Fd(Socket, a), Fd(Socket, b)};
  }

  // Duplicating

  /** dup_fd_common: `target` is the requested descriptor, or none for the lowest free one. */
  function Dup(k: Kernel, p: nat, prior: nat, target: Option<nat>, overwrite: bool): (r: Kernel)
    requires Shaped(k) && p < MAX_PROCESSES
    ensures Shaped(r) && r.alive == k.alive
  {
    if prior >= FD_MAX || k.tables[p][prior].kind == Free then k
    else
      match target
      case None =>
        var f := FreeSlot(k.tables[p], 0);
        if f == FD_MAX then k else Copy(k, p, prior, f)
      case Some(f) =>
        if f >= FD_MAX || f == prior then k
        else if overwrite then Copy(Close(k, p, f), p, prior, f)
        else if k.tables[p][f].kind != Free then k
        else Copy(k, p, prior, f)
  }

  /** Copies a slot and retains what it names; a vnode that is gone is not copied. */
  function Copy(k: Kernel, p: nat, from: nat, f: nat): (r: Kernel)
    requires Shaped(k) && p < MAX_PROCESSES && from < FD_MAX && f < FD_MAX
    ensures Shaped(r) && r.alive == k.alive
  {
    var fd := k.tables[p][from];
    var k1 := Retain(SetSlot(k, p, f, fd), fd);
    if fd.kind == Vnode && !Live(k1, fd) then SetSlot(k1, p, f, FREE_FD) else k1
  }

  lemma RetainTables(k: Kernel, fd: Fd, t: seq<seq<Fd>>)
    requires Shaped(k) && TablesOk(t)
    ensures Retain(k.(tables := t), fd) == Retain(k, fd).(tables := t)
  {
  }

  lemma CopyExact(k: Kernel, p: nat, from: nat, f: nat)
    requires Exact(k, multiset{}) && p < MAX_PROCESSES && from < FD_MAX && f < FD_MAX && k.tables[p][f].kind == Free
    ensures Exact(Copy(k, p, from, f), multiset{})
  {
    hide Exact, Retain;
    var fd := k.tables[p][from];
    SlotLive(k, p, from);
    RetainExact(k, fd, multiset{});
    RetainTables(k, fd, SetSlot(k, p, f, fd).tables);
    FillSlotExact(Retain(k, fd), p, f, fd, multiset{});
    if IsRef(fd) {
      RetainLive(k, fd, fd);
      assert Live(SetSlot(Retain(k, fd), p, f, fd), fd) == Live(Retain(k, fd), fd);
    }
  }

  lemma SlotLive(k: Kernel, p: nat, f: nat)
    requires Exact(k, multiset{}) && p < MAX_PROCESSES && f < FD_MAX
    ensures IsRef(k.tables[p][f]) ==> Live(k, k.tables[p][f])
  {
    SlotCounted(k, p, f);
    if IsRef(k.tables[p][f]) {
      NamedIsLive(k, multiset{}, k.tables[p][f]);
    }
  }

  lemma DupExact(k: Kernel, p: nat, prior: nat, target: Option<nat>, overwrite: bool)
    requires Exact(k, multiset{}) && p < MAX_PROCESSES
    ensures Exact(Dup(k, p, prior, target, overwrite), multiset{})
  {
    hide Exact, Copy, Close;
    if prior < FD_MAX && k.tables[p][prior].kind != Free {
      match target
      case None =>
        var f := FreeSlot(k.tables[p], 0);
        if f < FD_MAX { CopyExact(k, p, prior, f); }
      case Some(f) =>
        if f < FD_MAX && overwrite {
          CloseExact(k, p, f);
          CopyExact(Close(k, p, f), p, prior, f);
        } else if f < FD_MAX && k.tables[p][f].kind == Free {
          CopyExact(k, p, prior, f);
        }
    }
  }

  // Forking

  function DeadSlot(alive: seq<bool>, from: nat): (p: nat)
    requires from <= |alive|
    ensures from <= p <= |alive| && (p < |alive| ==> !alive[p])
    decreases |alive| - from
  {
    if from == |alive| || !alive[from] then from else DeadSlot(alive, from + 1)
  }

  /** The descriptor part of sys_fork and sys_clone: the child's table is a copy, and everything in it is retained. */
  function Fork(k: Kernel, p: nat): (r: Kernel)
    requires Shaped(k) && p < MAX_PROCESSES
    ensures Shaped(r)
  {
    var child := DeadSlot(k.alive, 0);
    if child == MAX_PROCESSES then k
    else RetainAll(k.(tables := k.tables[child := k.tables[p]], alive := k.alive[child := true]), k.tables[p])
  }

  lemma {:induction false} RetainAllTables(k: Kernel, fds: seq<Fd>, t: seq<seq<Fd>>, alive: seq<bool>)
    requires Shaped(k) && TablesOk(t) && |alive| == MAX_PROCESSES
    ensures RetainAll(k.(tables := t, alive := alive), fds) == RetainAll(k, fds).(tables := t, alive := alive)
    decreases |fds|
  {
    if fds != [] {
      assert Retain(k.(tables := t, alive := alive), fds[0]) == Retain(k, fds[0]).(tables := t, alive := alive);
      RetainAllTables(Retain(k, fds[0]), fds[1..], t, alive);
    }
  }

  predicate AllFree(row: seq<Fd>)
  {
    forall f :: 0 <= f < |row| ==> row[f].kind == Free
  }

  /** Filling an empty table takes its descriptors out of the caller's hands. */
  lemma FillTableExact(k: Kernel, child: nat, row: seq<Fd>, alive: seq<bool>)
    requires Exact(k, multiset{} + multiset(row)) && child < MAX_PROCESSES && |row| == FD_MAX
    requires AllFree(k.tables[child]) && |alive| == MAX_PROCESSES
    ensures Exact(k.(tables := k.tables[child := row], alive := alive), multiset{})
  {
    hide Slots, Queued;
    var r := k.(tables := k.tables[child := row], alive := alive);
    forall x | IsRef(x) ensures Refs(r, x) == (Named(r) + multiset{})[x] {
      TablesChange(k.tables, child, row, x);
      FreeRow(k.tables[child], x);
      assert Refs(r, x) == Refs(k, x);
      assert Refs(k, x) == (Named(k) + (multiset{} + multiset(row)))[x];
    }
  }

  lemma FreeRow(row: seq<Fd>, x: Fd)
    requires AllFree(row) && IsRef(x)
    ensures multiset(row)[x] == 0
  {
    assert x !in row;
  }

  lemma ForkExact(k: Kernel, p: nat)
    requires Exact(k, multiset{}) && p < MAX_PROCESSES
    requires forall q :: 0 <= q < MAX_PROCESSES && !k.alive[q] ==> AllFree(k.tables[q])
    ensures Exact(Fork(k, p), multiset{})
  {
    hide Exact, RetainAll;
    var child := DeadSlot(k.alive, 0);
    if child < MAX_PROCESSES {
      var row, alive := k.tables[p], k.alive[child := true];
      forall i | 0 <= i < |row| && IsRef(row[i]) ensures Live(k, row[i]) {
        SlotLive(k, p, i);
      }
      RetainAllExact(k, row, multiset{});
      RetainAllTables(k, row, k.tables[child := row], alive);
      FillTableExact(RetainAll(k, row), child, row, alive);
    }
  }

  // Passing descriptors through sockets

  function SetQueue(k: Kernel, h: nat, queue: seq<Fd>): (r: Kernel)
    requires Shaped(k) && h < MAX_SOCKETS
    ensures Shaped(r)
  {
    k.(sockets := k.sockets[h := k.sockets[h].(queue := queue)])
  }

  /** Replacing the queue of a socket in use. */
  lemma SetQueueExact(k: Kernel, h: nat, queue: seq<Fd>, gone: multiset<Fd>, came: multiset<Fd>)
    requires Exact(k, multiset{} + came) && h < MAX_SOCKETS && k.sockets[h].inUse
    requires multiset(queue) + gone == multiset(k.sockets[h].queue) + came
    ensures Exact(SetQueue(k, h, queue), multiset{} + gone)
  {
    hide Slots, Queued;
    var r := SetQueue(k, h, queue);
    forall x | IsRef(x) ensures Refs(r, x) == (Named(r) + (multiset{} + gone))[x] {
      QueuedChange(k.sockets, h, k.sockets[h].(queue := queue), x);
      assert (multiset(queue) + gone)[x] == (multiset(k.sockets[h].queue) + came)[x];
      assert Refs(r, x) == Refs(k, x);
      assert Refs(k, x) == (Named(k) + (multiset{} + came))[x];
    }
  }

  /** The rights part of sys_sendmsg: the peer's empty queue takes retained copies of the named descriptors. */
  function Send(k: Kernel, p: nat, f: nat, fds: seq<nat>, sent: bool): (r: Kernel)
    requires Shaped(k) && p < MAX_PROCESSES
    ensures Shaped(r) && r.alive == k.alive && r.tables == k.tables
  {
    if f >= FD_MAX || k.tables[p][f].kind != Socket || !Live(k, k.tables[p][f]) then k
    else if |fds| > ANCILLARY_MAX || (exists i ::
        0 <= i < |fds| && (fds[i] >= FD_MAX || k.tables[p][fds[i]].kind == Free)) then k
    else
      var peer := k.sockets[k.tables[p][f].handle].peer;
      if fds == [] || !sent || !Live(k, Fd(Socket, peer)) || k.sockets[peer].queue != [] then k
      else
        var rights := Picked(k.tables[p], fds);
        RetainAll(SetQueue(k, peer, rights), rights)
  }

  function Picked(row: seq<Fd>, fds: seq<nat>): (r: seq<Fd>)
    requires forall i :: 0 <= i < |fds| ==> fds[i] < |row|
    ensures |r| == |fds| && forall i :: 0 <= i < |fds| ==> r[i] == row[fds[i]]
  {
    seq(|fds|, i requires 0 <= i < |fds| => row[fds[i]])
  }

  lemma {:induction false} RetainAllQueue(k: Kernel, fds: seq<Fd>, h: nat, queue: seq<Fd>)
    requires Shaped(k) && h < MAX_SOCKETS
    ensures RetainAll(SetQueue(k, h, queue), fds) == SetQueue(RetainAll(k, fds), h, queue)
    ensures RetainAll(k, fds).sockets[h].inUse == k.sockets[h].inUse
            && RetainAll(k, fds).sockets[h].queue == k.sockets[h].queue
    decreases |fds|
  {
    if fds != [] {
      RetainQueue(k, fds[0], h, queue);
      RetainAllQueue(Retain(k, fds[0]), fds[1..], h, queue);
    }
  }

  lemma RetainQueue(k: Kernel, fd: Fd, h: nat, queue: seq<Fd>)
    requires Shaped(k) && h < MAX_SOCKETS
    ensures Retain(SetQueue(k, h, queue), fd) == SetQueue(Retain(k, fd), h, queue)
    ensures Retain(k, fd).sockets[h].inUse == k.sockets[h].inUse && Retain(k, fd).sockets[h].queue == k.sockets[h].queue
  {
    if Live(k, fd) && fd.kind == Socket {
      var a, b := Retain(SetQueue(k, h, queue), fd).sockets, SetQueue(Retain(k, fd), h, queue).sockets;
      assert forall i :: 0 <= i < MAX_SOCKETS ==> a[i] == b[i];
      assert a == b;
    }
  }

  lemma SendExact(k: Kernel, p: nat, f: nat, fds: seq<nat>, sent: bool)
    requires Exact(k, multiset{}) && p < MAX_PROCESSES
    ensures Exact(Send(k, p, f, fds, sent), multiset{})
  {
    hide Exact, RetainAll;
    var r := Send(k, p, f, fds, sent);
    if r != k {
      var peer := k.sockets[k.tables[p][f].handle].peer;
      var rights := Picked(k.tables[p], fds);
      forall i | 0 <= i < |rights| && IsRef(rights[i]) ensures Live(k, rights[i]) {
        SlotLive(k, p, fds[i]);
      }
      RetainAllExact(k, rights, multiset{});
      RetainAllQueue(k, rights, peer, rights);
      var k1 := RetainAll(k, rights);
      SetQueueExact(k1, peer, rights, multiset{}, multiset(rights));
      var none: multiset<Fd> := multiset{};
      assert none + none == none;
    }
  }

  // Receiving

  /** Puts descriptors into the lowest free slots from `from` on. */
  function InstallFrom(k: Kernel, p: nat, fds: seq<Fd>, from: nat): (r: Kernel)
    requires Shaped(k) && p < MAX_PROCESSES && from <= FD_MAX && HasRoom(k.tables[p], |fds|, from)
    ensures Shaped(r) && r.alive == k.alive
    decreases |fds|
  {
    if fds == [] then k
    else
      var f := FreeSlot(k.tables[p], from);
      RoomLater(k.tables[p], |fds| - 1, f + 1, f, fds[0]);
      InstallFrom(SetSlot(k, p, f, fds[0]), p, fds[1..], f + 1)
  }

  predicate HasRoom(row: seq<Fd>, n: nat, from: nat)
    requires from <= |row|
    decreases n
  {
    n == 0 || (FreeSlot(row, from) < |row| && HasRoom(row, n - 1, FreeSlot(row, from) + 1))
  }

  lemma {:induction false} RoomLater(row: seq<Fd>, n: nat, from: nat, f: nat, fd: Fd)
    requires f < from <= |row|
    ensures HasRoom(row[f := fd], n, from) == HasRoom(row, n, from)
    decreases n
  {
    SlotLater(row, from, f, fd);
    if n > 0 && FreeSlot(row, from) < |row| {
      RoomLater(row, n - 1, FreeSlot(row, from) + 1, f, fd);
    }
  }

  lemma {:induction false} SlotLater(row: seq<Fd>, from: nat, f: nat, fd: Fd)
    requires f < from <= |row|
    ensures FreeSlot(row[f := fd], from) == FreeSlot(row, from)
    decreases |row| - from
  {
    if from < |row| && row[from].kind != Free {
      SlotLater(row, from + 1, f, fd);
    }
  }

  /** Releases the queued descriptors of socket `h` one by one, in place, and then empties the queue. */
  function DropFrom(k: Kernel, h: nat, i: nat, count: nat): (r: Kernel)
    requires Shaped(k) && h < MAX_SOCKETS && i <= count
    ensures Shaped(r) && r.alive == k.alive && r.tables == k.tables
    decreases count - i
  {
    if i == count || i >= |k.sockets[h].queue| then SetQueue(k, h, [])
    else
      var k1 := Release(k, k.sockets[h].queue[i]);
      DropFrom(if i < |k1.sockets[h].queue| then SetQueue(k1, h, k1.sockets[h].queue[i := FREE_FD])
          else k1, h, i + 1, count)
  }

  /** The rights part of sys_recvmsg: queued descriptors go into free slots, or are released if there is no room for
      them in the table or in the caller's control buffer. */
  function Receive(k: Kernel, p: nat, f: nat, room: bool): (r: Kernel)
    requires Shaped(k) && p < MAX_PROCESSES
    ensures Shaped(r) && r.alive == k.alive
  {
    if f >= FD_MAX || k.tables[p][f].kind != Socket || !Live(k, k.tables[p][f]) then k
    else
      var h := k.tables[p][f].handle;
      var queue := k.sockets[h].queue;
      if room && HasRoom(k.tables[p], |queue|, 0) then InstallFrom(SetQueue(k, h, []), p, queue, 0)
      else DropFrom(k, h, 0, |queue|)
  }

  lemma {:induction false} InstallExact(k: Kernel, p: nat, fds: seq<Fd>, from: nat)
    requires Exact(k, multiset{} + multiset(fds)) && p < MAX_PROCESSES && from <= FD_MAX
    requires HasRoom(k.tables[p], |fds|, from)
    ensures Exact(InstallFrom(k, p, fds, from), multiset{})
    decreases |fds|
  {
    hide Exact;
    if fds == [] {
      var none: multiset<Fd> := multiset{};
      assert none + multiset(fds) == none;
    } else {
      var f := FreeSlot(k.tables[p], from);
      assert fds == [fds[0]] + fds[1..];
      var rest: multiset<Fd> := multiset{} + multiset(fds[1..]);
      assert multiset{} + multiset(fds) == rest + multiset{fds[0]};
      FillSlotExact(k, p, f, fds[0], rest);
      RoomLater(k.tables[p], |fds| - 1, f + 1, f, fds[0]);
      InstallExact(SetSlot(k, p, f, fds[0]), p, fds[1..], f + 1);
    }
  }

  /** Releasing never brings a socket back. */
  lemma {:induction false} NoRevival(k: Kernel, fd: Fd, h: nat)
    requires Shaped(k) && h < MAX_SOCKETS
    ensures Release(k, fd).sockets[h].inUse ==> k.sockets[h].inUse
    decreases LiveSockets(k.sockets), 0
  {
    if !Shallow(k, fd) {
      OneSocketLess(k.sockets, fd.handle, NO_SOCK);
      NoRevivalAll(k.(sockets := k.sockets[fd.handle := NO_SOCK]), k.sockets[fd.handle].queue, h);
    }
  }

  lemma {:induction false} NoRevivalAll(k: Kernel, fds: seq<Fd>, h: nat)
    requires Shaped(k) && h < MAX_SOCKETS
    ensures ReleaseAll(k, fds).sockets[h].inUse ==> k.sockets[h].inUse
    decreases LiveSockets(k.sockets), |fds|
  {
    hide Release;
    if fds != [] {
      NoRevival(k, fds[0], h);
      NoRevivalAll(Release(k, fds[0]), fds[1..], h);
    }
  }

  /** A release that leaves socket `h` in use never looks at its queue. */
  ghost predicate QueueUnread(k: Kernel, r: Kernel, r': Kernel, h: nat, queue: seq<Fd>)
    requires Shaped(k) && Shaped(r) && Shaped(r') && h < MAX_SOCKETS
  {
    r'.sockets[h].inUse ==> r' == SetQueue(r, h, queue) && r.sockets[h].queue == k.sockets[h].queue
  }

  lemma {:induction false} ReleaseQueue(k: Kernel, fd: Fd, h: nat, queue: seq<Fd>)
    requires Shaped(k) && h < MAX_SOCKETS
    ensures QueueUnread(k, Release(k, fd), Release(SetQueue(k, h, queue), fd), h, queue)
    decreases LiveSockets(k.sockets), 0
  {
    var k' := SetQueue(k, h, queue);
    if Shallow(k, fd) {
      ShallowQueue(k, fd, h, queue);
    } else {
      var g := fd.handle;
      OneSocketLess(k.sockets, g, NO_SOCK);
      if g == h {
        NoRevivalAll(k'.(sockets := k'.sockets[g := NO_SOCK]), k'.sockets[g].queue, h);
      } else {
        var k1 := k.(sockets := k.sockets[g := NO_SOCK]);
        assert k'.sockets[g := NO_SOCK] == SetQueue(k1, h, queue).sockets;
        ReleaseAllQueueUnread(k1, k.sockets[g].queue, h, queue);
      }
    }
  }

  lemma ShallowQueue(k: Kernel, fd: Fd, h: nat, queue: seq<Fd>)
    requires Shaped(k) && h < MAX_SOCKETS && Shallow(k, fd)
    ensures QueueUnread(k, Release(k, fd), Release(SetQueue(k, h, queue), fd), h, queue)
  {
    if Live(k, fd) && fd.kind == Socket {
      var a, b := Release(SetQueue(k, h, queue), fd).sockets, SetQueue(Release(k, fd), h, queue).sockets;
      assert forall i :: 0 <= i < MAX_SOCKETS ==> a[i] == b[i];
      assert a == b;
    }
  }

  lemma {:induction false} ReleaseAllQueueUnread(k: Kernel, fds: seq<Fd>, h: nat, queue: seq<Fd>)
    requires Shaped(k) && h < MAX_SOCKETS
    ensures QueueUnread(k, ReleaseAll(k, fds), ReleaseAll(SetQueue(k, h, queue), fds), h, queue)
    decreases LiveSockets(k.sockets), |fds|
  {
    hide Release;
    if fds != [] {
      var k' := SetQueue(k, h, queue);
      ReleaseQueue(k, fds[0], h, queue);
      NoRevivalAll(Release(k', fds[0]), fds[1..], h);
      ReleaseAllQueueUnread(Release(k, fds[0]), fds[1..], h, queue);
    }
  }

  lemma {:induction false} DropExact(k: Kernel, p: nat, f: nat, i: nat, count: nat)
    requires Exact(k, multiset{}) && p < MAX_PROCESSES && f < FD_MAX && k.tables[p][f].kind == Socket
    requires Live(k, k.tables[p][f])
    requires var queue := k.sockets[k.tables[p][f].handle].queue; count == |queue| && i <= count && AllFree(queue[..i])
    ensures Exact(DropFrom(k, k.tables[p][f].handle, i, count), multiset{})
    decreases count - i
  {
    hide Exact, Release;
    var h := k.tables[p][f].handle;
    var queue := k.sockets[h].queue;
    if i == count {
      EmptyFreeQueue(k, h);
    } else {
      var fd, queue' := queue[i], queue[i := FREE_FD];
      var k0 := SetQueue(k, h, queue');
      DropOneExact(k, h, i);
      ReleaseExact(k0, fd, multiset{});
      var r := Release(k0, fd);
      SlotLive(r, p, f);
      ReleaseQueue(k, fd, h, queue');
      assert queue'[..i + 1] == queue[..i] + [FREE_FD];
      DropExact(r, p, f, i + 1, count);
    }
  }

  lemma DropOneExact(k: Kernel, h: nat, i: nat)
    requires Exact(k, multiset{}) && h < MAX_SOCKETS && k.sockets[h].inUse && i < |k.sockets[h].queue|
    ensures Exact(SetQueue(k, h, k.sockets[h].queue[i := FREE_FD]), multiset{} + multiset{k.sockets[h].queue[i]})
  {
    hide Exact;
    var queue := k.sockets[h].queue;
    var fd, queue' := queue[i], queue[i := FREE_FD];
    var came: multiset<Fd> := multiset{FREE_FD};
    Weightless(k, multiset{}, FREE_FD);
    forall x ensures (multiset(queue') + multiset{fd})[x] == (multiset(queue) + came)[x] {
      RowChange(queue, i, FREE_FD, x);
    }
    SetQueueExact(k, h, queue', multiset{fd}, came);
  }

  lemma EmptyFreeQueue(k: Kernel, h: nat)
    requires Exact(k, multiset{}) && h < MAX_SOCKETS && k.sockets[h].inUse
    requires AllFree(k.sockets[h].queue[..|k.sockets[h].queue|])
    ensures Exact(SetQueue(k, h, []), multiset{})
  {
    hide Slots, Queued;
    var r, queue := SetQueue(k, h, []), k.sockets[h].queue;
    assert queue[..|queue|] == queue;
    forall x | IsRef(x) ensures Refs(r, x) == (Named(r) + multiset{})[x] {
      QueuedChange(k.sockets, h, k.sockets[h].(queue := []), x);
      FreeRow(queue, x);
      assert Refs(r, x) == Refs(k, x);
      assert Refs(k, x) == (Named(k) + multiset{})[x];
    }
  }

  lemma ReceiveExact(k: Kernel, p: nat, f: nat, room: bool)
    requires Exact(k, multiset{}) && p < MAX_PROCESSES
    ensures Exact(Receive(k, p, f, room), multiset{})
  {
    hide Exact, DropFrom, InstallFrom;
    if f < FD_MAX && k.tables[p][f].kind == Socket && Live(k, k.tables[p][f]) {
      var h := k.tables[p][f].handle;
      var queue := k.sockets[h].queue;
      if room && HasRoom(k.tables[p], |queue|, 0) {
        var none: multiset<Fd> := multiset{};
        assert none + none == none && multiset([]) + multiset(queue) == multiset(queue) + none;
        SetQueueExact(k, h, [], multiset(queue), multiset{});
        InstallExact(SetQueue(k, h, []), p, queue, 0);
      } else {
        DropExact(k, p, f, 0, |queue|);
      }
    }
  }

  // Runs

  datatype Op =
    | OpenFileOp
    | OpenEventOp
    | OpenSocketOp
    | OpenDeviceOp(device: int)
    | OpenPipeOp
    | OpenPairOp
    | DupOp(prior: nat, target: Option<nat>, overwrite: bool)
    | CloseOp(fd: nat)
    | ForkOp
    | ExitOp
    | SendOp(via: nat, fds: seq<nat>, sent: bool)
    | ReceiveOp(via: nat, room: bool)

  /** One system call of process `p`. */
  function Step(k: Kernel, p: nat, op: Op): (r: Kernel)
    requires Shaped(k)
    ensures Shaped(r)
  {
    if p >= MAX_PROCESSES || !k.alive[p] then k
    else
      match op
      case OpenFileOp => OpenFile(k, p)
      case OpenEventOp => OpenEvent(k, p)
      case OpenSocketOp => OpenSocket(k, p)
      case OpenDeviceOp(device) => OpenDevice(k, p, device)
      case OpenPipeOp => OpenPipe(k, p)
      case OpenPairOp => OpenPair(k, p)
      case DupOp(prior, target, overwrite) => Dup(k, p, prior, target, overwrite)
      case CloseOp(fd) => Close(k, p, fd)
      case ForkOp => Fork(k, p)
      case ExitOp => Exit(k, p)
      case SendOp(via, fds, sent) => Send(k, p, via, fds, sent)
      case ReceiveOp(via, room) => Receive(k, p, via, room)
  }

  function Run(k: Kernel, calls: seq<(nat, Op)>): (r: Kernel)
    requires Shaped(k)
    ensures Shaped(r)
    decreases |calls|
  {
    if calls == [] then k else Run(Step(k, calls[0].0, calls[0].1), calls[1..])
  }

  /** Counts are exact and dead processes hold no descriptors. */
  ghost predicate Good(k: Kernel)
    ensures Good(k) ==> Shaped(k)
  {
    Exact(k, multiset{}) && forall q :: 0 <= q < MAX_PROCESSES && !k.alive[q] ==> AllFree(k.tables[q])
  }

  /** The system as it starts: one process with the standard streams and no object in use. */
  function Booted(): (k: Kernel)
    ensures Shaped(k)
  {
    var row := seq(FD_MAX, f => if f < 3 then Fd(Plain, -1) else FREE_FD);
    var empty := seq(FD_MAX, _ => FREE_FD);
    Kernel(seq(MAX_PROCESSES, q => if q == 0 then row else empty), seq(MAX_PROCESSES, q => q == 0),
           seq(MAX_FILES, _ => NO_OBJECT), seq(MAX_PIPES, _ => NO_PIPE), seq(MAX_EVENTS, _ => NO_OBJECT),
           seq(MAX_SOCKETS, _ => NO_SOCK))
  }

  /** A call changes no other process's table, except that a fork fills that of a dead one. */
  lemma StepTables(k: Kernel, p: nat, op: Op, q: nat)
    requires Shaped(k) && q < MAX_PROCESSES && q != p && !op.ForkOp?
    ensures Step(k, p, op).tables[q] == k.tables[q]
  {
    hide Release, RetainAll, Retain, InstallFrom, DropFrom, HasRoom, CloseFrom;
    match op
    case ExitOp => if p < MAX_PROCESSES { CloseFromTables(k, p, 0, q); }
    case ReceiveOp(via, room) =>
      if p < MAX_PROCESSES && via < FD_MAX && k.tables[p][via].kind == Socket && Live(k, k.tables[p][via]) {
        var h := k.tables[p][via].handle;
        if room && HasRoom(k.tables[p], |k.sockets[h].queue|, 0) {
          InstallTables(SetQueue(k, h, []), p, k.sockets[h].queue, 0, q);
        }
      }
    case _ =>
  }

  lemma {:induction false} CloseFromTables(k: Kernel, p: nat, f: nat, q: nat)
    requires Shaped(k) && p < MAX_PROCESSES && f <= FD_MAX && q < MAX_PROCESSES && q != p
    ensures CloseFrom(k, p, f).tables[q] == k.tables[q]
    decreases FD_MAX - f
  {
    hide Close;
    if f < FD_MAX {
      CloseFromTables(Close(k, p, f), p, f + 1, q);
    }
  }

  lemma {:induction false} InstallTables(k: Kernel, p: nat, fds: seq<Fd>, from: nat, q: nat)
    requires Shaped(k) && p < MAX_PROCESSES && from <= FD_MAX && HasRoom(k.tables[p], |fds|, from)
    requires q < MAX_PROCESSES && q != p
    ensures InstallFrom(k, p, fds, from).tables[q] == k.tables[q]
    decreases |fds|
  {
    if fds != [] {
      var f := FreeSlot(k.tables[p], from);
      RoomLater(k.tables[p], |fds| - 1, f + 1, f, fds[0]);
      InstallTables(SetSlot(k, p, f, fds[0]), p, fds[1..], f + 1, q);
    }
  }

  lemma StepExact(k: Kernel, p: nat, op: Op)
    requires Good(k) && p < MAX_PROCESSES
    ensures Exact(Step(k, p, op), multiset{})
  {
    hide Exact, OpenFile, OpenEvent, OpenSocket, OpenDevice, OpenPipe, OpenPair;
    hide Dup, Close, Fork, CloseFrom, Send, Receive;
    match op
    case OpenFileOp => OpenFileExact(k, p);
    case OpenEventOp => OpenEventExact(k, p);
    case OpenSocketOp => OpenSocketExact(k, p);
    case OpenDeviceOp(device) => OpenDeviceExact(k, p, device);
    case OpenPipeOp => OpenPipeExact(k, p);
    case OpenPairOp => OpenPairExact(k, p);
    case DupOp(prior, target, overwrite) => DupExact(k, p, prior, target, overwrite);
    case CloseOp(fd) => CloseExact(k, p, fd);
    case ForkOp => ForkExact(k, p);
    case ExitOp =>
      CloseFromExact(k, p, 0);
      var r := CloseFrom(k, p, 0);
      SameAlive(r, r.alive[p := false]);
    case SendOp(via, fds, sent) => SendExact(k, p, via, fds, sent);
    case ReceiveOp(via, room) => ReceiveExact(k, p, via, room);
  }

  lemma SameAlive(k: Kernel, alive: seq<bool>)
    requires Exact(k, multiset{}) && |alive| == MAX_PROCESSES
    ensures Exact(k.(alive := alive), multiset{})
  {
    var r := k.(alive := alive);
    forall x | IsRef(x) ensures Refs(r, x) == (Named(r) + multiset{})[x] {
      assert Refs(r, x) == Refs(k, x);
    }
  }

  lemma StepDead(k: Kernel, p: nat, op: Op, q: nat)
    requires Good(k) && p < MAX_PROCESSES && k.alive[p] && q < MAX_PROCESSES && !Step(k, p, op).alive[q]
    ensures AllFree(Step(k, p, op).tables[q])
  {
    hide Exact, OpenFile, OpenEvent, OpenSocket, OpenDevice, OpenPipe, OpenPair;
    hide Dup, Close, CloseFrom, Send, Receive, RetainAll;
    if q != p && !op.ForkOp? {
      StepTables(k, p, op, q);
    } else if op.ExitOp? {
      CloseFromExact(k, p, 0);
    }
  }

  lemma StepGood(k: Kernel, p: nat, op: Op)
    requires Good(k)
    ensures Good(Step(k, p, op))
  {
    hide Exact;
    var r := Step(k, p, op);
    if p < MAX_PROCESSES && k.alive[p] {
      StepExact(k, p, op);
      forall q | 0 <= q < MAX_PROCESSES && !r.alive[q] ensures AllFree(r.tables[q]) {
        StepDead(k, p, op, q);
      }
    }
  }

  /** Descriptor reference exactness: after any run of open, pipe, dup, dup2, close, fork, exit and descriptor passing,
      every count equals the descriptors that name the object. */
  lemma {:induction false} RunKeepsGood(k: Kernel, calls: seq<(nat, Op)>)
    requires Good(k)
    ensures Good(Run(k, calls))
    decreases |calls|
  {
    hide Good, Step;
    if calls != [] {
      StepGood(k, calls[0].0, calls[0].1);
      RunKeepsGood(Step(k, calls[0].0, calls[0].1), calls[1..]);
    }
  }

  lemma {:induction false} NothingQueued(s: seq<Sock>)
    requires forall i :: 0 <= i < |s| ==> s[i] == NO_SOCK
    ensures Queued(s) == multiset{}
  {
    if s != [] {
      NothingQueued(s[1..]);
    }
  }

  lemma {:induction false} NothingNamed(t: seq<seq<Fd>>, x: Fd)
    requires IsRef(x) && forall p :: 0 <= p < |t| ==> x !in t[p]
    ensures Slots(t)[x] == 0
  {
    if t != [] {
      NothingNamed(t[1..], x);
    }
  }

  ghost predicate NothingOpen(k: Kernel)
    requires Shaped(k)
  {
    && (forall i :: 0 <= i < MAX_FILES ==> k.files[i] == NO_OBJECT)
        && (forall i :: 0 <= i < MAX_PIPES ==> k.pipes[i] == NO_PIPE)
    && (forall i :: 0 <= i < MAX_EVENTS ==> k.events[i] == NO_OBJECT)
        && (forall i :: 0 <= i < MAX_SOCKETS ==> k.sockets[i] == NO_SOCK)
    && (forall p :: 0 <= p < MAX_PROCESSES ==> forall f :: 0 <= f < FD_MAX ==> !IsRef(k.tables[p][f]))
  }

  lemma NothingOpenExact(k: Kernel)
    requires Shaped(k) && NothingOpen(k)
    ensures Exact(k, multiset{})
  {
    hide Slots, Queued;
    NothingQueued(k.sockets);
    forall x | IsRef(x) ensures Refs(k, x) == (Named(k) + multiset{})[x] {
      forall p | 0 <= p < MAX_PROCESSES ensures x !in k.tables[p] {
      }
      NothingNamed(k.tables, x);
    }
  }

  lemma BootedIsGood()
    ensures Good(Booted())
  {
    hide Exact;
    assert NothingOpen(Booted());
    NothingOpenExact(Booted());
  }

  /** No live slot and no queued descriptor names a freed object, and no object in use is unnamed. */
  lemma NoDanglingNoLeak(calls: seq<(nat, Op)>, fd: Fd)
    requires IsRef(fd)
    ensures var k := Run(Booted(), calls); fd in Named(k) <==> Refs(k, fd) > 0
    ensures var k := Run(Booted(), calls); fd in Named(k) ==> Live(k, fd)
    ensures var k := Run(Booted(), calls);
            Live(k, fd) ==>
                fd in Named(k) || Fd(PipeReader, fd.handle) in Named(k) || Fd(PipeWriter, fd.handle) in Named(k)
  {
    hide Run, Named;
    BootedIsGood();
    RunKeepsGood(Booted(), calls);
    var k := Run(Booted(), calls);
    assert Refs(k, fd) == (Named(k) + multiset{})[fd];
    var r, w := Fd(PipeReader, fd.handle), Fd(PipeWriter, fd.handle);
    assert Refs(k, r) == (Named(k) + multiset{})[r] && Refs(k, w) == (Named(k) + multiset{})[w];
  }
}
