/** The descriptor code as kernel/syscall.c has it: global object tables and per-process descriptor tables updated in
    place by loops and mutual recursion. */
module DescriptorTables {
  import opened Options
  import opened Descriptors
  import opened DescriptorRuns

  class ObjectTables {
    var tables: seq<seq<Fd>>
    var alive: seq<bool>
    var files: seq<Object>
    var pipes: seq<Pipe>
    var events: seq<Object>
    var sockets: seq<Sock>

    function State(): (r: Kernel)
      reads this
    {
      Kernel(tables, alive, files, pipes, events, sockets)
    }

    constructor ()
      ensures State() == Booted()
    {
      var k := Booted();
      tables, alive, files, pipes, events, sockets := k.tables, k.alive, k.files, k.pipes, k.events, k.sockets;
    }

    /** allocate_fd_slot; the size of the table when there is none. */
    method AllocateSlot(p: nat, start: nat) returns (fd: nat)
      requires Shaped(State()) && p < MAX_PROCESSES && start <= FD_MAX
      ensures fd == FreeSlot(tables[p], start)
    {
      fd := start;
      while fd < FD_MAX
        invariant start <= fd <= FD_MAX && FreeSlot(tables[p], start) == FreeSlot(tables[p], fd)
      {
        if tables[p][fd].kind == Free { return; }
        fd := fd + 1;
      }
    }

    /** retain_fd_entry_refs. */
    method RetainRefs(fd: Fd)
      requires Shaped(State())
      modifies this
      ensures State() == Retain(old(State()), fd)
    {
      if !Live(State(), fd) { return; }
      var h := fd.handle;
      match fd.kind
      case Vnode => files := files[h := files[h].(refs := files[h].refs + 1)];
      case PipeReader => pipes := pipes[h := pipes[h].(readers := pipes[h].readers + 1)];
      case PipeWriter => pipes := pipes[h := pipes[h].(writers := pipes[h].writers + 1)];
      case Socket => sockets := sockets[h := sockets[h].(refs := sockets[h].refs + 1)];
      case EventFd => events := events[h := events[h].(refs := events[h].refs + 1)];
      case _ =>
    }

    /** release_file_handle. */
    method ReleaseFile(h: nat)
      requires Shaped(State()) && h < MAX_FILES && files[h].inUse
      modifies this`files
      ensures files == old(files)[h := Dropped(old(files)[h])]
    {
      if files[h].refs > 0 { files := files[h := files[h].(refs := files[h].refs - 1)]; }
      if files[h].refs == 0 { files := files[h := NO_OBJECT]; }
    }

    /** release_eventfd_ref. */
    method ReleaseEvent(h: nat)
      requires Shaped(State()) && h < MAX_EVENTS && events[h].inUse
      modifies this`events
      ensures events == old(events)[h := Dropped(old(events)[h])]
    {
      if events[h].refs > 0 { events := events[h := events[h].(refs := events[h].refs - 1)]; }
      if events[h].refs == 0 { events := events[h := NO_OBJECT]; }
    }

    /** release_pipe_ref. */
    method ReleasePipe(h: nat, reader: bool)
      requires Shaped(State()) && h < MAX_PIPES && pipes[h].inUse
      modifies this`pipes
      ensures pipes == old(pipes)[h := DroppedPipe(old(pipes)[h], reader)]
    {
      if reader {
        if pipes[h].readers > 0 { pipes := pipes[h := pipes[h].(readers := pipes[h].readers - 1)]; }
      } else {
        if pipes[h].writers > 0 { pipes := pipes[h := pipes[h].(writers := pipes[h].writers - 1)]; }
      }
      if pipes[h].readers == 0 && pipes[h].writers == 0 { pipes := pipes[h := NO_PIPE]; }
    }

    /** release_fd_entry_refs and release_socket_ref: freeing a socket releases the descriptors queued in it. */
    method ReleaseRefs(fd: Fd)
      requires Shaped(State())
      modifies this
      ensures State() == Release(old(State()), fd)
      decreases LiveSockets(sockets), 0
    {
      if !Live(State(), fd) { return; }
      var h := fd.handle;
      match fd.kind
      case Vnode => ReleaseFile(h);
      case PipeReader => ReleasePipe(h, true);
      case PipeWriter => ReleasePipe(h, false);
      case EventFd => ReleaseEvent(h);
      case Socket =>
        OneSocketLess(sockets, h, NO_SOCK);
        if sockets[h].refs > 1 {
          sockets := sockets[h := sockets[h].(refs := sockets[h].refs - 1)];
        } else {
          var pending := sockets[h].queue;
          sockets := sockets[h := NO_SOCK];
          ReleasePending(pending);
        }
      case _ =>
    }

    method ReleasePending(pending: seq<Fd>)
      requires Shaped(State())
      modifies this
      ensures State() == ReleaseAll(old(State()), pending)
      decreases LiveSockets(sockets), |pending| + 1
    {
      hide Release;
      var i := 0;
      while i < |pending|
        invariant 0 <= i <= |pending| && Shaped(State()) && LiveSockets(sockets) <= LiveSockets(old(sockets))
        invariant ReleaseAll(old(State()), pending) == ReleaseAll(State(), pending[i..])
        decreases |pending| - i
      {
        assert pending[i..][1..] == pending[i + 1..];
        ReleaseRefs(pending[i]);
        i := i + 1;
      }
    }

    /** close_fd_internal. */
    method CloseFd(p: nat, fd: nat)
      requires Shaped(State()) && p < MAX_PROCESSES
      modifies this
      ensures State() == Close(old(State()), p, fd)
    {
      hide Release;
      if fd >= FD_MAX || tables[p][fd].kind == Free { return; }
      ReleaseRefs(tables[p][fd]);
      tables := tables[p := tables[p][fd := FREE_FD]];
    }

    /** syscall_release_fd_table_entries. */
    method ReleaseTable(p: nat)
      requires Shaped(State()) && p < MAX_PROCESSES
      modifies this
      ensures State() == CloseFrom(old(State()), p, 0)
    {
      hide Close;
      var f: nat := 0;
      while f < FD_MAX
        invariant f <= FD_MAX && Shaped(State()) && CloseFrom(old(State()), p, 0) == CloseFrom(State(), p, f)
      {
        CloseFd(p, f);
        f := f + 1;
      }
    }

    /** syscall_retain_fd_table_entries, on the table of process `p`. */
    method RetainTable(p: nat)
      requires Shaped(State()) && p < MAX_PROCESSES
      modifies this
      ensures State() == RetainAll(old(State()), old(tables)[p])
    {
      hide Retain;
      ghost var row := tables[p];
      var f := 0;
      assert row[0..] == row;
      while f < FD_MAX
        invariant 0 <= f <= FD_MAX && Shaped(State()) && tables == old(tables)
        invariant RetainAll(old(State()), row) == RetainAll(State(), row[f..])
      {
        assert row[f..][1..] == row[f + 1..];
        RetainRefs(tables[p][f]);
        f := f + 1;
      }
    }

    /** install_vnode_fd. */
    method InstallVnode(p: nat) returns (ok: bool)
      requires Shaped(State()) && p < MAX_PROCESSES
      modifies this
      ensures State() == OpenFile(old(State()), p)
    {
      var h := 0;
      while h < MAX_FILES && files[h].inUse
        invariant 0 <= h <= MAX_FILES && FreeObject(files, 0) == FreeObject(files, h)
      {
        h := h + 1;
      }
      if h == MAX_FILES { return false; }
      var fd := AllocateSlot(p, 3);
      if fd == FD_MAX { return false; }
      files := files[h := Object(true, 1)];
      tables := tables[p := tables[p][fd := Fd(Vnode, h)]];
      ok := true;
    }

    method CopySlot(p: nat, from: nat, f: nat)
      requires Shaped(State()) && p < MAX_PROCESSES && from < FD_MAX && f < FD_MAX
      modifies this
      ensures State() == Copy(old(State()), p, from, f)
    {
      var fd := tables[p][from];
      tables := tables[p := tables[p][f := fd]];
      RetainRefs(fd);
      if fd.kind == Vnode && !Live(State(), fd) {
        tables := tables[p := tables[p][f := FREE_FD]];
      }
    }

    /** dup_fd_common. */
    method DupCommon(p: nat, oldfd: nat, target: Option<nat>, overwrite: bool)
      requires Shaped(State()) && p < MAX_PROCESSES
      modifies this
      ensures State() == Dup(old(State()), p, oldfd, target, overwrite)
    {
      hide Close, Copy;
      if oldfd >= FD_MAX || tables[p][oldfd].kind == Free { return; }
      var f: nat;
      match target {
        case None =>
          f := AllocateSlot(p, 0);
          if f == FD_MAX { return; }
        case Some(requested) =>
          if requested >= FD_MAX || requested == oldfd { return; }
          f := requested;
          if overwrite {
            CloseFd(p, f);
          } else if tables[p][f].kind != Free {
            return;
          }
      }
      CopySlot(p, oldfd, f);
    }

    /** The descriptor part of sys_fork. */
    method ForkTable(p: nat) returns (child: nat)
      requires Shaped(State()) && p < MAX_PROCESSES
      modifies this
      ensures State() == Fork(old(State()), p)
    {
      hide RetainAll;
      child := 0;
      while child < MAX_PROCESSES && alive[child]
        invariant 0 <= child <= MAX_PROCESSES && DeadSlot(alive, 0) == DeadSlot(alive, child)
      {
        child := child + 1;
      }
      if child == MAX_PROCESSES { return; }
      tables := tables[child := tables[p]];
      alive := alive[child := true];
      RetainTable(child);
    }
  }
}
