/** File descriptors and the objects they count references to (kernel/syscall.c): file handles, pipe ends, eventfds and
    sockets, with descriptors queued inside sockets. */
module Descriptors {
  const MAX_PROCESSES: nat := 64
  const FD_MAX: nat := 32
  const MAX_FILES: nat := 16
  const MAX_PIPES: nat := 8
  const MAX_EVENTS: nat := 32
  const MAX_SOCKETS: nat := 32
  const ANCILLARY_MAX: nat := 4

  /** `Plain` stands for the kinds that name no counted object: standard streams, terminal, null and random devices. */
  datatype Kind = Free | Plain | Vnode | PipeReader | PipeWriter | Socket | EventFd

  datatype Fd = Fd(kind: Kind, handle: int)

  const FREE_FD: Fd := Fd(Free, -1)

  datatype Object = Object(inUse: bool, refs: nat)

  datatype Pipe = Pipe(inUse: bool, readers: nat, writers: nat)

  /** `queue` is rx_ancillary_fds up to rx_ancillary_fd_count. */
  datatype Sock = Sock(inUse: bool, refs: nat, peer: int, queue: seq<Fd>)

  datatype Kernel = Kernel(tables: seq<seq<Fd>>, alive: seq<bool>, files: seq<Object>, pipes: seq<Pipe>,
                           events: seq<Object>, sockets: seq<Sock>)

  const NO_OBJECT := Object(false, 0)
  const NO_PIPE := Pipe(false, 0, 0)
  const NO_SOCK := Sock(false, 0, 0, [])

  predicate Shaped(k: Kernel)
  {
    && |k.tables| == |k.alive| == MAX_PROCESSES && |k.files| == MAX_FILES && |k.pipes| == MAX_PIPES
    && |k.events| == MAX_EVENTS && |k.sockets| == MAX_SOCKETS
    && forall p :: 0 <= p < MAX_PROCESSES ==> |k.tables[p]| == FD_MAX
  }

  predicate IsRef(fd: Fd)
  {
    fd.kind != Free && fd.kind != Plain
  }

  /** The reference count that the object a descriptor names keeps for it; 0 when there is no such object. */
  function Refs(k: Kernel, fd: Fd): (r: nat)
    requires Shaped(k)
  {
    match fd.kind
    case Vnode => if 0 <= fd.handle < MAX_FILES && k.files[fd.handle].inUse then k.files[fd.handle].refs else 0
    case PipeReader => if 0 <= fd.handle < MAX_PIPES && k.pipes[fd.handle].inUse then k.pipes[fd.handle].readers else 0
    case PipeWriter => if 0 <= fd.handle < MAX_PIPES && k.pipes[fd.handle].inUse then k.pipes[fd.handle].writers else 0
    case Socket => if 0 <= fd.handle < MAX_SOCKETS && k.sockets[fd.handle].inUse then k.sockets[fd.handle].refs else 0
    case EventFd => if 0 <= fd.handle < MAX_EVENTS && k.events[fd.handle].inUse then k.events[fd.handle].refs else 0
    case _ => 0
  }

  /** Whether the object a descriptor names is in use. */
  predicate Live(k: Kernel, fd: Fd)
    requires Shaped(k)
  {
    match fd.kind
    case Vnode => 0 <= fd.handle < MAX_FILES && k.files[fd.handle].inUse
    case PipeReader => 0 <= fd.handle < MAX_PIPES && k.pipes[fd.handle].inUse
    case PipeWriter => 0 <= fd.handle < MAX_PIPES && k.pipes[fd.handle].inUse
    case Socket => 0 <= fd.handle < MAX_SOCKETS && k.sockets[fd.handle].inUse
    case EventFd => 0 <= fd.handle < MAX_EVENTS && k.events[fd.handle].inUse
    case _ => false
  }

  // Retaining and releasing

  /** retain_fd_entry_refs. */
  function Retain(k: Kernel, fd: Fd): (r: Kernel)
    requires Shaped(k)
    ensures Shaped(r) && r.tables == k.tables && r.alive == k.alive
  {
    if !Live(k, fd) then k
    else
      var h := fd.handle;
      match fd.kind
      case Vnode => k.(files := k.files[h := k.files[h].(refs := k.files[h].refs + 1)])
      case PipeReader => k.(pipes := k.pipes[h := k.pipes[h].(readers := k.pipes[h].readers + 1)])
      case PipeWriter => k.(pipes := k.pipes[h := k.pipes[h].(writers := k.pipes[h].writers + 1)])
      case Socket => k.(sockets := k.sockets[h := k.sockets[h].(refs := k.sockets[h].refs + 1)])
      case EventFd => k.(events := k.events[h := k.events[h].(refs := k.events[h].refs + 1)])
      case _ => k
  }

  function Less(n: nat): (r: nat)
  {
    if n > 0 then n - 1 else 0
  }

  function Dropped(o: Object): (r: Object)
  {
    if Less(o.refs) == 0 then NO_OBJECT else o.(refs := Less(o.refs))
  }

  function DroppedPipe(p: Pipe, reader: bool): (r: Pipe)
  {
    var q := if reader then p.(readers := Less(p.readers)) else p.(writers := Less(p.writers));
    if q.readers == 0 && q.writers == 0 then NO_PIPE else q
  }

  function LiveSockets(s: seq<Sock>): (r: nat)
  {
    if s == [] then 0 else (if s[0].inUse then 1 else 0) + LiveSockets(s[1..])
  }

  lemma {:induction false} OneSocketLess(s: seq<Sock>, i: nat, x: Sock)
    requires i < |s| && s[i].inUse
    ensures LiveSockets(s[i := x]) == LiveSockets(s) - (if x.inUse then 0 else 1)
  {
    if i == 0 {
      assert s[i := x][1..] == s[1..];
    } else {
      assert s[i := x][1..] == s[1..][i - 1 := x];
      OneSocketLess(s[1..], i - 1, x);
    }
  }

  /** release_fd_entry_refs, without the clearing of the entry itself. The last reference to a socket releases the
      descriptors queued in it, and so on; each level frees one more socket, so this ends. */
  function Release(k: Kernel, fd: Fd): (r: Kernel)
    requires Shaped(k)
    ensures Shaped(r) && r.tables == k.tables && r.alive == k.alive && LiveSockets(r.sockets) <= LiveSockets(k.sockets)
    decreases LiveSockets(k.sockets), 0
  {
    if !Live(k, fd) then k
    else
      var h := fd.handle;
      match fd.kind
      case Vnode => k.(files := k.files[h := Dropped(k.files[h])])
      case PipeReader => k.(pipes := k.pipes[h := DroppedPipe(k.pipes[h], true)])
      case PipeWriter => k.(pipes := k.pipes[h := DroppedPipe(k.pipes[h], false)])
      case EventFd => k.(events := k.events[h := Dropped(k.events[h])])
      case Socket =>
        var s := k.sockets[h];
        OneSocketLess(k.sockets, h, s.(refs := Less(s.refs)));
        OneSocketLess(k.sockets, h, NO_SOCK);
        if Less(s.refs) > 0 then k.(sockets := k.sockets[h := s.(refs := Less(s.refs))])
        else ReleaseAll(k.(sockets := k.sockets[h := NO_SOCK]), s.queue)
      case _ => k
  }

  function ReleaseAll(k: Kernel, fds: seq<Fd>): (r: Kernel)
    requires Shaped(k)
    ensures Shaped(r) && r.tables == k.tables && r.alive == k.alive && LiveSockets(r.sockets) <= LiveSockets(k.sockets)
    decreases LiveSockets(k.sockets), |fds|
  {
    if fds == [] then k else ReleaseAll(Release(k, fds[0]), fds[1..])
  }

  function RetainAll(k: Kernel, fds: seq<Fd>): (r: Kernel)
    requires Shaped(k)
    ensures Shaped(r) && r.tables == k.tables && r.alive == k.alive
    decreases |fds|
  {
    if fds == [] then k else RetainAll(Retain(k, fds[0]), fds[1..])
  }

  // Who names what

  function Slots(tables: seq<seq<Fd>>): (r: multiset<Fd>)
  {
    if tables == [] then multiset{} else multiset(tables[0]) + Slots(tables[1..])
  }

  function QueuedIn(s: Sock): (r: multiset<Fd>)
  {
    if s.inUse then multiset(s.queue) else multiset{}
  }

  /** The descriptors queued in sockets in use. */
  function Queued(sockets: seq<Sock>): (r: multiset<Fd>)
  {
    if sockets == [] then multiset{} else QueuedIn(sockets[0]) + Queued(sockets[1..])
  }

  function Named(k: Kernel): (r: multiset<Fd>)
  {
    Slots(k.tables) + Queued(k.sockets)
  }

  /** An object is in use exactly while something counts on it. */
  ghost predicate UseIsCount(k: Kernel)
    requires Shaped(k)
  {
    && (forall i :: 0 <= i < MAX_FILES ==> (k.files[i].inUse <==> k.files[i].refs > 0))
    && (forall i :: 0 <= i < MAX_EVENTS ==> (k.events[i].inUse <==> k.events[i].refs > 0))
    && (forall i :: 0 <= i < MAX_SOCKETS ==> (k.sockets[i].inUse <==> k.sockets[i].refs > 0))
    && (forall i :: 0 <= i < MAX_PIPES ==> (k.pipes[i].inUse <==> k.pipes[i].readers + k.pipes[i].writers > 0))
  }

  /** Every count is the number of descriptors naming the object: in tables, queued, and in `extra`, the references a
      caller holds in its hands. */
  ghost predicate Exact(k: Kernel, extra: multiset<Fd>)
    ensures Exact(k, extra) ==> Shaped(k)
  {
    && Shaped(k) && UseIsCount(k)
    && forall fd {:trigger Refs(k, fd)} :: IsRef(fd) ==> Refs(k, fd) == (Named(k) + extra)[fd]
  }

  // One reference

  lemma RetainRefs(k: Kernel, fd: Fd, x: Fd)
    requires Shaped(k)
    ensures IsRef(x) ==> Refs(Retain(k, fd), x) == Refs(k, x) + if x == fd && Live(k, fd) then 1 else 0
  {
  }

  lemma {:induction false} QueuedKept(s: seq<Sock>, i: nat, x: Sock)
    requires i < |s| && s[i].inUse && x.inUse && x.queue == s[i].queue
    ensures Queued(s[i := x]) == Queued(s)
  {
    if i == 0 {
      assert s[i := x][1..] == s[1..];
    } else {
      assert s[i := x][1..] == s[1..][i - 1 := x];
      QueuedKept(s[1..], i - 1, x);
    }
  }

  lemma {:induction false} QueuedChange(s: seq<Sock>, i: nat, x: Sock, fd: Fd)
    requires i < |s|
    ensures Queued(s[i := x])[fd] + QueuedIn(s[i])[fd] == Queued(s)[fd] + QueuedIn(x)[fd]
  {
    hide QueuedIn;
    if i == 0 {
      assert s[i := x][1..] == s[1..];
    } else {
      assert s[i := x][1..] == s[1..][i - 1 := x];
      QueuedChange(s[1..], i - 1, x, fd);
    }
  }

  lemma RetainNames(k: Kernel, fd: Fd)
    requires Shaped(k)
    ensures Named(Retain(k, fd)) == Named(k)
  {
    hide Queued, Slots;
    if Live(k, fd) && fd.kind == Socket {
      var s := k.sockets[fd.handle];
      QueuedKept(k.sockets, fd.handle, s.(refs := s.refs + 1));
    }
  }

  /** Retaining a descriptor of a live object adds one reference to the caller's hands. */
  lemma RetainExact(k: Kernel, fd: Fd, extra: multiset<Fd>)
    requires Exact(k, extra) && (IsRef(fd) ==> Live(k, fd))
    ensures Exact(Retain(k, fd), extra + multiset{fd})
  {
    hide Named;
    var r := Retain(k, fd);
    RetainNames(k, fd);
    forall x | IsRef(x) ensures Refs(r, x) == (Named(r) + (extra + multiset{fd}))[x] {
      RetainRefs(k, fd, x);
    }
  }

  /** Releases that free no socket. */
  predicate Shallow(k: Kernel, fd: Fd)
    requires Shaped(k)
  {
    fd.kind != Socket || !Live(k, fd) || Less(k.sockets[fd.handle].refs) > 0
  }

  lemma ShallowRefs(k: Kernel, fd: Fd, x: Fd)
    requires Shaped(k) && UseIsCount(k) && Shallow(k, fd)
    ensures IsRef(x) ==> Refs(Release(k, fd), x) == Less(Refs(k, x)) + if x == fd || Refs(k, x) == 0 then 0 else 1
    ensures UseIsCount(Release(k, fd))
  {
  }

  lemma ShallowNames(k: Kernel, fd: Fd)
    requires Shaped(k) && Shallow(k, fd)
    ensures Named(Release(k, fd)) == Named(k)
  {
    hide Queued, Slots, ReleaseAll;
    if Live(k, fd) && fd.kind == Socket {
      var s := k.sockets[fd.handle];
      QueuedKept(k.sockets, fd.handle, s.(refs := Less(s.refs)));
    }
  }

  /** Freeing a socket puts the descriptors queued in it into the caller's hands. */
  lemma FreeSocketExact(k: Kernel, h: nat, extra: multiset<Fd>)
    requires Exact(k, extra + multiset{Fd(Socket, h)}) && h < MAX_SOCKETS && k.sockets[h].inUse
    requires k.sockets[h].refs <= 1
    ensures Exact(k.(sockets := k.sockets[h := NO_SOCK]), extra + multiset(k.sockets[h].queue))
  {
    hide Queued, Slots;
    var k1, q := k.(sockets := k.sockets[h := NO_SOCK]), multiset(k.sockets[h].queue);
    forall x | IsRef(x) ensures Refs(k1, x) == (Named(k1) + (extra + q))[x] {
      QueuedChange(k.sockets, h, NO_SOCK, x);
      assert Refs(k, x) == (Named(k) + (extra + multiset{Fd(Socket, h)}))[x];
    }
  }

  /** Releasing a descriptor takes its reference out of the caller's hands, through any depth of queued sockets. */
  lemma {:induction false} ReleaseExact(k: Kernel, fd: Fd, extra: multiset<Fd>)
    requires Exact(k, extra + multiset{fd})
    ensures Exact(Release(k, fd), extra)
    decreases LiveSockets(k.sockets), 0
  {
    if Shallow(k, fd) {
      hide Release, Named;
      var r := Release(k, fd);
      ShallowNames(k, fd);
      forall x | IsRef(x) ensures Refs(r, x) == (Named(r) + extra)[x] {
        ShallowRefs(k, fd, x);
        assert Refs(k, x) == (Named(k) + (extra + multiset{fd}))[x];
      }
      ShallowRefs(k, fd, fd);
    } else {
      hide Named, Exact;
      var s := k.sockets[fd.handle];
      OneSocketLess(k.sockets, fd.handle, NO_SOCK);
      FreeSocketExact(k, fd.handle, extra);
      ReleaseAllExact(k.(sockets := k.sockets[fd.handle := NO_SOCK]), s.queue, extra);
    }
  }

  lemma {:induction false} ReleaseAllExact(k: Kernel, fds: seq<Fd>, extra: multiset<Fd>)
    requires Exact(k, extra + multiset(fds))
    ensures Exact(ReleaseAll(k, fds), extra)
    decreases LiveSockets(k.sockets), |fds|
  {
    hide Exact, Release;
    if fds == [] {
      assert extra + multiset(fds) == extra;
    } else {
      assert fds == [fds[0]] + fds[1..];
      assert extra + multiset(fds) == (extra + multiset(fds[1..])) + multiset{fds[0]};
      ReleaseExact(k, fds[0], extra + multiset(fds[1..]));
      ReleaseAllExact(Release(k, fds[0]), fds[1..], extra);
    }
  }

  lemma {:induction false} RetainAllExact(k: Kernel, fds: seq<Fd>, extra: multiset<Fd>)
    requires Exact(k, extra) && forall i :: 0 <= i < |fds| && IsRef(fds[i]) ==> Live(k, fds[i])
    ensures Exact(RetainAll(k, fds), extra + multiset(fds))
    decreases |fds|
  {
    if fds == [] {
      assert extra + multiset(fds) == extra;
    } else {
      RetainExact(k, fds[0], extra);
      var r := Retain(k, fds[0]);
      forall i | 0 <= i < |fds[1..]| && IsRef(fds[1..][i]) ensures Live(r, fds[1..][i]) {
        RetainLive(k, fds[0], fds[i + 1]);
      }
      RetainAllExact(r, fds[1..], extra + multiset{fds[0]});
      assert fds == [fds[0]] + fds[1..];
      assert extra + multiset{fds[0]} + multiset(fds[1..]) == extra + multiset(fds);
    }
  }

  lemma RetainLive(k: Kernel, fd: Fd, x: Fd)
    requires Shaped(k) && Live(k, x)
    ensures Live(Retain(k, fd), x)
  {
  }
}
