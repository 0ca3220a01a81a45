/** Which objects in use can still be reached from a descriptor table. Counting alone does not free a socket that is
    queued in itself, or a ring of sockets queued in one another, once no table names them; and nothing else is lost.
    */
module DescriptorReach {
  import opened Descriptors
  import opened DescriptorRuns

  predicate Tabled(k: Kernel, fd: Fd)
  {
    fd in Slots(k.tables)
  }

  /** A socket in use holds `fd` in its queue. */
  predicate QueuedAt(k: Kernel, h: nat, fd: Fd)
    requires Shaped(k) && h < MAX_SOCKETS
  {
    k.sockets[h].inUse && fd in k.sockets[h].queue
  }

  predicate InUse(k: Kernel, h: nat)
    requires Shaped(k)
  {
    h < MAX_SOCKETS && k.sockets[h].inUse
  }

  /** Sockets that can be received through at most `n` others, starting from a table. */
  ghost predicate Within(k: Kernel, h: nat, n: nat)
    requires Shaped(k) && h < MAX_SOCKETS
    decreases n
  {
    || Tabled(k, Fd(Socket, h))
    || (n > 0 && exists g :: 0 <= g < MAX_SOCKETS && QueuedAt(k, g, Fd(Socket, h)) && Within(k, g, n - 1))
  }

  ghost predicate Reachable(k: Kernel, h: nat)
    requires Shaped(k) && h < MAX_SOCKETS
  {
    exists n: nat :: Within(k, h, n)
  }

  /** A table names the object, or a reachable socket holds it. */
  ghost predicate ObjectReachable(k: Kernel, fd: Fd)
    requires Shaped(k)
  {
    Tabled(k, fd) || exists g :: 0 <= g < MAX_SOCKETS && QueuedAt(k, g, fd) && Reachable(k, g)
  }

  /** A set of sockets that no table names and that are queued only in one another. */
  ghost predicate Knot(k: Kernel, s: set<nat>)
    requires Shaped(k)
  {
    s != {} && forall h :: h in s ==>
      && InUse(k, h) && !Tabled(k, Fd(Socket, h))
      && forall g :: 0 <= g < MAX_SOCKETS && QueuedAt(k, g, Fd(Socket, h)) ==> g in s
  }

  // Where a named descriptor is

  lemma {:induction false} FindQueue(s: seq<Sock>, fd: Fd) returns (h: nat)
    requires fd in Queued(s)
    ensures h < |s| && s[h].inUse && fd in s[h].queue
  {
    if fd in QueuedIn(s[0]) {
      h := 0;
    } else {
      var i := FindQueue(s[1..], fd);
      h := i + 1;
    }
  }

  lemma NamedSomewhere(k: Kernel, fd: Fd)
    requires Shaped(k) && fd in Named(k)
    ensures Tabled(k, fd) || exists g :: 0 <= g < MAX_SOCKETS && QueuedAt(k, g, fd)
  {
    hide Slots;
    if !Tabled(k, fd) {
      var g := FindQueue(k.sockets, fd);
      assert QueuedAt(k, g, fd);
    }
  }

  /** A live socket is named by a table or queued in a socket in use. */
  lemma SocketNamed(k: Kernel, h: nat)
    requires Exact(k, multiset{}) && InUse(k, h)
    ensures Tabled(k, Fd(Socket, h)) || exists g :: 0 <= g < MAX_SOCKETS && QueuedAt(k, g, Fd(Socket, h))
  {
    hide Named;
    assert Refs(k, Fd(Socket, h)) == (Named(k) + multiset{})[Fd(Socket, h)];
    NamedSomewhere(k, Fd(Socket, h));
  }

  // Reaching

  lemma OneFurther(k: Kernel, g: nat, h: nat)
    requires Shaped(k) && g < MAX_SOCKETS && h < MAX_SOCKETS && Reachable(k, g) && QueuedAt(k, g, Fd(Socket, h))
    ensures Reachable(k, h)
  {
    hide Tabled, QueuedAt;
    var n: nat :| Within(k, g, n);
    assert Within(k, h, n + 1);
  }

  lemma {:induction false} OutsideKnot(k: Kernel, s: set<nat>, h: nat, n: nat)
    requires Shaped(k) && Knot(k, s) && h in s && h < MAX_SOCKETS
    ensures !Within(k, h, n)
    decreases n
  {
    hide Tabled, QueuedAt, InUse;
    if n > 0 {
      forall g | 0 <= g < MAX_SOCKETS && QueuedAt(k, g, Fd(Socket, h)) ensures !Within(k, g, n - 1) {
        OutsideKnot(k, s, g, n - 1);
      }
    }
  }

  ghost function Lost(k: Kernel): (s: set<nat>)
    requires Shaped(k)
  {
    set h: nat | h < MAX_SOCKETS && InUse(k, h) && !Reachable(k, h)
  }

  lemma LostIsKnot(k: Kernel)
    requires Shaped(k) && Lost(k) != {}
    ensures Knot(k, Lost(k))
  {
    hide Reachable;
    forall h | h in Lost(k) ensures !Tabled(k, Fd(Socket, h)) {
      if Tabled(k, Fd(Socket, h)) {
        TabledIsReachable(k, h);
      }
    }
    forall h, g | h in Lost(k) && 0 <= g < MAX_SOCKETS && QueuedAt(k, g, Fd(Socket, h)) ensures g in Lost(k) {
      if Reachable(k, g) {
        OneFurther(k, g, h);
      }
    }
  }

  lemma TabledIsReachable(k: Kernel, h: nat)
    requires Shaped(k) && h < MAX_SOCKETS && Tabled(k, Fd(Socket, h))
    ensures Reachable(k, h)
  {
    assert Within(k, h, 0);
  }

  /** No leak: after any run every object in use can be reached from a table exactly when no sockets are knotted. */
  lemma AllReachableIff(calls: seq<(nat, Op)>)
    ensures var k := Run(Booted(), calls);
            (forall fd :: Live(k, fd) ==> Held(k, fd)) <==> !exists s :: Knot(k, s)
  {
    hide Run, Exact;
    BootedIsGood();
    RunKeepsGood(Booted(), calls);
    var k := Run(Booted(), calls);
    if exists s :: Knot(k, s) {
      var s :| Knot(k, s);
      KnotIsLost(k, s);
    } else {
      forall fd | Live(k, fd) ensures Held(k, fd) {
        NoKnotHeld(k, fd);
      }
    }
  }

  /** The object itself is reachable, or, of a pipe, one of its ends. */
  ghost predicate Held(k: Kernel, fd: Fd)
    requires Shaped(k)
  {
    if fd.kind == PipeReader || fd.kind == PipeWriter
    then ObjectReachable(k, Fd(PipeReader, fd.handle)) || ObjectReachable(k, Fd(PipeWriter, fd.handle))
    else ObjectReachable(k, fd)
  }

  lemma KnotIsLost(k: Kernel, s: set<nat>)
    requires Shaped(k) && Knot(k, s)
    ensures exists fd :: Live(k, fd) && !Held(k, fd)
  {
    hide Tabled, QueuedAt;
    var h :| h in s;
    var fd := Fd(Socket, h);
    forall g | 0 <= g < MAX_SOCKETS && QueuedAt(k, g, fd) ensures !Reachable(k, g) {
      forall n: nat ensures !Within(k, g, n) {
        OutsideKnot(k, s, g, n);
      }
    }
    assert Live(k, fd) && !Held(k, fd);
  }

  lemma NoKnotHeld(k: Kernel, fd: Fd)
    requires Good(k) && Live(k, fd) && !exists s :: Knot(k, s)
    ensures Held(k, fd)
  {
    hide Named, Knot, Reachable, Tabled, QueuedAt;
    if Lost(k) != {} {
      LostIsKnot(k);
    }
    LiveIsNamed(k, fd);
    var x :| x in Named(k) && IsRef(x) && (x == fd || (IsEnd(fd) && IsEnd(x) && x.handle == fd.handle));
    NamedSomewhere(k, x);
    if !Tabled(k, x) {
      var g :| 0 <= g < MAX_SOCKETS && QueuedAt(k, g, x);
      assert InUse(k, g) by { QueueInUse(k, g, x); }
      assert g !in Lost(k);
    }
    assert ObjectReachable(k, x);
  }

  predicate IsEnd(fd: Fd)
  {
    fd.kind == PipeReader || fd.kind == PipeWriter
  }

  lemma QueueInUse(k: Kernel, g: nat, fd: Fd)
    requires Shaped(k) && g < MAX_SOCKETS && QueuedAt(k, g, fd)
    ensures InUse(k, g)
  {
  }

  lemma LiveIsNamed(k: Kernel, fd: Fd)
    requires Good(k) && Live(k, fd)
    ensures exists x :: x in Named(k) && IsRef(x) && (x == fd || (IsEnd(fd) && IsEnd(x) && x.handle == fd.handle))
  {
    hide Named;
    var r, w := Fd(PipeReader, fd.handle), Fd(PipeWriter, fd.handle);
    assert Refs(k, fd) == (Named(k) + multiset{})[fd];
    assert Refs(k, r) == (Named(k) + multiset{})[r] && Refs(k, w) == (Named(k) + multiset{})[w];
    if IsEnd(fd) {
      assert r in Named(k) || w in Named(k);
    } else {
      assert fd in Named(k);
    }
  }

  /** In particular nothing is lost while no queued descriptor is a socket. */
  lemma NoQueuedSockets(k: Kernel, fd: Fd)
    requires Good(k) && Live(k, fd)
    requires forall g, x :: 0 <= g < MAX_SOCKETS && QueuedAt(k, g, x) ==> x.kind != Socket
    ensures Held(k, fd)
  {
    hide Exact, Held;
    if exists s :: Knot(k, s) {
      var s :| Knot(k, s);
      var h :| h in s;
      SocketNamed(k, h);
      assert false;
    }
    NoKnotHeld(k, fd);
  }

  // A knot

  const A: Fd := Fd(Socket, 0)
  const B: Fd := Fd(Socket, 1)

  /** Process 0 has the given descriptors at 3 and 4, the sockets are `a`, `b` and no others, and nothing else is
      open. */
  ghost predicate Looks(k: Kernel, three: Fd, four: Fd, a: Sock, b: Sock)
  {
    && Shaped(k) && k.alive[0] && k.sockets[0] == a && k.sockets[1] == b
    && (forall h :: 2 <= h < MAX_SOCKETS ==> k.sockets[h] == NO_SOCK)
    && k.tables[0][3] == three && k.tables[0][4] == four
    && (forall f :: 0 <= f < FD_MAX && f != 3 && f != 4 ==> k.tables[0][f].kind != Socket)
    && (forall p, f :: 1 <= p < MAX_PROCESSES && 0 <= f < FD_MAX ==> k.tables[p][f].kind != Socket)
  }

  lemma PairOpened()
    ensures Looks(Step(Booted(), 0, OpenPairOp), A, B, Sock(true, 1, 1, []), Sock(true, 1, 0, []))
  {
    var k := Booted();
    assert FreeSocket(k.sockets, 0) == 0 && FreeSocket(k.sockets, 1) == 1;
    assert FreeSlot(k.tables[0], 3) == 3 && FreeSlot(k.tables[0], 4) == 4;
  }

  lemma SentToItself(k: Kernel)
    requires Looks(k, A, B, Sock(true, 1, 1, []), Sock(true, 1, 0, []))
    ensures Looks(Step(k, 0, SendOp(3, [4], true)), A, B, Sock(true, 1, 1, []), Sock(true, 2, 0, [B]))
  {
    var rights := Picked(k.tables[0], [4]);
    assert rights == [B] && rights[1..] == [];
    var k1 := SetQueue(k, 1, rights);
    assert RetainAll(k1, rights) == RetainAll(Retain(k1, B), []);
  }

  lemma FirstClosed(k: Kernel)
    requires Looks(k, A, B, Sock(true, 1, 1, []), Sock(true, 2, 0, [B]))
    ensures Looks(Step(k, 0, CloseOp(3)), FREE_FD, B, NO_SOCK, Sock(true, 2, 0, [B]))
  {
    OneSocketLess(k.sockets, 0, NO_SOCK);
    var k1 := k.(sockets := k.sockets[0 := NO_SOCK]);
    assert ReleaseAll(k1, []) == k1;
    assert Release(k, A) == k1;
  }

  lemma SecondClosed(k: Kernel)
    requires Looks(k, FREE_FD, B, NO_SOCK, Sock(true, 2, 0, [B]))
    ensures Looks(Step(k, 0, CloseOp(4)), FREE_FD, FREE_FD, NO_SOCK, Sock(true, 1, 0, [B]))
  {
    hide ReleaseAll;
    assert Release(k, B).sockets == k.sockets[1 := Sock(true, 1, 0, [B])];
  }

  lemma LooksKnotted(k: Kernel)
    requires Looks(k, FREE_FD, FREE_FD, NO_SOCK, Sock(true, 1, 0, [B]))
    ensures Knot(k, {1})
  {
    hide Slots;
    forall p | 0 <= p < MAX_PROCESSES ensures B !in k.tables[p] {
    }
    NothingNamed(k.tables, B);
    forall g | 0 <= g < MAX_SOCKETS && QueuedAt(k, g, B) ensures g == 1 {
    }
  }

  function KnotRun(): (calls: seq<(nat, Op)>)
  {
    [(0, OpenPairOp), (0, SendOp(3, [4], true)), (0, CloseOp(3)), (0, CloseOp(4))]
  }

  /** A pair of sockets, the second sent through the first, and both closed: the second stays in use for good, queued in
      itself and named by no table. */
  lemma SelfQueuedSocketStays()
    ensures Knot(Run(Booted(), KnotRun()), {1})
  {
    hide Step, Knot, Looks;
    var calls := KnotRun();
    var k1 := Step(Booted(), 0, OpenPairOp);
    var k2 := Step(k1, 0, SendOp(3, [4], true));
    var k3 := Step(k2, 0, CloseOp(3));
    var k4 := Step(k3, 0, CloseOp(4));
    PairOpened();
    SentToItself(k1);
    FirstClosed(k2);
    SecondClosed(k3);
    LooksKnotted(k4);
    var c1, c2, c3 := calls[1..], calls[2..], calls[3..];
    assert c1[1..] == c2 && c2[1..] == c3 && |c3[1..]| == 0;
    assert Run(k4, c3[1..]) == k4;
    assert Run(k3, c3) == k4;
    assert Run(k2, c2) == k4;
    assert Run(k1, c1) == k4;
  }
}
