/** The tree of paths: every file and directory lies in a directory that exists. */
module AosfsTree {
  import opened LittleEndian
  import opened Blkdev
  import opened AosfsFormat
  import opened Aosfs
  import opened AosfsExtents
  import opened AosfsSteps
  import opened AosfsViews
  import opened AosfsSound
  import opened AosfsMount
  import opened AosfsRemount
  import opened AosfsProgress
  import opened AosfsRuns

  /** A path is its parent, a slash and a last component, or a component of the root. */
  lemma PathSplits(p: Bytes)
    ensures SLASH in p ==> exists leaf :: SLASH !in leaf && p == Parent(p) + [SLASH] + leaf
    ensures SLASH !in p ==> Parent(p) == []
    ensures p != [] && p[|p| - 1] != SLASH ==> ImmediateChild(Parent(p), p) || (SLASH == p[0] && Parent(p) == [])
  {
    hide Parent;
    if SLASH in p {
      var leaf := p[|Parent(p)| + 1..];
      assert p == Parent(p) + [SLASH] + leaf;
    }
  }

  predicate BuiltIn(p: Bytes)
  {
    p == [] || Text(p) in ROOT_DIRS
  }

  ghost predicate IsDirectory(fs: Fs, p: Bytes)
    requires VolumeOk(fs)
  {
    BuiltIn(p) || (View(fs, p).Some? && View(fs, p).value.kind == DIRECTORY)
  }

  lemma DirExistsIs(fs: Fs, p: Bytes)
    requires VolumeOk(fs)
    ensures DirExists(fs, p) <==> IsDirectory(fs, p)
  {
  }

  /** What is named lies in the root, a built-in directory or a directory of the volume. */
  ghost predicate Rooted(fs: Fs)
    requires VolumeOk(fs)
  {
    forall q :: View(fs, q).Some? ==> IsDirectory(fs, Parent(q))
  }

  lemma ParentDiffers(p: Bytes)
    requires p != []
    ensures Parent(p) != p
  {
  }

  /** Removing the directory `p` would leave `p/`, which it does not count as inside `p`, without a parent. */
  ghost predicate Abandons(fs: Fs, op: Op)
    requires VolumeOk(fs)
  {
    op.RmdirOp? && Rmdir(fs, op.path).1 && View(fs, op.path + [SLASH]).Some?
  }

  lemma AddRooted(fs: Fs, fs1: Fs, p: Bytes)
    requires VolumeOk(fs) && VolumeOk(fs1) && Rooted(fs) && OthersSame(fs, fs1, p)
    requires View(fs1, p) == View(fs, p) || (p != [] && View(fs, p).None? && DirExists(fs, Parent(p)))
    ensures Rooted(fs1)
  {
    hide View, DirExists;
    DirExistsIs(fs, Parent(p));
    if p != [] {
      ParentDiffers(p);
    }
    forall q | View(fs1, q).Some? ensures IsDirectory(fs1, Parent(q)) {
      assert q != p ==> View(fs1, q) == View(fs, q);
      assert IsDirectory(fs, Parent(q));
      assert Parent(q) != p ==> View(fs1, Parent(q)) == View(fs, Parent(q));
    }
  }

  lemma SameKindRooted(fs: Fs, fs1: Fs, p: Bytes)
    requires VolumeOk(fs) && VolumeOk(fs1) && Rooted(fs) && OthersSame(fs, fs1, p)
    requires View(fs1, p).Some? ==> View(fs, p).Some?
    requires View(fs, p).Some? && View(fs, p).value.kind == DIRECTORY ==>
               View(fs1, p).Some? && View(fs1, p).value.kind == DIRECTORY
    ensures Rooted(fs1)
  {
    hide View;
    forall q | View(fs1, q).Some? ensures IsDirectory(fs1, Parent(q)) {
      assert q != p ==> View(fs1, q) == View(fs, q);
      assert IsDirectory(fs, Parent(q));
      assert Parent(q) != p ==> View(fs1, Parent(q)) == View(fs, Parent(q));
    }
  }

  /** Removing a directory nothing lies directly inside of leaves exactly `p/`, if it is there, without a parent. */
  lemma RemovedRooted(fs: Fs, fs1: Fs, p: Bytes)
    requires VolumeOk(fs) && VolumeOk(fs1) && Rooted(fs) && OthersSame(fs, fs1, p) && !BuiltIn(p)
    requires View(fs1, p).None? && forall q :: View(fs, q).Some? ==> !ImmediateChild(p, q)
    ensures Rooted(fs1) <==> View(fs, p + [SLASH]).None?
  {
    hide View;
    var slashed := p + [SLASH];
    SlashedParent(p);
    if View(fs, slashed).None? {
      forall q | View(fs1, q).Some? ensures IsDirectory(fs1, Parent(q)) {
        assert View(fs1, q) == View(fs, q) && IsDirectory(fs, Parent(q));
        if Parent(q) == p {
          ChildOf(p, q);
        } else {
          assert View(fs1, Parent(q)) == View(fs, Parent(q));
        }
      }
    } else {
      assert View(fs1, slashed) == View(fs, slashed);
    }
  }

  lemma SlashedParent(p: Bytes)
    ensures Parent(p + [SLASH]) == p && p + [SLASH] != p
  {
    assert (p + [SLASH])[..|p|] == p;
  }

  lemma ChildOf(p: Bytes, q: Bytes)
    requires Parent(q) == p && p != []
    ensures ImmediateChild(p, q) || q == p + [SLASH]
  {
    assert SLASH in q;
    assert q == p + [SLASH] + q[|p| + 1..];
  }

  lemma CreateChecks(fs: Fs, p: Bytes, mode: nat, uid: nat, gid: nat)
    requires VolumeOk(fs) && uid < U32 && gid < U32 && 0 !in p
    ensures Create(fs, p, mode, uid, gid).1 ==> p != [] && DirExists(fs, Parent(p))
  {
    hide AddEntry, DirExists, Parent, EntryOk;
  }

  lemma MkdirChecks(fs: Fs, p: Bytes, mode: nat, uid: nat, gid: nat)
    requires VolumeOk(fs) && uid < U32 && gid < U32 && 0 !in p
    ensures Mkdir(fs, p, mode, uid, gid).1 ==> p != [] && DirExists(fs, Parent(p))
  {
    hide AddEntry, DirExists, Parent, EntryOk;
  }

  lemma RmdirChecks(fs: Fs, p: Bytes)
    requires VolumeOk(fs) && Healthy(fs.dev)
    ensures var (fs1, ok) := Rmdir(fs, p); if ok then !BuiltIn(p) else fs1 == fs
  {
    hide Healthy, EntryOk, Sync;
    var i := Find(fs, p);
    if i < fs.limit {
      ClearedOk(fs, i);
      HealthySync(Put(fs, i, EMPTY), i);
    }
  }

  lemma ReadKeepsViews(fs: Fs, p: Bytes, offset: nat, len: nat)
    requires Safe(fs)
    ensures View(ReadFile(fs, p, offset, len).0, p) == View(fs, p)
  {
    hide Read, EntryOk;
    var fs1 := ReadFile(fs, p, offset, len).0;
    assert fs1 == fs.(dev := fs.dev.(faults := fs1.dev.faults));
    if Find(fs, p) < fs.limit {
      FindIs(fs1, p, Find(fs, p));
    }
  }

  /** On a clean volume the tree stays whole under every operation but the removal of a directory `p` beside `p/`. */
  lemma ApplyRootedIff(fs: Fs, op: Op)
    requires Clean(fs) && OpOk(op) && Rooted(fs)
    ensures Rooted(Apply(fs, op).0) <==> !Abandons(fs, op)
  {
    hide Clean, Rooted, View, Create, Mkdir, Unlink, Rmdir, WriteFile, Resize, Truncate, ReadFile, Safe, DistinctPaths;
    var fs1, p := Apply(fs, op).0, op.path;
    ApplyOthers(fs, op);
    match op {
      case CreateOp(_, mode, uid, gid) =>
        CreateRefines(fs, p, mode, uid, gid);
        CreateChecks(fs, p, mode, uid, gid);
        AddRooted(fs, fs1, p);
      case MkdirOp(_, mode, uid, gid) =>
        MkdirRefines(fs, p, mode, uid, gid);
        MkdirChecks(fs, p, mode, uid, gid);
        AddRooted(fs, fs1, p);
      case UnlinkOp(_) =>
        UnlinkRefines(fs, p);
        SameKindRooted(fs, fs1, p);
      case RmdirOp(_) =>
        RmdirRefines(fs, p);
        RmdirChecks(fs, p);
        if Rmdir(fs, p).1 {
          RemovedRooted(fs, fs1, p);
        } else {
          SameKindRooted(fs, fs1, p);
        }
      case WriteOp(_, offset, data) =>
        WriteRefinesSplice(fs, p, offset, data);
        SameKindRooted(fs, fs1, p);
      case ResizeOp(_, size) =>
        ResizeRefines(fs, p, size);
        SameKindRooted(fs, fs1, p);
      case TruncateOp(_) =>
        TruncateRefines(fs, p);
        SameKindRooted(fs, fs1, p);
      case ReadOp(_, offset, len) =>
        ReadKeepsViews(fs, p, offset, len);
        SameKindRooted(fs, fs1, p);
    }
  }

  // Runs

  /** The tree is whole before, between and after all events. */
  ghost predicate AlwaysRooted(fs: Fs, events: seq<Event>)
    requires VolumeOk(fs) && forall k :: 0 <= k < |events| ==> EventOk(events[k])
    decreases |events|
  {
    Rooted(fs) && (events == [] || AlwaysRooted(Step(fs, events[0]), events[1..]))
  }

  /** No event removes a directory `p` beside `p/`. */
  ghost predicate NeverAbandons(fs: Fs, events: seq<Event>)
    requires VolumeOk(fs) && forall k :: 0 <= k < |events| ==> EventOk(events[k])
    decreases |events|
  {
    events == [] || (!(events[0].Call? && Abandons(fs, events[0].op))
        && NeverAbandons(Step(fs, events[0]), events[1..]))
  }

  lemma StepRootedIff(fs: Fs, e: Event)
    requires Clean(fs) && EventOk(e) && Rooted(fs) && fs.nextInode + 1 < U64
    ensures Clean(Step(fs, e)) && Step(fs, e).nextInode <= fs.nextInode + 1
    ensures Rooted(Step(fs, e)) <==> !(e.Call? && Abandons(fs, e.op))
  {
    hide Clean, Apply, Mount, View, Abandons;
    match e
    case Call(op) =>
      ApplyClean(fs, op);
      ApplyRootedIff(fs, op);
    case Remount =>
      RemountAgrees(fs);
      var fs1 := Step(fs, e);
      forall q | View(fs1, q).Some? ensures IsDirectory(fs1, Parent(q)) {
        assert View(fs1, q) == View(fs, q) && View(fs1, Parent(q)) == View(fs, Parent(q));
      }
  }

  /** In a fault-free run everything named lies in a directory that exists, all the time, exactly when no event
      removes a directory `p` while `p/` is named. */
  lemma {:induction false} RunRootedIff(fs: Fs, events: seq<Event>)
    requires Clean(fs) && Rooted(fs) && (forall k :: 0 <= k < |events| ==> EventOk(events[k]))
    requires fs.nextInode + |events| < U64
    ensures AlwaysRooted(fs, events) <==> NeverAbandons(fs, events)
    decreases |events|
  {
    hide Clean, Rooted, Step, Abandons;
    if events != [] {
      var fs1 := Step(fs, events[0]);
      StepRootedIff(fs, events[0]);
      if Rooted(fs1) {
        RunRootedIff(fs1, events[1..]);
      } else {
        assert !AlwaysRooted(fs1, events[1..]);
      }
    }
  }

  /** The same from a formatted volume. */
  lemma FormattedRunsAreRooted(fs: Fs, events: seq<Event>)
    requires Placed(fs.dev, fs.base, fs.storage) && Healthy(fs.dev) && Format(fs).1
    requires (forall k :: 0 <= k < |events| ==> EventOk(events[k])) && Format(fs).0.nextInode + |events| < U64
    ensures AlwaysRooted(Format(fs).0, events) <==> NeverAbandons(Format(fs).0, events)
  {
    hide Format, Clean, View, AlwaysRooted, NeverAbandons;
    FormatIsClean(fs);
    RunRootedIff(Format(fs).0, events);
  }

  predicate EndsInSlash(p: Bytes)
  {
    p != [] && p[|p| - 1] == SLASH
  }

  ghost predicate NoneEndsInSlash(fs: Fs)
    requires VolumeOk(fs)
  {
    forall q :: View(fs, q).Some? ==> !EndsInSlash(q)
  }

  /** The event adds no path that ends in a slash. */
  predicate Tidy(e: Event)
  {
    e.Call? && (e.op.CreateOp? || e.op.MkdirOp?) ==> !EndsInSlash(e.op.path)
  }

  lemma TidyStep(fs: Fs, e: Event)
    requires Clean(fs) && EventOk(e) && Tidy(e) && NoneEndsInSlash(fs)
    ensures NoneEndsInSlash(Step(fs, e)) && !(e.Call? && Abandons(fs, e.op))
  {
    hide Clean, Apply, Mount, View, Rmdir, Safe;
    var fs1 := Step(fs, e);
    match e
    case Call(op) =>
      assert EndsInSlash(op.path + [SLASH]);
      ApplyOthers(fs, op);
      if !op.CreateOp? && !op.MkdirOp? {
        NothingNew(fs, op);
      }
      forall q | View(fs1, q).Some? ensures !EndsInSlash(q) {
        assert q != op.path ==> View(fs1, q) == View(fs, q);
      }
    case Remount =>
      RemountAgrees(fs);
      forall q | View(fs1, q).Some? ensures !EndsInSlash(q) {
        assert View(fs1, q) == View(fs, q);
      }
  }

  /** Only creation adds a name. */
  lemma NothingNew(fs: Fs, op: Op)
    requires Clean(fs) && OpOk(op) && !op.CreateOp? && !op.MkdirOp?
    ensures View(Apply(fs, op).0, op.path).Some? ==> View(fs, op.path).Some?
  {
    hide Clean, View, Unlink, Rmdir, WriteFile, Resize, Truncate, ReadFile, Safe, DistinctPaths;
    var p := op.path;
    match op {
      case UnlinkOp(_) => UnlinkRefines(fs, p);
      case RmdirOp(_) => RmdirRefines(fs, p);
      case WriteOp(_, offset, data) => WriteRefinesSplice(fs, p, offset, data);
      case ResizeOp(_, size) => ResizeRefines(fs, p, size);
      case TruncateOp(_) => TruncateRefines(fs, p);
      case ReadOp(_, offset, len) => ReadKeepsViews(fs, p, offset, len);
    }
  }

  /** So the tree stays whole in every fault-free run that adds no path ending in a slash. */
  lemma {:induction false} TidyRunsAreRooted(fs: Fs, events: seq<Event>)
    requires Clean(fs) && Rooted(fs) && NoneEndsInSlash(fs) && fs.nextInode + |events| < U64
    requires forall k :: 0 <= k < |events| ==> EventOk(events[k]) && Tidy(events[k])
    ensures AlwaysRooted(fs, events)
    decreases |events|
  {
    hide Clean, Rooted, Step, Abandons, NoneEndsInSlash;
    if events != [] {
      StepRootedIff(fs, events[0]);
      TidyStep(fs, events[0]);
      TidyRunsAreRooted(Step(fs, events[0]), events[1..]);
    }
  }

  // The failing runs

  /** Makes a directory, creates a file whose name is the directory's with a slash, and removes the directory. */
  function AbandoningRun(p: Bytes): (events: seq<Event>)
  {
    [Call(MkdirOp(p, 0, 0, 0)), Call(CreateOp(p + [SLASH], 0, 0, 0)), Call(RmdirOp(p))]
  }

  /** `p` is a name in the root that is not taken. */
  ghost predicate FreshName(fs: Fs, p: Bytes)
    requires VolumeOk(fs)
  {
    && SLASH !in p && 0 !in p && 0 < |p| && |p| + 1 < PATH_MAX && !BuiltIn(p)
    && View(fs, p).None? && View(fs, p + [SLASH]).None?
  }

  lemma NoCommandsLeaf(p: Bytes)
    requires SLASH !in p
    ensures !CommandsLeaf(p) && !CommandsLeaf(p + [SLASH])
  {
    forall q | (q == p || q == p + [SLASH]) && |q| > 9 ensures Text(q[..9]) != "commands/" {
      assert q[8] == p[8] && q[8] in p;
      assert Text(q[..9])[8] == q[8] as char;
    }
  }

  lemma AbandonMkdir(fs: Fs, p: Bytes)
    requires Clean(fs) && Rooted(fs) && FreshName(fs, p) && SlotFree(fs)
    ensures var fs1 := Apply(fs, MkdirOp(p, 0, 0, 0)).0;
            && Rooted(fs1) && OthersSame(fs, fs1, p) && View(fs1, p).Some? && View(fs1, p).value.kind == DIRECTORY
  {
    hide Clean, Rooted, View, Mkdir, Safe, DistinctPaths, SlotFree, Healthy;
    NoCommandsLeaf(p);
    MkdirSucceedsIff(fs, p, 0, 0, 0);
    MkdirRefines(fs, p, 0, 0, 0);
    ApplyRootedIff(fs, MkdirOp(p, 0, 0, 0));
  }

  lemma AbandonCreate(fs: Fs, p: Bytes)
    requires Clean(fs) && Rooted(fs) && SLASH !in p && 0 !in p && 0 < |p| && |p| + 1 < PATH_MAX && SlotFree(fs)
    requires View(fs, p).Some? && View(fs, p).value.kind == DIRECTORY && View(fs, p + [SLASH]).None?
    ensures var fs1 := Apply(fs, CreateOp(p + [SLASH], 0, 0, 0)).0;
            && Rooted(fs1) && OthersSame(fs, fs1, p + [SLASH]) && View(fs1, p + [SLASH]).Some?
  {
    hide Clean, Rooted, View, Create, Safe, DistinctPaths, SlotFree, Healthy, DirExists;
    var q := p + [SLASH];
    NoCommandsLeaf(p);
    SlashedParent(p);
    DirExistsIs(fs, p);
    CreateSucceedsIff(fs, q, 0, 0, 0);
    CreateRefines(fs, q, 0, 0, 0);
    ApplyRootedIff(fs, CreateOp(q, 0, 0, 0));
  }

  /** Slots other than the one an operation works on stay free. */
  lemma SlotStaysFree(fs: Fs, op: Op, i: nat, j: nat)
    requires Clean(fs) && OpOk(op) && i < fs.limit && j < fs.limit && i != j
    requires !fs.entries[i].inUse && !fs.entries[j].inUse
    ensures SlotFree(Apply(fs, op).0)
  {
    hide Clean, Apply, Safe, EntryOk, Target;
    ApplyOnly(fs, op);
    OtherEntries(fs, Apply(fs, op).0, Target(fs, op));
    var k := if Target(fs, op) == i then j else i;
    assert !Apply(fs, op).0.entries[k].inUse;
  }

  lemma NoChildren(fs: Fs, fs2: Fs, p: Bytes)
    requires VolumeOk(fs) && VolumeOk(fs2) && Rooted(fs) && FreshName(fs, p)
    requires forall q :: q != p && q != p + [SLASH] ==> View(fs2, q) == View(fs, q)
    ensures forall q :: View(fs2, q).Some? ==> !ImmediateChild(p, q)
  {
    hide View;
    forall q | View(fs2, q).Some? && ImmediateChild(p, q) ensures false {
      assert q != p && q != p + [SLASH];
      assert View(fs2, q) == View(fs, q) && IsDirectory(fs, Parent(q));
      ChildParent(p, q);
    }
  }

  lemma ChildParent(p: Bytes, q: Bytes)
    requires p != [] && ImmediateChild(p, q)
    ensures Parent(q) == p
  {
    hide Parent;
    var r := Parent(q);
    assert q[|p|] == SLASH && SLASH in q;
    assert !(|r| < |p|) && !(|r| > |p|);
  }

  /** On every clean volume with two free slots such a run leaves a file in a directory that does not exist. */
  lemma DirectoryAbandoned(fs: Fs, p: Bytes, i: nat, j: nat)
    requires Clean(fs) && Rooted(fs) && fs.nextInode + 3 < U64 && FreshName(fs, p)
    requires i < fs.limit && j < fs.limit && i != j && !fs.entries[i].inUse && !fs.entries[j].inUse
    ensures (forall k :: 0 <= k < 3 ==> EventOk(AbandoningRun(p)[k])) && !Rooted(Run(fs, AbandoningRun(p)))
  {
    hide Clean, Rooted, View, Apply, Safe, SlotFree, DistinctPaths, Rmdir, Healthy;
    var make, create, remove := MkdirOp(p, 0, 0, 0), CreateOp(p + [SLASH], 0, 0, 0), RmdirOp(p);
    assert SlotFree(fs) by { OneFree(fs, i); }
    AbandonMkdir(fs, p);
    SlotStaysFree(fs, make, i, j);
    ApplyClean(fs, make);
    var fs1 := Apply(fs, make).0;
    assert View(fs1, p + [SLASH]) == View(fs, p + [SLASH]);
    AbandonCreate(fs1, p);
    ApplyClean(fs1, create);
    var fs2 := Apply(fs1, create).0;
    NoChildren(fs, fs2, p);
    RmdirSucceedsIff(fs2, p);
    ApplyRootedIff(fs2, remove);
    RunThree(fs, AbandoningRun(p));
  }

  lemma OneFree(fs: Fs, i: nat)
    requires VolumeOk(fs) && i < fs.limit && !fs.entries[i].inUse
    ensures SlotFree(fs)
  {
  }

  lemma RunThree(fs: Fs, events: seq<Event>)
    requires VolumeOk(fs) && |events| == 3 && forall k :: 0 <= k < |events| ==> EventOk(events[k])
    ensures Run(fs, events) == Step(Step(Step(fs, events[0]), events[1]), events[2])
  {
    hide Step;
    var fs1, rest := Step(fs, events[0]), events[1..];
    assert rest[0] == events[1] && rest[1] == events[2];
    RunTwo(fs1, rest);
  }

  /** For example on a freshly formatted disk: "a" is made, "a/" created and "a" removed. */
  lemma AbandonWitness()
    ensures (forall k :: 0 <= k < 3 ==> EventOk(AbandoningRun(SAMPLE_PATH)[k]))
            && !Rooted(Run(Format(SampleDisk()).0, AbandoningRun(SAMPLE_PATH)))
  {
    hide Format, Clean, View, Safe;
    var fs := SampleFormatted();
    FormatIsClean(SampleDisk());
    UnusedAll(fs);
    SampleName();
    DirectoryAbandoned(fs, SAMPLE_PATH, 0, 1);
  }

  lemma SampleName()
    ensures !BuiltIn(SAMPLE_PATH)
  {
    assert |Text(SAMPLE_PATH)| == 1;
  }

  lemma UnusedAll(fs: Fs)
    requires VolumeOk(fs) && forall p :: View(fs, p).None?
    ensures forall i :: 0 <= i < fs.limit ==> !fs.entries[i].inUse
  {
    forall i | 0 <= i < fs.limit ensures !fs.entries[i].inUse {
      assert View(fs, fs.entries[i].path).None?;
    }
  }
}
