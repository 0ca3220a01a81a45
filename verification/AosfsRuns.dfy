/** Whole runs of AOSFS: any sequence of operations and remounts, with any pattern of device failures. */
module AosfsRuns {
  import opened Blkdev
  import opened LittleEndian
  import opened AosfsFormat
  import opened Aosfs
  import opened AosfsExtents
  import opened AosfsSteps
  import opened AosfsContents
  import opened AosfsViews
  import opened AosfsSound
  import opened AosfsMount
  import opened AosfsRemount
  import opened AosfsFailedMount
  import opened AosfsProgress

  datatype Op =
    | CreateOp(path: Bytes, mode: nat, uid: nat, gid: nat)
    | MkdirOp(path: Bytes, mode: nat, uid: nat, gid: nat)
    | UnlinkOp(path: Bytes)
    | RmdirOp(path: Bytes)
    | WriteOp(path: Bytes, offset: nat, data: Bytes)
    | ResizeOp(path: Bytes, size: nat)
    | TruncateOp(path: Bytes)
    | ReadOp(path: Bytes, offset: nat, len: nat)

  /** Arguments as their C types have them: 32-bit owners and NUL-terminated paths. */
  predicate OpOk(op: Op)
  {
    0 !in op.path && (op.CreateOp? || op.MkdirOp? ==> op.uid < U32 && op.gid < U32)
  }

  function Apply(fs: Fs, op: Op): (r: (Fs, bool))
    requires VolumeOk(fs) && OpOk(op)
    ensures VolumeOk(r.0)
  {
    match op
    case CreateOp(path, mode, uid, gid) => Create(fs, path, mode, uid, gid)
    case MkdirOp(path, mode, uid, gid) => Mkdir(fs, path, mode, uid, gid)
    case UnlinkOp(path) => Unlink(fs, path)
    case RmdirOp(path) => Rmdir(fs, path)
    case WriteOp(path, offset, data) => WriteFile(fs, path, offset, data)
    case ResizeOp(path, size) => Resize(fs, path, size)
    case TruncateOp(path) => Truncate(fs, path)
    case ReadOp(path, offset, len) => var (fs1, ok, _) := ReadFile(fs, path, offset, len); (fs1, ok)
  }

  /** An operation that adds an entry uses the first free slot; every other one the slot of its path. */
  function Target(fs: Fs, op: Op): (r: nat)
    requires VolumeOk(fs)
  {
    if (op.CreateOp? || op.MkdirOp?) && Find(fs, op.path) == fs.limit then FreeFrom(fs, 0) else Find(fs, op.path)
  }

  // One operation

  lemma AddOnly(fs: Fs, kind: nat, mode: nat, uid: nat, gid: nat, p: Bytes)
    requires Safe(fs) && uid < U32 && gid < U32 && |p| < PATH_MAX && 0 !in p && kind <= SYMLINK
    ensures var fs1 := AddEntry(fs, kind, mode, uid, gid, p).0;
            var i := FreeFrom(fs, 0);
            Only(fs, fs1, i) && Follows(fs, fs1, i)
  {
    hide AddEntry, Only, Follows;
    AddEntryOnly(fs, kind, mode, uid, gid, p);
    AddFollows(fs, kind, mode, uid, gid, p);
  }

  lemma ClearSlot(fs: Fs, i: nat)
    requires Safe(fs) && i < fs.limit
    ensures VolumeOk(Put(fs, i, EMPTY))
    ensures var fs1 := Sync(Put(fs, i, EMPTY), i).0; Only(fs, fs1, i) && Follows(fs, fs1, i)
  {
    hide Sync, Only, Follows, Fits;
    EmptyFits(fs, i);
    SyncOnly(fs, i, EMPTY);
    ClearFollows(fs, i);
  }

  lemma ReadOnly(fs: Fs, p: Bytes, offset: nat, len: nat)
    requires Safe(fs)
    ensures var fs1 := ReadFile(fs, p, offset, len).0; Only(fs, fs1, Find(fs, p)) && Follows(fs, fs1, Find(fs, p))
  {
    hide Only, Follows, Read, Safe, EntryOk, Placed;
    var i := Find(fs, p);
    ReadFollows(fs, p, offset, len, i);
    if i < fs.limit {
      DataOnly(fs, ReadFile(fs, p, offset, len).0.dev, fs.nextData, fs.nextData, i);
    } else {
      OnlyRefl(fs, i);
    }
  }

  lemma ReadFollows(fs: Fs, p: Bytes, offset: nat, len: nat, i: nat)
    requires Safe(fs)
    ensures Follows(fs, ReadFile(fs, p, offset, len).0, i)
  {
    hide DiskEntry, EntryOk, Read, Safe;
    var fs1 := ReadFile(fs, p, offset, len).0;
    SameDisk(fs, fs1);
    var k := Find(fs, p);
    if k < fs.limit && Healthy(fs.dev) {
      SizeOfContent(fs, k);
      var e := fs.entries[k];
      if IsFile(fs, k) && offset + len <= e.size && len > 0 {
        HealthyRead(fs.dev, fs.base + DataAt(e, k) + offset, len);
      }
    }
  }

  lemma NothingDone(fs: Fs, i: nat)
    requires Safe(fs)
    ensures Only(fs, fs, i) && Follows(fs, fs, i)
  {
    hide Only;
    OnlyRefl(fs, i);
  }

  /** Every operation, failed or not, touches only its own slot, and memory and disk stay in step while the device
      answers. */
  lemma ApplyOnly(fs: Fs, op: Op)
    requires Safe(fs) && OpOk(op)
    ensures var fs1 := Apply(fs, op).0;
            Only(fs, fs1, Target(fs, op)) && Follows(fs, fs1, Target(fs, op))
  {
    hide Only, Follows, AddEntry, WriteFile, Resize, Truncate, ReadFile, Sync;
    hide EntryOk, Placed, Safe, Text, CommandsLeaf, DirExists, HasChildren;
    var i := Target(fs, op);
    NothingDone(fs, i);
    match op
    case CreateOp(path, mode, uid, gid) =>
      if |path| < PATH_MAX { AddOnly(fs, REGULAR, mode, uid, gid, path); }
    case MkdirOp(path, mode, uid, gid) =>
      if |path| < PATH_MAX { AddOnly(fs, DIRECTORY, mode, uid, gid, path); }
    case UnlinkOp(path) =>
      if i < fs.limit { ClearSlot(fs, i); }
    case RmdirOp(path) =>
      if i < fs.limit { ClearSlot(fs, i); }
    case WriteOp(path, offset, data) =>
      WriteFileFacts(fs, path, offset, data);
      WriteFollows(fs, path, offset, data);
    case ResizeOp(path, size) =>
      ResizeFacts(fs, path, size);
      ResizeFollows(fs, path, size);
    case TruncateOp(path) =>
      TruncateFacts(fs, path);
      TruncateFollows(fs, path);
    case ReadOp(path, offset, len) =>
      ReadOnly(fs, path, offset, len);
  }

  /** What the target slot holds before and after. */
  ghost predicate SlotStep(fs: Fs, fs1: Fs, i: nat, path: Bytes)
    requires VolumeOk(fs) && VolumeOk(fs1)
  {
    i < fs.limit ==>
      && (fs.entries[i].inUse ==> fs.entries[i].path == path)
      && (fs1.entries[i].inUse ==> fs1.entries[i].path == path)
      && (fs1.entries[i].inUse ==>
            if fs.entries[i].inUse then fs1.entries[i].inode == fs.entries[i].inode && fs1.nextInode == fs.nextInode
            else
              && fs1.entries[i].inode == fs.nextInode && fs1.nextInode == (fs.nextInode + 1) % U64
              && Find(fs, path) == fs.limit)
  }

  lemma AddSlot(fs: Fs, kind: nat, mode: nat, uid: nat, gid: nat, p: Bytes)
    requires VolumeOk(fs) && uid < U32 && gid < U32 && |p| < PATH_MAX && 0 !in p && kind <= SYMLINK
    requires Find(fs, p) == fs.limit
    ensures var fs1 := AddEntry(fs, kind, mode, uid, gid, p).0;
            SlotStep(fs, fs1, FreeFrom(fs, 0), p) && (fs1.nextInode == fs.nextInode
                || fs1.nextInode == (fs.nextInode + 1) % U64)
  {
    hide EntryOk, Placed, AddEntry;
    AddedEntry(fs, kind, mode, uid, gid, p);
    AddInode(fs, kind, mode, uid, gid, p);
  }

  lemma AddInode(fs: Fs, kind: nat, mode: nat, uid: nat, gid: nat, p: Bytes)
    requires VolumeOk(fs) && uid < U32 && gid < U32 && |p| < PATH_MAX && 0 !in p && kind <= SYMLINK
    ensures var (fs1, ok) := AddEntry(fs, kind, mode, uid, gid, p);
            if ok then fs1.nextInode == (fs.nextInode + 1) % U64
            else fs1.nextInode == fs.nextInode || fs1.nextInode == (fs.nextInode + 1) % U64
  {
    hide EntryOk, Placed, Sync;
  }

  lemma ApplySlot(fs: Fs, op: Op)
    requires Safe(fs) && OpOk(op)
    ensures var fs1 := Apply(fs, op).0;
            && SlotStep(fs, fs1, Target(fs, op), op.path)
            && (fs1.nextInode == fs.nextInode || fs1.nextInode == (fs.nextInode + 1) % U64)
  {
    hide Only, AddEntry, WriteFile, Resize, Truncate, Sync, Content;
    hide EntryOk, Placed, Safe, Text, CommandsLeaf, DirExists, HasChildren;
    match op
    case CreateOp(path, mode, uid, gid) =>
      if |path| < PATH_MAX && Find(fs, path) == fs.limit { AddSlot(fs, REGULAR, mode, uid, gid, path); }
    case MkdirOp(path, mode, uid, gid) =>
      if |path| < PATH_MAX && Find(fs, path) == fs.limit { AddSlot(fs, DIRECTORY, mode, uid, gid, path); }
    case UnlinkOp(path) =>
    case RmdirOp(path) =>
    case WriteOp(path, offset, data) =>
      WriteFileFacts(fs, path, offset, data);
      WriteInode(fs, path, offset, data);
    case ResizeOp(path, size) =>
      ResizeFacts(fs, path, size);
      ResizeInode(fs, path, size);
    case TruncateOp(path) =>
      TruncateFacts(fs, path);
      TruncateInode(fs, path);
    case ReadOp(path, offset, len) =>
  }

  lemma WriteInode(fs: Fs, path: Bytes, offset: nat, data: Bytes)
    requires VolumeOk(fs)
    ensures WriteFile(fs, path, offset, data).0.nextInode == fs.nextInode
  {
    hide Reserve, Write, Sync, EntryOk, Placed;
  }

  lemma ResizeInode(fs: Fs, path: Bytes, size: nat)
    requires VolumeOk(fs)
    ensures Resize(fs, path, size).0.nextInode == fs.nextInode
  {
    hide Reserve, ZeroBytes, Sync, EntryOk, Placed;
  }

  lemma TruncateInode(fs: Fs, path: Bytes)
    requires VolumeOk(fs)
    ensures Truncate(fs, path).0.nextInode == fs.nextInode
  {
    hide Sync, EntryOk, Placed;
  }

  /** No operation, failed or not, changes what another path names. */
  lemma ApplyOthers(fs: Fs, op: Op)
    requires Safe(fs) && OpOk(op)
    ensures Safe(Apply(fs, op).0) && OthersSame(fs, Apply(fs, op).0, op.path)
  {
    hide Only, Follows, Apply, View;
    ApplyOnly(fs, op);
    ApplySlot(fs, op);
    forall q | q != op.path ensures View(Apply(fs, op).0, q) == View(fs, q) {
      ViewKept(fs, Apply(fs, op).0, Target(fs, op), q);
    }
  }

  /** Operations keep a clean volume clean, as long as inode numbers last. */
  lemma ApplyClean(fs: Fs, op: Op)
    requires Clean(fs) && OpOk(op) && fs.nextInode + 1 < U64
    ensures Clean(Apply(fs, op).0) && Apply(fs, op).0.nextInode <= fs.nextInode + 1
  {
    hide Only, Follows, Apply, SlotStep, DistinctPaths, InodesBelow, Placed, EntryOk, Clean, Safe, Target;
    var fs1, i := Apply(fs, op).0, Target(fs, op);
    ApplyOnly(fs, op);
    ApplySlot(fs, op);
    OtherEntries(fs, fs1, i);
    SlotDistinct(fs, fs1, i, op.path);
    CleanStep(fs, fs1, i);
  }

  lemma SlotDistinct(fs: Fs, fs1: Fs, i: nat, path: Bytes)
    requires VolumeOk(fs) && VolumeOk(fs1) && fs1.limit == fs.limit && SlotStep(fs, fs1, i, path)
    requires DistinctPaths(fs) && InodesBelow(fs) && fs.nextInode + 1 < U64
    requires fs1.nextInode == fs.nextInode || fs1.nextInode == (fs.nextInode + 1) % U64
    requires forall j :: 0 <= j < fs.limit && j != i ==> fs1.entries[j] == fs.entries[j]
    ensures DistinctPaths(fs1) && InodesBelow(fs1)
  {
    hide EntryOk, Placed;
  }

  // Runs

  datatype Event = Call(op: Op) | Remount

  predicate EventOk(e: Event)
  {
    e.Call? ==> OpOk(e.op)
  }

  /** A failed mount is followed by whatever calls come next, as callers of the kernel function do not look at its
      result. */
  function Step(fs: Fs, e: Event): (fs': Fs)
    requires VolumeOk(fs) && EventOk(e)
    ensures VolumeOk(fs')
  {
    match e
    case Call(op) => Apply(fs, op).0
    case Remount =>
      MountKeepsVolume(fs);
      Mount(fs).0
  }

  function Run(fs: Fs, events: seq<Event>): (fs': Fs)
    requires VolumeOk(fs) && forall k :: 0 <= k < |events| ==> EventOk(events[k])
    ensures VolumeOk(fs')
    decreases |events|
  {
    if events == [] then fs else Run(Step(fs, events[0]), events[1..])
  }

  lemma OnlySane(fs: Fs, fs1: Fs, i: nat)
    requires Sane(fs) && Only(fs, fs1, i)
    ensures Sane(fs1)
  {
    hide Safe, DecodeSuper, EntryOk;
    SuperKept(fs, fs1, fs.base + TABLE_OFFSET, fs.base + fs.storage);
  }

  lemma DeviceOnly(fs: Fs, d: Device)
    requires Sane(fs) && d == fs.dev.(faults := d.faults)
    ensures Sane(fs.(dev := d))
  {
    hide DecodeEntry, DecodeSuper, EntryOk;
    var fs1 := fs.(dev := d);
    SwapDevice(fs, d);
    SameDisk(fs, fs1);
    SafeAgain(fs, fs1);
  }

  /** An operation, or a mount that does no harm. */
  ghost predicate Survives(fs: Fs, e: Event)
    requires VolumeOk(fs)
  {
    e.Call? || (SuperOf(fs).maxEntries <= MAX_ENTRIES && Harmless(fs))
  }

  /** Exactly the harmful mounts end the sanity of a volume. */
  lemma StepSaneIff(fs: Fs, e: Event)
    requires Sane(fs) && EventOk(e)
    ensures Sane(Step(fs, e)) <==> Survives(fs, e)
  {
    hide Safe, Apply, Mount, Only, Follows, VolumeOk, Read, SuperOf, StopsAt;
    match e
    case Call(op) =>
      ApplyOnly(fs, op);
      OnlySane(fs, Apply(fs, op).0, Target(fs, op));
    case Remount =>
      MountKeepsVolume(fs);
      MountIsSafe(fs);
      SaneIsCurrent(fs);
      MountKeepsPlace(fs);
      SameDisk(fs, Mount(fs).0);
      SaneMountsIff(fs);
      if !Mount(fs).1 {
        FailedMountSafeIff(fs);
        FailedMountTable(fs);
      }
  }

  lemma FailedMountTable(fs: Fs)
    requires Sane(fs) && !Mount(fs).1
    ensures SuperOf(fs).maxEntries <= Mount(fs).0.limit
  {
    hide Mount, Safe, DiskEntry, SuperOf, VolumeOk, Read, Raised;
    FailedMountLeaves(fs);
  }

  /** No mount of the run does harm. */
  ghost predicate MountsSurvive(fs: Fs, events: seq<Event>)
    requires VolumeOk(fs) && forall k :: 0 <= k < |events| ==> EventOk(events[k])
    decreases |events|
  {
    events == [] || (Survives(fs, events[0]) && MountsSurvive(Step(fs, events[0]), events[1..]))
  }

  /** The volume is sane before, between and after all events. */
  ghost predicate AlwaysSane(fs: Fs, events: seq<Event>)
    requires VolumeOk(fs) && forall k :: 0 <= k < |events| ==> EventOk(events[k])
    decreases |events|
  {
    Sane(fs) && (events == [] || AlwaysSane(Step(fs, events[0]), events[1..]))
  }

  /** Extent safety: from a sane volume, with any device failures, a run keeps each file within its extent and all
      extents, in memory and on disk, pairwise disjoint, clear of the table and below next_data_offset, which stays
      within storage, all the time exactly when no mount of it does harm. */
  lemma {:induction false} RunSafeIff(fs: Fs, events: seq<Event>)
    requires Sane(fs) && forall k :: 0 <= k < |events| ==> EventOk(events[k])
    ensures AlwaysSane(fs, events) <==> MountsSurvive(fs, events)
    decreases |events|
  {
    hide Sane, Step, Survives;
    if events != [] {
      StepSaneIff(fs, events[0]);
      if Survives(fs, events[0]) {
        RunSafeIff(Step(fs, events[0]), events[1..]);
      } else {
        assert !AlwaysSane(Step(fs, events[0]), events[1..]);
      }
    }
  }

  lemma {:induction false} RunKeepsSafe(fs: Fs, events: seq<Event>)
    requires Sane(fs) && (forall k :: 0 <= k < |events| ==> EventOk(events[k])) && MountsSurvive(fs, events)
    ensures Sane(Run(fs, events))
    decreases |events|
  {
    hide Sane, Step, Survives;
    if events != [] {
      StepSaneIff(fs, events[0]);
      RunKeepsSafe(Step(fs, events[0]), events[1..]);
    }
  }

  /** The same from the very start: a formatted volume. */
  lemma FormattedRunsAreSafe(fs: Fs, events: seq<Event>)
    requires Placed(fs.dev, fs.base, fs.storage) && Format(fs).1 && forall k :: 0 <= k < |events| ==> EventOk(events[k])
    ensures AlwaysSane(Format(fs).0, events) <==> MountsSurvive(Format(fs).0, events)
  {
    hide Format, Safe, SuperOf, AlwaysSane, MountsSurvive;
    FormatIsClean(fs);
    SuperRoundTrip();
    RunSafeIff(Format(fs).0, events);
  }

  // A mount that loses extents

  /** On every device driven by blocks, one failed read of the superblock ends the safety of every volume that holds a
      non-empty file. */
  lemma LostSuperblock(fs: Fs, p: Bytes)
    requires Sane(fs) && fs.dev.ops && fs.dev.blockSize <= SECTOR
    requires View(fs, p).Some? && View(fs, p).value.data != []
    ensures var broken := fs.(dev := fs.dev.(faults := [true]));
            Sane(broken) && !Mount(broken).1 && !Safe(Mount(broken).0)
  {
    hide Safe, Mount, DiskEntry, EntryOk, SuperOf, Read;
    var broken := fs.(dev := fs.dev.(faults := [true]));
    DeviceOnly(fs, broken.dev);
    SaneIsCurrent(broken);
    MountIsLoad(broken);
    FirstReadFails(broken);
    FailedMountSafeIff(broken);
    var i := Find(fs, p);
    SizeOfContent(fs, i);
    assert fs.entries[i].capacity != 0 && fs.entries[i].offset >= DATA_OFFSET;
    assert Slot(broken, false, i) == fs.entries[i] && !ExtentOk(fs.entries[i], DATA_OFFSET);
  }

  lemma FirstReadFails(fs: Fs)
    requires Mountable(fs.dev, fs.base, fs.storage) && fs.dev.ops && fs.dev.blockSize <= SECTOR
             && fs.dev.faults == [true]
    ensures !Read(fs.dev, fs.base, SUPER_SIZE).1
  {
    var chunk := Chunk(fs.dev, fs.base, SUPER_SIZE);
    assert !ReadBlock(fs.dev, fs.base, chunk).1;
  }

  /** A disk of 1 MiB. */
  function SampleDisk(): (fs: Fs)
    ensures Placed(fs.dev, fs.base, fs.storage)
  {
    Fs(Device(Zeros(1048576), 512, true, true, []), 0, 1048576, {}, MAX_ENTRIES, NoEntries(), DYNAMIC_INO_BASE,
        DATA_OFFSET)
  }

  const SAMPLE_PATH: Bytes := [97]

  /** Creates a file and writes one byte to it. */
  function SampleEvents(): (events: seq<Event>)
    ensures forall k :: 0 <= k < |events| ==> EventOk(events[k])
  {
    [Call(CreateOp(SAMPLE_PATH, 0, 0, 0)), Call(WriteOp(SAMPLE_PATH, 0, [1]))]
  }

  /** A concrete run: format the disk, create a file, write one byte to it, and mount again while the superblock cannot
      be read. */
  lemma FailedMountWitness()
    ensures var fs := Run(Format(SampleDisk()).0, SampleEvents());
            var broken := fs.(dev := fs.dev.(faults := [true]));
            Format(SampleDisk()).1 && Sane(fs) && Sane(broken) && !Mount(broken).1 && !Safe(Mount(broken).0)
  {
    hide Format, Create, WriteFile, Safe, Clean, View, Mount, SuperOf, HasRoom, Apply;
    var fs1 := SampleFormatted();
    var fs2 := SampleCreated(fs1);
    var fs3 := SampleWritten(fs2);
    RunTwo(fs1, SampleEvents());
    LostSuperblock(fs3, SAMPLE_PATH);
  }

  lemma RunTwo(fs: Fs, events: seq<Event>)
    requires VolumeOk(fs) && |events| == 2 && forall k :: 0 <= k < |events| ==> EventOk(events[k])
    ensures Run(fs, events) == Step(Step(fs, events[0]), events[1])
  {
    hide Step;
    var fs1, rest := Step(fs, events[0]), events[1..];
    assert rest[0] == events[1] && rest[1..] == [];
    assert Run(fs1, rest) == Run(Step(fs1, rest[0]), []);
  }

  ghost predicate SampleOk(fs: Fs, made: nat)
  {
    && VolumeOk(fs) && Clean(fs) && fs.dev.ops && fs.dev.blockSize == 512 && fs.storage == 1048576 && fs.initrd == {}
    && fs.limit == MAX_ENTRIES && fs.nextInode <= DYNAMIC_INO_BASE + made && fs.nextData == DATA_OFFSET
  }

  lemma SampleFormatted() returns (fs: Fs)
    ensures fs == Format(SampleDisk()).0 && Format(SampleDisk()).1
    ensures SampleOk(fs, 0) && fs.entries[0] == EMPTY && View(fs, SAMPLE_PATH).None?
  {
    hide Clean, View, SyncAll, SyncSuper, Safe, SuperOf;
    var disk := SampleDisk();
    FormatIsClean(disk);
    fs := Format(disk).0;
  }

  lemma SampleCreated(fs: Fs) returns (fs1: Fs)
    requires SampleOk(fs, 0) && fs.entries[0] == EMPTY && View(fs, SAMPLE_PATH).None?
    ensures fs1 == Apply(fs, CreateOp(SAMPLE_PATH, 0, 0, 0)).0
    ensures SampleOk(fs1, 1) && View(fs1, SAMPLE_PATH).Some? && View(fs1, SAMPLE_PATH).value.kind == REGULAR
    ensures View(fs1, SAMPLE_PATH).value.data == []
  {
    hide Clean, View, Sync, Safe, SuperOf, Apply, EntryOk, Placed;
    var op := CreateOp(SAMPLE_PATH, 0, 0, 0);
    ApplyClean(fs, op);
    CreateRefines(fs, SAMPLE_PATH, 0, 0, 0);
    CreateSucceedsIff(fs, SAMPLE_PATH, 0, 0, 0);
    assert SlotFree(fs);
    assert Parent(SAMPLE_PATH) == [];
    fs1 := Create(fs, SAMPLE_PATH, 0, 0, 0).0;
    assert fs1 == Apply(fs, op).0 by { ApplyCreate(fs, SAMPLE_PATH, 0, 0, 0); }
  }

  lemma ApplyCreate(fs: Fs, p: Bytes, mode: nat, uid: nat, gid: nat)
    requires VolumeOk(fs) && uid < U32 && gid < U32 && 0 !in p
    ensures Apply(fs, CreateOp(p, mode, uid, gid)) == Create(fs, p, mode, uid, gid)
  {
    hide Create, VolumeOk;
  }

  lemma SampleWritten(fs: Fs) returns (fs1: Fs)
    requires SampleOk(fs, 1) && View(fs, SAMPLE_PATH).Some? && View(fs, SAMPLE_PATH).value.kind == REGULAR
    requires View(fs, SAMPLE_PATH).value.data == []
    ensures fs1 == Apply(fs, WriteOp(SAMPLE_PATH, 0, [1])).0
    ensures Sane(fs1) && fs1.dev.ops && fs1.dev.blockSize == 512
    ensures View(fs1, SAMPLE_PATH).Some? && View(fs1, SAMPLE_PATH).value.data != []
  {
    hide Clean, WriteFile, Safe, SuperOf, EntryOk, Placed, HasRoom, Apply;
    fs1 := WriteFile(fs, SAMPLE_PATH, 0, [1]).0;
    RoomSuffices(fs, Find(fs, SAMPLE_PATH), 1);
    WriteSucceedsIff(fs, SAMPLE_PATH, 0, [1]);
    WriteRefinesSplice(fs, SAMPLE_PATH, 0, [1]);
    WriteClean(fs, SAMPLE_PATH, 0, [1]);
    WriteFileFacts(fs, SAMPLE_PATH, 0, [1]);
    CleanIsCurrent(fs1);
    ApplyWrite(fs, SAMPLE_PATH, 0, [1]);
  }

  lemma ApplyWrite(fs: Fs, p: Bytes, offset: nat, data: Bytes)
    requires VolumeOk(fs) && 0 !in p
    ensures Apply(fs, WriteOp(p, offset, data)) == WriteFile(fs, p, offset, data)
  {
    hide WriteFile, VolumeOk;
  }

  /** Fault-free runs keep the volume clean. */
  lemma {:induction false} RunKeepsClean(fs: Fs, events: seq<Event>)
    requires Clean(fs) && (forall k :: 0 <= k < |events| ==> EventOk(events[k])) && fs.nextInode + |events| < U64
    ensures Clean(Run(fs, events))
    decreases |events|
  {
    hide Clean, Apply, Mount;
    if events != [] {
      var fs1 := Step(fs, events[0]);
      match events[0] {
        case Call(op) => ApplyClean(fs, op);
        case Remount => RemountAgrees(fs);
      }
      RunKeepsClean(fs1, events[1..]);
    }
  }

  /** Remount agreement: after any fault-free run, a mount rebuilds exactly the table the driver held, the rebuilt marks
      are beyond every live entry, and every path names the same file. */
  lemma RunThenRemount(fs: Fs, events: seq<Event>)
    requires Clean(fs) && (forall k :: 0 <= k < |events| ==> EventOk(events[k])) && fs.nextInode + |events| < U64
    ensures var before := Run(fs, events);
            var (after, ok) := Mount(before);
            && ok && after.entries == before.entries && Clean(after) && InodesBelow(after)
            && forall p :: View(after, p) == View(before, p)
  {
    hide Run, Mount;
    RunKeepsClean(fs, events);
    RemountAgrees(Run(fs, events));
  }

  predicate Spares(e: Event, q: Bytes)
  {
    e.Call? ==> e.op.path != q
  }

  /** A file that no operation of a fault-free run names survives it unchanged, remounts included. */
  lemma {:induction false} UntouchedFileSurvives(fs: Fs, events: seq<Event>, q: Bytes)
    requires Clean(fs) && (forall k :: 0 <= k < |events| ==> EventOk(events[k])) && fs.nextInode + |events| < U64
    requires forall k :: 0 <= k < |events| ==> Spares(events[k], q)
    ensures View(Run(fs, events), q) == View(fs, q)
    decreases |events|
  {
    hide Clean, Apply, Mount, View;
    if events != [] {
      var fs1 := Step(fs, events[0]);
      assert Spares(events[0], q);
      match events[0] {
        case Call(op) =>
          ApplyClean(fs, op);
          ApplyOthers(fs, op);
        case Remount => RemountAgrees(fs);
      }
      UntouchedFileSurvives(fs1, events[1..], q);
    }
  }

  /** What was written is read back, whatever happens to other paths in between. */
  lemma WrittenIsReadBack(fs: Fs, p: Bytes, offset: nat, data: Bytes, events: seq<Event>)
    requires Clean(fs) && 0 !in p && (forall k :: 0 <= k < |events| ==> EventOk(events[k]))
             && fs.nextInode + |events| + 1 < U64
    requires forall k :: 0 <= k < |events| ==> Spares(events[k], p)
    requires View(fs, p).Some? && offset <= |View(fs, p).value.data| && WriteFile(fs, p, offset, data).1
    ensures var later := Run(WriteFile(fs, p, offset, data).0, events);
            var (_, ok, bytes) := ReadFile(later, p, offset, |data|);
            ok && bytes == data
  {
    hide Clean, WriteFile, View, Run, ReadFile, Overlay, Placed, EntryOk;
    WriteRefinesSplice(fs, p, offset, data);
    WriteClean(fs, p, offset, data);
    var fs1 := WriteFile(fs, p, offset, data).0;
    UntouchedFileSurvives(fs1, events, p);
    RunKeepsClean(fs1, events);
    var later := Run(fs1, events);
    ReadReturnsView(later, p, offset, |data|);
    OverlayAt(View(fs, p).value.data, offset, data);
  }

  lemma WriteClean(fs: Fs, p: Bytes, offset: nat, data: Bytes)
    requires Clean(fs) && 0 !in p && fs.nextInode + 1 < U64
    ensures var fs1 := WriteFile(fs, p, offset, data).0; Clean(fs1) && fs1.nextInode <= fs.nextInode + 1
  {
    hide Clean, WriteFile;
    ApplyClean(fs, WriteOp(p, offset, data));
  }
}
