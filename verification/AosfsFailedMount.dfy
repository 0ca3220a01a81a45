/** What a mount that fails leaves behind. The kernel goes on using the instance, so its extents are safe exactly when
    every extent that is still on disk or in memory ends at or below the mark rebuilt so far. */
module AosfsFailedMount {
  import opened Blkdev
  import opened LittleEndian
  import opened AosfsFormat
  import opened Aosfs
  import opened AosfsExtents
  import opened AosfsSound
  import opened AosfsMount
  import opened AosfsRemount

  function Raise(mark: nat, e: Entry): (r: nat)
    ensures r >= mark
  {
    if e.capacity == 0 then mark else Max(mark, e.offset + e.capacity)
  }

  /** The mark after loading slots `i` to `k - 1`. */
  function Raised(fs: Fs, mark: nat, i: nat, k: nat): (r: nat)
    requires Mountable(fs.dev, fs.base, fs.storage) && i <= k <= MAX_ENTRIES
    ensures r >= mark
    decreases k - i
  {
    if i == k then mark else Raised(fs, Raise(mark, Loaded(fs, i)), i + 1, k)
  }

  /** What stopping at slot `k` leaves: the slots before it loaded, those after it empty, and the mark above the former.
      The slot itself holds nothing if it could not be read, and what a rejected entry leaves if it did not pass. */
  ghost predicate Stopped(fs: Fs, fs1: Fs, i: nat, k: nat)
    requires Mountable(fs.dev, fs.base, fs.storage) && i <= k < MAX_ENTRIES
  {
    && |fs1.entries| == MAX_ENTRIES && fs1.nextData == Raised(fs, fs.nextData, i, k)
    && (forall j {:trigger Loaded(fs, j)} :: i <= j < k ==> fs1.entries[j] == Loaded(fs, j) && LoadableAt(fs, j))
    && (fs1.entries[k] == EMPTY || (DiskEntry(fs, k).inUse && !LoadableAt(fs, k)
        && HeldOf(DiskEntry(fs, k), fs1.entries[k])))
  }

  /** A slot that was rejected is in use: as it was on disk, or cleared but for that if its kind is unknown. */
  predicate HeldOf(e: Entry, held: Entry)
  {
    e.inUse && (if e.kind > SYMLINK then held == EMPTY.(inUse := true) else EntryOk(e) && held == e)
  }

  lemma LoadOneStops(fs: Fs, i: nat, highest: nat)
    requires Mountable(fs.dev, fs.base, fs.storage) && EntriesOk(fs.entries) && i < MAX_ENTRIES
             && fs.entries[i] == EMPTY
    ensures var (fs1, ok, _) := LoadOne(fs, i, highest);
            if ok then fs1.nextData == Raise(fs.nextData, Loaded(fs, i)) else Stopped(fs, fs1, i, i)
  {
    hide Read, EntryOk, DecodeEntry;
    var at := fs.base + EntryAt(i);
    DecodedOk(fs.dev.bytes[at..at + ENTRY_SIZE]);
    DecodedEmpty(fs.dev.bytes[at..at + ENTRY_SIZE]);
  }

  /** The first table entry from `i` on that the device fails to read, or `count`. */
  function FirstUnread(d: Device, base: nat, storage: nat, i: nat, count: nat): (k: nat)
    requires Mountable(d, base, storage) && i <= count <= MAX_ENTRIES
    ensures i <= k <= count
    decreases count - i
  {
    if i == count then i
    else
      var (d1, ok, _) := Read(d, base + EntryAt(i), ENTRY_SIZE);
      if ok then FirstUnread(d1, base, storage, i + 1, count) else i
  }

  lemma LoadOneReads(fs: Fs, i: nat, highest: nat)
    requires Mountable(fs.dev, fs.base, fs.storage) && EntriesOk(fs.entries) && i < MAX_ENTRIES && LoadableAt(fs, i)
    ensures var (d, ok, _) := Read(fs.dev, fs.base + EntryAt(i), ENTRY_SIZE);
            LoadOne(fs, i, highest).1 == ok && LoadOne(fs, i, highest).0.dev == d
  {
    hide Read, EntryOk, DecodeEntry;
  }

  /** Loading a table of valid entries stops exactly where the device does. */
  lemma {:induction false} LoadAllReads(fs: Fs, i: nat, count: nat, highest: nat)
    requires Mountable(fs.dev, fs.base, fs.storage) && EntriesOk(fs.entries) && i <= count <= MAX_ENTRIES
    requires (forall j {:trigger LoadableAt(fs, j)} :: i <= j < count ==> LoadableAt(fs, j))
    ensures LoadAll(fs, i, count, false, highest).1 <==> FirstUnread(fs.dev, fs.base, fs.storage, i, count) == count
    decreases count - i
  {
    hide LoadAll, LoadOne, EntryOk, LoadableAt, DiskEntry, Read;
    LoadUnfold(fs, i, count, false, highest);
    if i < count {
      assert LoadableAt(fs, i);
      LoadOneReads(fs, i, highest);
      var (fs1, ok, h) := LoadOne(fs, i, highest);
      if ok {
        SameTable(fs, fs1);
        LoadAllReads(fs1, i + 1, count, h);
      }
    }
  }

  lemma {:induction false} LoadAllStops(fs: Fs, i: nat, count: nat, highest: nat) returns (k: nat)
    requires Mountable(fs.dev, fs.base, fs.storage) && EntriesOk(fs.entries) && i <= count <= MAX_ENTRIES
    requires (forall j :: i <= j < count ==> fs.entries[j] == EMPTY) && !LoadAll(fs, i, count, false, highest).1
    ensures i <= k < count && Stopped(fs, LoadAll(fs, i, count, false, highest).0, i, k)
    ensures (forall j {:trigger LoadableAt(fs, j)} :: i <= j < count ==> LoadableAt(fs, j)) ==>
              k == FirstUnread(fs.dev, fs.base, fs.storage, i, count)
    ensures forall j :: k < j < count ==> LoadAll(fs, i, count, false, highest).0.entries[j] == EMPTY
    decreases count - i
  {
    hide LoadAll, LoadOne, EntryOk, Loaded, LoadableAt, DiskEntry, Stopped, Raise, Read;
    LoadUnfold(fs, i, count, false, highest);
    LoadOneStops(fs, i, highest);
    LoadOneFacts(fs, i, highest);
    var (fs1, ok, h) := LoadOne(fs, i, highest);
    if LoadableAt(fs, i) {
      LoadOneReads(fs, i, highest);
    }
    if ok {
      SameTable(fs, fs1);
      k := LoadAllStops(fs1, i + 1, count, h);
      StoppedCons(fs, fs1, LoadAll(fs1, i + 1, count, false, h).0, i, k);
    } else {
      k := i;
    }
  }

  lemma StoppedCons(fs: Fs, fs1: Fs, fs2: Fs, i: nat, k: nat)
    requires Mountable(fs.dev, fs.base, fs.storage) && Mountable(fs1.dev, fs1.base, fs1.storage) && i < k < MAX_ENTRIES
    requires fs1.base == fs.base && fs1.storage == fs.storage && fs1.dev == fs.dev.(faults := fs1.dev.faults)
    requires fs1.nextData == Raise(fs.nextData, Loaded(fs, i)) && LoadableAt(fs, i)
    requires Stopped(fs1, fs2, i + 1, k) && fs2.entries[i] == Loaded(fs, i)
    ensures Stopped(fs, fs2, i, k)
  {
    hide Loaded, LoadableAt, DiskEntry, Raise, Placed, HeldOf;
    SameTable(fs, fs1);
    SameDisk(fs, fs1);
    SameRaised(fs, fs1, fs1.nextData, i + 1, k);
    forall j | i <= j < k ensures fs2.entries[j] == Loaded(fs, j) && LoadableAt(fs, j) {
      if j > i {
        assert Loaded(fs1, j) == Loaded(fs, j) && LoadableAt(fs1, j) == LoadableAt(fs, j);
      }
    }
    assert LoadableAt(fs1, k) == LoadableAt(fs, k);
  }

  lemma {:induction false} SameRaised(fs: Fs, fs1: Fs, mark: nat, i: nat, k: nat)
    requires Mountable(fs.dev, fs.base, fs.storage) && i <= k <= MAX_ENTRIES && fs1.base == fs.base
    requires fs1.storage == fs.storage && fs1.dev == fs.dev.(faults := fs1.dev.faults)
    ensures Raised(fs1, mark, i, k) == Raised(fs, mark, i, k)
    decreases k - i
  {
    hide DecodeEntry;
    if i < k {
      assert Loaded(fs1, i) == Loaded(fs, i);
      SameRaised(fs, fs1, Raise(mark, Loaded(fs, i)), i + 1, k);
    }
  }

  lemma {:induction false} RaisedCovers(fs: Fs, mark: nat, i: nat, k: nat)
    requires Mountable(fs.dev, fs.base, fs.storage) && i <= k <= MAX_ENTRIES && mark <= fs.storage
    requires forall j {:trigger LoadableAt(fs, j)} :: i <= j < k ==> LoadableAt(fs, j)
    ensures Raised(fs, mark, i, k) <= fs.storage
    ensures forall j {:trigger Loaded(fs, j)} :: i <= j < k && Loaded(fs, j).capacity != 0 ==>
              Loaded(fs, j).offset + Loaded(fs, j).capacity <= Raised(fs, mark, i, k)
    decreases k - i
  {
    hide DiskEntry;
    if i < k {
      assert LoadableAt(fs, i);
      LoadedEnd(fs, i);
      RaisedCovers(fs, Raise(mark, Loaded(fs, i)), i + 1, k);
    }
  }

  lemma LoadedEnd(fs: Fs, j: nat)
    requires Mountable(fs.dev, fs.base, fs.storage) && j < MAX_ENTRIES && LoadableAt(fs, j)
    ensures Loaded(fs, j).capacity != 0 ==> Loaded(fs, j).offset + Loaded(fs, j).capacity <= fs.storage
  {
    hide DecodeEntry;
    var at := fs.base + EntryAt(j);
    DecodedEmpty(fs.dev.bytes[at..at + ENTRY_SIZE]);
  }

  // Failed mounts of sane volumes

  /** The superblock could not be read: the table in memory stays, but the marks and the limit are those of an empty
      volume. */
  ghost predicate Forgotten(fs: Fs, fs1: Fs)
  {
    fs1.entries == fs.entries && fs1.limit == MAX_ENTRIES && fs1.nextData == DATA_OFFSET
  }

  /** Entry `k` could not be read: memory holds the entries before it, and the mark is above those only. */
  ghost predicate HalfLoaded(fs: Fs, fs1: Fs, k: nat)
    requires Mountable(fs.dev, fs.base, fs.storage) && SuperOf(fs).maxEntries <= MAX_ENTRIES
  {
    && k < fs1.limit == SuperOf(fs).maxEntries && |fs1.entries| == MAX_ENTRIES
    && fs1.nextData == Raised(fs, DATA_OFFSET, 0, k)
    && forall j :: 0 <= j < MAX_ENTRIES ==> fs1.entries[j] == if j < k then DiskEntry(fs, j) else EMPTY
  }

  /** What a failed mount of any version 4 table leaves: the old table if the superblock could not be read, and
      otherwise the entries before the one it stopped at, with what a rejected entry leaves in its slot. */
  lemma StoppedMountLeaves(fs: Fs)
    requires Current(fs) && !Mount(fs).1
    ensures SuperOf(fs).maxEntries <= MAX_ENTRIES
    ensures var (fs1, (d, ok, _)) := (Mount(fs).0, Read(fs.dev, fs.base, SUPER_SIZE));
            if !ok then Forgotten(fs, fs1)
            else
              && fs1.limit == SuperOf(fs).maxEntries && |fs1.entries| == MAX_ENTRIES
              && exists k {:trigger Stopped(Blank(fs, d), fs1, 0, k)} ::
                   && 0 <= k < fs1.limit && Stopped(Blank(fs, d), fs1, 0, k)
                   && forall j :: k < j < MAX_ENTRIES ==> fs1.entries[j] == EMPTY
  {
    hide Read, LoadAll, DiskEntry, EntryOk, SuperOf, Mount, Raised, Stopped;
    MountIsLoad(fs);
    var (d, ok, _) := Read(fs.dev, fs.base, SUPER_SIZE);
    if ok {
      var fs0 := Blank(fs, d);
      BlankOk(fs, d);
      var k := LoadAllStops(fs0, 0, fs0.limit, DYNAMIC_INO_BASE - 1);
    }
  }

  /** Where the reads of a mount stop: at the number of entries if none fails. */
  function StopsAt(fs: Fs): (k: nat)
    requires Mountable(fs.dev, fs.base, fs.storage) && SuperOf(fs).maxEntries <= MAX_ENTRIES
  {
    FirstUnread(Read(fs.dev, fs.base, SUPER_SIZE).0, fs.base, fs.storage, 0, SuperOf(fs).maxEntries)
  }

  lemma SaneLoadable(fs: Fs, fs0: Fs)
    requires Sane(fs) && fs0.base == fs.base && fs0.storage == fs.storage
    requires fs0.dev == fs.dev.(faults := fs0.dev.faults) && SuperOf(fs).maxEntries <= MAX_ENTRIES
    ensures forall j {:trigger LoadableAt(fs0, j)} :: 0 <= j < SuperOf(fs).maxEntries ==> LoadableAt(fs0, j)
  {
    hide DiskEntry, EntryOk, Safe, SuperOf, LoadableAt, Loaded;
    SameTable(fs, fs0);
    forall j | 0 <= j < SuperOf(fs).maxEntries ensures LoadableAt(fs0, j) {
      KeptWhole(fs, j);
    }
  }

  /** A sane volume mounts exactly when the superblock and every entry can be read. */
  lemma SaneMountsIff(fs: Fs)
    requires Sane(fs)
    ensures Current(fs) && SuperOf(fs).maxEntries <= MAX_ENTRIES
    ensures Mount(fs).1 <==> Read(fs.dev, fs.base, SUPER_SIZE).1 && StopsAt(fs) == SuperOf(fs).maxEntries
  {
    hide Read, LoadAll, DiskEntry, EntryOk, Safe, SuperOf, Mount, FirstUnread, Current;
    SaneIsCurrent(fs);
    MountIsLoad(fs);
    var (d, ok, _) := Read(fs.dev, fs.base, SUPER_SIZE);
    if ok {
      var fs0 := Blank(fs, d);
      BlankOk(fs, d);
      SaneLoadable(fs, fs0);
      LoadAllReads(fs0, 0, fs0.limit, DYNAMIC_INO_BASE - 1);
    }
  }

  /** What a failed mount of a sane volume leaves, exactly. */
  lemma FailedMountLeaves(fs: Fs)
    requires Sane(fs) && !Mount(fs).1
    ensures SuperOf(fs).maxEntries <= MAX_ENTRIES
    ensures var fs1 := Mount(fs).0;
            if Read(fs.dev, fs.base, SUPER_SIZE).1 then HalfLoaded(fs, fs1, StopsAt(fs)) else Forgotten(fs, fs1)
  {
    hide Read, LoadAll, DiskEntry, EntryOk, Safe, SuperOf, Mount, Raised, Stopped, FirstUnread;
    SaneIsCurrent(fs);
    MountIsLoad(fs);
    var (d, ok, _) := Read(fs.dev, fs.base, SUPER_SIZE);
    if ok {
      var fs0 := Blank(fs, d);
      BlankOk(fs, d);
      SaneLoadable(fs, fs0);
      var k := LoadAllStops(fs0, 0, fs0.limit, DYNAMIC_INO_BASE - 1);
      StoppedIsHalf(fs, fs0, Mount(fs).0, k);
    }
  }

  lemma StoppedIsHalf(fs: Fs, fs0: Fs, fs1: Fs, k: nat)
    requires Sane(fs) && Mountable(fs0.dev, fs0.base, fs0.storage) && fs0.base == fs.base && fs0.storage == fs.storage
    requires fs0.dev == fs.dev.(faults := fs0.dev.faults) && fs0.nextData == DATA_OFFSET
    requires k < fs1.limit == SuperOf(fs).maxEntries && k < MAX_ENTRIES && Stopped(fs0, fs1, 0, k)
    requires forall j :: k < j < MAX_ENTRIES ==> fs1.entries[j] == EMPTY
    ensures HalfLoaded(fs, fs1, k)
  {
    hide DiskEntry, EntryOk, Safe, SuperOf, Placed, Loaded, LoadableAt, HeldOf;
    SameTable(fs, fs0);
    SameRaised(fs, fs0, DATA_OFFSET, 0, k);
    forall j | 0 <= j < k ensures fs1.entries[j] == DiskEntry(fs, j) {
      KeptWhole(fs, j);
      assert Loaded(fs0, j) == Loaded(fs, j);
    }
    KeptWhole(fs, k);
    assert LoadableAt(fs0, k) == LoadableAt(fs, k);
  }

  /** Every extent, in memory or on disk, ends at or below the mark; and slots that the table has only now, because a
      volume of 1024 entries is taken for one of 2000, hold no extent. */
  ghost predicate Covered(fs: Fs, fs1: Fs)
    requires VolumeOk(fs) && VolumeOk(fs1)
  {
    && (forall w, j {:trigger Slot(fs1, w, j)} :: 0 <= j < fs1.limit && Slot(fs1, w, j).capacity != 0 ==>
          Slot(fs1, w, j).offset + Slot(fs1, w, j).capacity <= fs1.nextData)
    && (forall j :: fs.limit <= j < fs1.limit ==> ExtentOk(DiskEntry(fs, j), DATA_OFFSET))
  }

  lemma MountKeepsVolume(fs: Fs)
    requires VolumeOk(fs)
    ensures Placed(fs.dev, fs.base, fs.storage) && |fs.entries| == MAX_ENTRIES && fs.nextInode < U64
            && VolumeOk(Mount(fs).0)
  {
    hide Mount;
  }

  lemma FailedMountCovered(fs: Fs)
    requires Sane(fs) && !Mount(fs).1
    ensures VolumeOk(Mount(fs).0) && (Safe(Mount(fs).0) <==> Covered(fs, Mount(fs).0))
  {
    hide Mount, Safe, Covered, DiskEntry, SuperOf, VolumeOk, Read, HalfLoaded, Forgotten, StopsAt;
    MountKeepsVolume(fs);
    var fs1 := Mount(fs).0;
    MountIsSafe(fs);
    SaneIsCurrent(fs);
    MountKeepsPlace(fs);
    FailedMountLeaves(fs);
    if Safe(fs1) {
      FailedMountLimit(fs);
      SafeIsCovered(fs, fs1);
    }
    if Covered(fs, fs1) {
      if Read(fs.dev, fs.base, SUPER_SIZE).1 {
        HalfLoadedSafe(fs, fs1, StopsAt(fs));
      } else {
        ForgottenSafe(fs, fs1);
      }
    }
  }

  /** Neither memory nor disk names an extent. */
  ghost predicate NoExtents(fs: Fs)
    requires VolumeOk(fs)
  {
    forall w, j {:trigger Slot(fs, w, j)} :: 0 <= j < MAX_ENTRIES ==> ExtentOk(Slot(fs, w, j), DATA_OFFSET)
  }

  /** The extents on disk from slot `k` on end at or below what those before it reach. */
  ghost predicate RestBelow(fs: Fs, k: nat)
    requires VolumeOk(fs) && SuperOf(fs).maxEntries <= MAX_ENTRIES && k <= MAX_ENTRIES
  {
    forall j {:trigger DiskEntry(fs, j)} :: k <= j < SuperOf(fs).maxEntries && DiskEntry(fs, j).capacity != 0 ==>
      DiskEntry(fs, j).offset + DiskEntry(fs, j).capacity <= Raised(fs, DATA_OFFSET, 0, k)
  }

  /** Mounting now does no harm: the superblock can be read, or there is no extent to lose; and no extent from the first
      entry on that cannot be read reaches beyond those before it. */
  ghost predicate Harmless(fs: Fs)
    requires VolumeOk(fs) && SuperOf(fs).maxEntries <= MAX_ENTRIES
  {
    if Read(fs.dev, fs.base, SUPER_SIZE).1 then RestBelow(fs, StopsAt(fs)) else NoExtents(fs)
  }

  lemma ForgottenCoveredIff(fs: Fs, fs1: Fs)
    requires Sane(fs) && VolumeOk(fs1) && fs1.base == fs.base && fs1.storage == fs.storage
    requires fs1.dev == fs.dev.(faults := fs1.dev.faults) && Forgotten(fs, fs1)
    ensures Covered(fs, fs1) <==> NoExtents(fs)
  {
    hide DiskEntry, EntryOk, Placed, SuperOf;
    SameDisk(fs, fs1);
    if Covered(fs, fs1) {
      forall w, j | 0 <= j < MAX_ENTRIES ensures ExtentOk(Slot(fs, w, j), DATA_OFFSET) {
        assert Slot(fs1, w, j) == Slot(fs, w, j);
        if j < fs.limit {
          assert ExtentOk(Slot(fs, w, j), fs.nextData);
        }
      }
    }
    if NoExtents(fs) {
      forall w, j | 0 <= j < fs1.limit ensures Slot(fs1, w, j).capacity == 0 {
        assert ExtentOk(Slot(fs, w, j), DATA_OFFSET);
      }
      forall j | fs.limit <= j < fs1.limit ensures ExtentOk(DiskEntry(fs, j), DATA_OFFSET) {
        assert ExtentOk(Slot(fs, true, j), DATA_OFFSET);
      }
    }
  }

  lemma HalfCoveredIff(fs: Fs, fs1: Fs, k: nat)
    requires Sane(fs) && VolumeOk(fs1) && fs1.base == fs.base && fs1.storage == fs.storage
    requires fs1.dev == fs.dev.(faults := fs1.dev.faults) && SuperOf(fs).maxEntries <= MAX_ENTRIES
    requires HalfLoaded(fs, fs1, k)
    ensures Covered(fs, fs1) <==> RestBelow(fs, k)
  {
    hide DiskEntry, EntryOk, Placed, SuperOf, Safe, Raised, Loaded, LoadableAt;
    SameDisk(fs, fs1);
    forall j | 0 <= j < k ensures LoadableAt(fs, j) && Loaded(fs, j) == DiskEntry(fs, j) {
      KeptWhole(fs, j);
    }
    RaisedCovers(fs, DATA_OFFSET, 0, k);
    if Covered(fs, fs1) {
      forall j | k <= j < fs1.limit && DiskEntry(fs, j).capacity != 0
        ensures DiskEntry(fs, j).offset + DiskEntry(fs, j).capacity <= fs1.nextData
      {
        assert Slot(fs1, true, j) == DiskEntry(fs, j);
      }
    }
    if RestBelow(fs, k) {
      forall w, j | 0 <= j < fs1.limit && Slot(fs1, w, j).capacity != 0
        ensures Slot(fs1, w, j).offset + Slot(fs1, w, j).capacity <= fs1.nextData
      {
        assert DiskEntry(fs1, j) == DiskEntry(fs, j);
        if j < k {
          assert Loaded(fs, j) == DiskEntry(fs, j);
        }
      }
    }
  }

  /** A failed mount of a sane volume leaves it safe exactly if mounting it was harmless. */
  lemma FailedMountSafeIff(fs: Fs)
    requires Sane(fs) && !Mount(fs).1
    ensures SuperOf(fs).maxEntries <= MAX_ENTRIES && (Safe(Mount(fs).0) <==> Harmless(fs))
  {
    hide Mount, Safe, Covered, DiskEntry, SuperOf, VolumeOk, Read, HalfLoaded, Forgotten, StopsAt, RestBelow, NoExtents;
    FailedMountCovered(fs);
    FailedMountLeaves(fs);
    MountIsSafe(fs);
    SaneIsCurrent(fs);
    MountKeepsPlace(fs);
    if Read(fs.dev, fs.base, SUPER_SIZE).1 {
      HalfCoveredIff(fs, Mount(fs).0, StopsAt(fs));
    } else {
      ForgottenCoveredIff(fs, Mount(fs).0);
    }
  }

  lemma FailedMountLimit(fs: Fs)
    requires Sane(fs) && !Mount(fs).1
    ensures Mount(fs).0.limit <= fs.limit || Mount(fs).0.nextData == DATA_OFFSET
  {
    hide Mount, Safe, DiskEntry, SuperOf, VolumeOk, Read, Raised;
    FailedMountLeaves(fs);
  }

  lemma SafeIsCovered(fs: Fs, fs1: Fs)
    requires Sane(fs) && Safe(fs1) && fs1.base == fs.base && fs1.storage == fs.storage
    requires fs1.dev == fs.dev.(faults := fs1.dev.faults)
    requires fs1.limit <= fs.limit || fs1.nextData == DATA_OFFSET
    ensures Covered(fs, fs1)
  {
    hide DiskEntry, EntryOk, Placed, SuperOf;
    SameDisk(fs, fs1);
    forall w, j | 0 <= j < fs1.limit && Slot(fs1, w, j).capacity != 0
      ensures Slot(fs1, w, j).offset + Slot(fs1, w, j).capacity <= fs1.nextData
    {
      assert ExtentOk(Slot(fs1, w, j), fs1.nextData);
    }
    forall j | fs.limit <= j < fs1.limit ensures ExtentOk(DiskEntry(fs, j), DATA_OFFSET) {
      assert ExtentOk(Slot(fs1, true, j), fs1.nextData);
    }
  }

  /** Slots of the new table are slots of the old one, empty, or without an extent. */
  ghost predicate FromOld(fs: Fs, fs1: Fs)
    requires VolumeOk(fs) && VolumeOk(fs1)
  {
    forall w, j {:trigger Slot(fs1, w, j)} :: 0 <= j < fs1.limit ==>
      || (j < fs.limit && (Slot(fs1, w, j) == Slot(fs, w, j) || Slot(fs1, w, j) == Slot(fs, true, j)))
      || (Slot(fs1, w, j).capacity == 0 && ExtentOk(Slot(fs1, w, j), DATA_OFFSET))
  }

  lemma FromOldSafe(fs: Fs, fs1: Fs)
    requires Safe(fs) && VolumeOk(fs1) && FromOld(fs, fs1) && Covered(fs, fs1)
    requires DATA_OFFSET <= fs1.nextData <= fs1.storage
    ensures Safe(fs1)
  {
    hide DiskEntry, EntryOk, Placed, Slot;
    forall w, j | 0 <= j < fs1.limit ensures ExtentOk(Slot(fs1, w, j), fs1.nextData) {
      if j < fs.limit {
        assert ExtentOk(Slot(fs, w, j), fs.nextData) && ExtentOk(Slot(fs, true, j), fs.nextData);
      }
    }
    forall w, v, i, j | 0 <= i < fs1.limit && 0 <= j < fs1.limit && i != j
        ensures Apart(Slot(fs1, w, i), Slot(fs1, v, j)) {
      FromOldApart(fs, fs1, w, v, i, j);
    }
  }

  lemma FromOldApart(fs: Fs, fs1: Fs, w: bool, v: bool, i: nat, j: nat)
    requires Safe(fs) && VolumeOk(fs1) && FromOld(fs, fs1) && i < fs1.limit && j < fs1.limit && i != j
    ensures Apart(Slot(fs1, w, i), Slot(fs1, v, j))
  {
    hide DiskEntry, EntryOk, Placed, Slot;
    var a, b := Slot(fs1, w, i), Slot(fs1, v, j);
    if a.capacity != 0 && b.capacity != 0 {
      assert Apart(Slot(fs, w, i), Slot(fs, v, j)) && Apart(Slot(fs, w, i), Slot(fs, true, j));
      assert Apart(Slot(fs, true, i), Slot(fs, v, j)) && Apart(Slot(fs, true, i), Slot(fs, true, j));
    }
  }

  lemma EmptyExtent()
    ensures EMPTY.capacity == 0 && ExtentOk(EMPTY, DATA_OFFSET)
  {
  }

  lemma HalfLoadedSafe(fs: Fs, fs1: Fs, k: nat)
    requires Sane(fs) && VolumeOk(fs1) && fs1.base == fs.base && fs1.storage == fs.storage
    requires fs1.dev == fs.dev.(faults := fs1.dev.faults) && SuperOf(fs).maxEntries <= MAX_ENTRIES
    requires HalfLoaded(fs, fs1, k) && Covered(fs, fs1)
    ensures Safe(fs1)
  {
    hide DiskEntry, EntryOk, Placed, SuperOf, Safe, Covered, Raised, ExtentOk;
    SameDisk(fs, fs1);
    EmptyExtent();
    forall j | 0 <= j < k ensures LoadableAt(fs, j) {
      KeptWhole(fs, j);
    }
    RaisedCovers(fs, DATA_OFFSET, 0, k);
    FromOldSafe(fs, fs1);
  }

  lemma ForgottenSafe(fs: Fs, fs1: Fs)
    requires Sane(fs) && VolumeOk(fs1) && fs1.base == fs.base && fs1.storage == fs.storage
    requires fs1.dev == fs.dev.(faults := fs1.dev.faults)
    requires Forgotten(fs, fs1) && Covered(fs, fs1)
    ensures Safe(fs1)
  {
    hide DiskEntry, EntryOk, Placed, SuperOf, Safe, ExtentOk;
    SameDisk(fs, fs1);
    EmptyExtent();
    forall w, j | 0 <= j < fs1.limit && j >= fs.limit
      ensures Slot(fs1, w, j).capacity == 0 && ExtentOk(Slot(fs1, w, j), DATA_OFFSET)
    {
      NoRoomBelow(DiskEntry(fs, j));
    }
    FromOldSafe(fs, fs1);
  }

  lemma NoRoomBelow(e: Entry)
    ensures ExtentOk(e, DATA_OFFSET) ==> e.capacity == 0
  {
  }
}
