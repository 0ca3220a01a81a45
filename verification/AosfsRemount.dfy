/** Formatting gives a clean volume, and mounting one rebuilds exactly what was there. */
module AosfsRemount {
  import opened Blkdev
  import opened LittleEndian
  import opened AosfsFormat
  import opened Aosfs
  import opened AosfsExtents
  import opened AosfsViews
  import opened AosfsSound
  import opened AosfsMount

  // Writing whole tables

  lemma SyncAllUnfold(fs: Fs, i: nat)
    requires VolumeOk(fs) && i <= MAX_ENTRIES
    ensures i == MAX_ENTRIES ==> SyncAll(fs, i) == (fs, true)
    ensures i < MAX_ENTRIES ==> SyncAll(fs, i) == var (fs1, ok) := Sync(fs, i);
            if !ok then (fs1, false) else SyncAll(fs1, i + 1)
  {
    hide Sync, VolumeOk;
  }

  lemma {:induction false} SyncAllFacts(fs: Fs, i: nat)
    requires VolumeOk(fs) && i <= MAX_ENTRIES && fs.limit == MAX_ENTRIES
    ensures var (fs1, ok) := SyncAll(fs, i);
            && SameOutside(fs.dev, fs1.dev, fs.base + TABLE_OFFSET, fs.base + DATA_OFFSET)
            && (forall j :: 0 <= j < i ==> DiskEntry(fs1, j) == DiskEntry(fs, j))
            && (ok ==> forall j :: i <= j < MAX_ENTRIES ==> DiskEntry(fs1, j) == fs.entries[j])
            && (Healthy(fs.dev) ==> ok && Healthy(fs1.dev))
    decreases MAX_ENTRIES - i
  {
    hide SyncAll, Sync, DiskEntry, EntryOk, Healthy;
    SyncAllUnfold(fs, i);
    if i < MAX_ENTRIES {
      var (fs1, ok) := Sync(fs, i);
      SyncFacts(fs, i);
      if Healthy(fs.dev) {
        HealthySync(fs, i);
      }
      if ok {
        SyncAllFacts(fs1, i + 1);
      }
    }
  }

  lemma SyncSuperFacts(fs: Fs)
    requires Mountable(fs.dev, fs.base, fs.storage)
    ensures var (fs1, ok) := SyncSuper(fs);
            && SameOutside(fs.dev, fs1.dev, fs.base, fs.base + SUPER_SIZE)
            && (ok ==> SuperOf(fs1) == FRESH_SUPER)
            && (Healthy(fs.dev) ==> ok && Healthy(fs1.dev))
  {
    hide EncodeSuper, DecodeSuper, Write, Healthy;
    var b := EncodeSuper(FRESH_SUPER);
    WriteOutside(fs.dev, fs.base, b);
    SuperRoundTrip();
    if Healthy(fs.dev) {
      HealthyWrite(fs.dev, fs.base, b);
    }
  }

  lemma SuperKept(fs: Fs, fs': Fs, lo: nat, hi: nat)
    requires Mountable(fs.dev, fs.base, fs.storage) && Mountable(fs'.dev, fs'.base, fs'.storage) && fs'.base == fs.base
    requires SameOutside(fs.dev, fs'.dev, lo, hi) && lo >= fs.base + SUPER_SIZE
    ensures SuperOf(fs') == SuperOf(fs)
  {
    hide DecodeSuper;
    SameSlice(fs.dev, fs'.dev, lo, hi, fs.base, SUPER_SIZE);
  }

  lemma TableKept(fs: Fs, fs': Fs, lo: nat, hi: nat)
    requires Mountable(fs.dev, fs.base, fs.storage) && Mountable(fs'.dev, fs'.base, fs'.storage) && fs'.base == fs.base
    requires SameOutside(fs.dev, fs'.dev, lo, hi) && hi <= fs.base + TABLE_OFFSET
    ensures forall j :: 0 <= j < MAX_ENTRIES ==> DiskEntry(fs', j) == DiskEntry(fs, j)
  {
    hide DecodeEntry;
    forall j | 0 <= j < MAX_ENTRIES ensures DiskEntry(fs', j) == DiskEntry(fs, j) {
      SameSlice(fs.dev, fs'.dev, lo, hi, fs.base + EntryAt(j), ENTRY_SIZE);
    }
  }

  /** Every slot is the same in memory and on disk, and memory's extents are fine: then so is the volume. */
  lemma SafeFromMemory(fs: Fs)
    requires VolumeOk(fs) && DATA_OFFSET <= fs.nextData <= fs.storage
    requires forall i :: 0 <= i < fs.limit ==> DiskEntry(fs, i) == fs.entries[i] && ExtentOk(fs.entries[i], fs.nextData)
    requires forall i, j {:trigger fs.entries[i], fs.entries[j]} :: 0 <= i < fs.limit && 0 <= j < fs.limit && i != j ==>
               Apart(fs.entries[i], fs.entries[j])
    ensures Safe(fs)
  {
    hide DiskEntry, EntryOk, Mountable;
  }

  lemma EmptyIsSafe(fs: Fs)
    requires VolumeOk(fs) && fs.limit == MAX_ENTRIES && fs.nextData == DATA_OFFSET && fs.entries == NoEntries()
    requires forall i :: 0 <= i < fs.limit ==> DiskEntry(fs, i) == EMPTY
    ensures Safe(fs)
  {
    hide DiskEntry, Placed;
    SafeFromMemory(fs);
  }

  lemma EmptyIsClean(fs: Fs)
    requires Safe(fs) && fs.limit == MAX_ENTRIES && fs.entries == NoEntries() && fs.nextInode == DYNAMIC_INO_BASE
    requires Healthy(fs.dev) && SuperOf(fs) == FRESH_SUPER
    requires forall i :: 0 <= i < fs.limit ==> DiskEntry(fs, i) == EMPTY
    ensures Clean(fs)
  {
    hide DiskEntry, Placed, Safe, Healthy, EntryOk, DecodeSuper;
    SuperRoundTrip();
  }

  lemma EmptyView(fs: Fs, p: Bytes)
    requires VolumeOk(fs) && fs.entries == NoEntries()
    ensures View(fs, p).None?
  {
    hide EntryOk, Placed;
    assert forall i :: 0 <= i < fs.limit ==> !Named(fs.entries[i], p);
    FindIs(fs, p, fs.limit);
  }

  /** A format that reports success leaves an empty volume with safe extents; a healthy device makes it succeed, and the
      volume is then clean. */
  lemma FormatIsClean(fs: Fs)
    requires Placed(fs.dev, fs.base, fs.storage)
    ensures var (fs1, ok) := Format(fs);
            && (ok ==>
                Safe(fs1) && SuperOf(fs1) == FRESH_SUPER && fs1.limit == MAX_ENTRIES && forall p :: View(fs1, p).None?)
            && (Healthy(fs.dev) ==> (ok <==> DATA_OFFSET <= fs.storage))
            && (Healthy(fs.dev) && ok ==> Clean(fs1))
  {
    hide SyncSuper, SyncAll, DiskEntry, Healthy, Safe, Clean, View, DecodeSuper;
    if DATA_OFFSET <= fs.storage {
      var fs0 := fs.(entries := NoEntries(), limit := MAX_ENTRIES, nextInode := DYNAMIC_INO_BASE,
          nextData := DATA_OFFSET);
      var (fs1, ok1) := SyncSuper(fs0);
      assert VolumeOk(fs0);
      SyncSuperFacts(fs0);
      if ok1 {
        FormatTable(fs1);
      }
    }
  }

  lemma FormatTable(fs: Fs)
    requires VolumeOk(fs) && SuperOf(fs) == FRESH_SUPER && fs.limit == MAX_ENTRIES && fs.nextData == DATA_OFFSET
    requires fs.entries == NoEntries() && fs.nextInode == DYNAMIC_INO_BASE
    ensures var (fs1, ok) := SyncAll(fs, 0);
            && (ok ==> Safe(fs1) && SuperOf(fs1) == FRESH_SUPER && forall p :: View(fs1, p).None?)
            && (Healthy(fs.dev) ==> ok && Clean(fs1))
  {
    hide SyncAll, DiskEntry, Healthy, Safe, Placed, EntryOk, SuperOf, View, Clean;
    var (fs1, ok) := SyncAll(fs, 0);
    SyncAllFacts(fs, 0);
    if ok {
      EmptyIsSafe(fs1);
      SuperKept(fs, fs1, fs.base + TABLE_OFFSET, fs.base + DATA_OFFSET);
      forall p ensures View(fs1, p).None? {
        EmptyView(fs1, p);
      }
      if Healthy(fs.dev) {
        EmptyIsClean(fs1);
      }
    }
  }

  /** A device without a known superblock is taken for a new volume: a mount that reports success leaves it empty and
      safe, and on a healthy device it succeeds and leaves it clean. */
  lemma MountOfUnknown(fs: Fs)
    requires Mountable(fs.dev, fs.base, fs.storage) && |fs.entries| == MAX_ENTRIES && fs.nextInode < U64
    requires !SuperValid(SuperOf(fs)) && !LegacySuperValid(SuperOf(fs))
    ensures var (fs1, ok) := Mount(fs);
            && (ok ==>
                Safe(fs1) && SuperOf(fs1) == FRESH_SUPER && fs1.limit == MAX_ENTRIES && forall p :: View(fs1, p).None?)
            && (Healthy(fs.dev) ==> ok && Clean(fs1))
  {
    hide Read, Initialise, DecodeSuper, Safe, Clean, View, Healthy, EntryOk;
    var (d, ok, b) := Read(fs.dev, fs.base, SUPER_SIZE);
    if Healthy(fs.dev) {
      HealthyRead(fs.dev, fs.base, SUPER_SIZE);
    }
    if ok {
      var fs0 := fs.(dev := d, entries := NoEntries(), limit := MAX_ENTRIES, nextData := DATA_OFFSET);
      assert VolumeOk(fs0) by { BlankVolume(fs0); }
      InitialiseIsClean(fs0);
    }
  }

  lemma BlankVolume(fs: Fs)
    requires Mountable(fs.dev, fs.base, fs.storage) && fs.nextInode < U64 && fs.entries == NoEntries()
             && fs.limit <= MAX_ENTRIES
    ensures VolumeOk(fs)
  {
  }

  lemma InitialiseIsClean(fs: Fs)
    requires VolumeOk(fs) && fs.limit == MAX_ENTRIES && fs.entries == NoEntries() && fs.nextData == DATA_OFFSET
    ensures var (fs1, ok) := Initialise(fs);
            && (ok ==>
                Safe(fs1) && SuperOf(fs1) == FRESH_SUPER && fs1.limit == MAX_ENTRIES && forall p :: View(fs1, p).None?)
            && (Healthy(fs.dev) ==> ok && Clean(fs1))
  {
    hide SyncAll, SyncSuper, DiskEntry, Healthy, Safe, EntryOk, SuperOf, View, Clean;
    SyncSuperFacts(fs);
    var (fs1, ok) := SyncSuper(fs);
    if ok {
      var (fs2, ok2) := SyncAll(fs1, 0);
      SyncAllFacts(fs1, 0);
      if ok2 {
        var fs3 := fs2.(nextInode := DYNAMIC_INO_BASE);
        SetInode(fs2, DYNAMIC_INO_BASE);
        SameDisk(fs2, fs3);
        SuperKept(fs1, fs3, fs.base + TABLE_OFFSET, fs.base + DATA_OFFSET);
        EmptyIsSafe(fs3);
        forall p ensures View(fs3, p).None? {
          EmptyView(fs3, p);
        }
        if Healthy(fs.dev) {
          EmptyIsClean(fs3);
        }
      }
    }
  }

  // Reading a table back

  lemma LoadUnfold(fs: Fs, i: nat, count: nat, legacy: bool, highest: nat)
    requires Mountable(fs.dev, fs.base, fs.storage) && EntriesOk(fs.entries) && i <= count <= MAX_ENTRIES
    ensures i == count ==> LoadAll(fs, i, count, legacy, highest) == (fs, true, highest)
    ensures i < count ==>
              var (fs1, ok, h) := if legacy then MigrateOne(fs, i, highest) else LoadOne(fs, i, highest);
              Mountable(fs1.dev, fs1.base, fs1.storage) && EntriesOk(fs1.entries)
              && LoadAll(fs, i, count, legacy, highest) == if !ok then (fs1, false, h)
                  else LoadAll(fs1, i + 1, count, legacy, h)
  {
    hide LoadOne, MigrateOne, EntryOk;
  }

  /** What a mount of a version 4 volume puts into slot `j`. */
  function Loaded(fs: Fs, j: nat): (r: Entry)
    requires Mountable(fs.dev, fs.base, fs.storage) && j < MAX_ENTRIES
  {
    Kept(DiskEntry(fs, j))
  }

  predicate LoadableAt(fs: Fs, j: nat)
    requires Mountable(fs.dev, fs.base, fs.storage) && j < MAX_ENTRIES
  {
    DiskEntry(fs, j).inUse ==> Loadable(DiskEntry(fs, j), fs.storage)
  }

  /** One entry. */
  lemma LoadOneFacts(fs: Fs, i: nat, highest: nat)
    requires Mountable(fs.dev, fs.base, fs.storage) && EntriesOk(fs.entries) && i < MAX_ENTRIES
    requires fs.entries[i] == EMPTY
    ensures var (fs1, ok, h) := LoadOne(fs, i, highest);
            && (ok ==> LoadableAt(fs, i) && fs1.entries[i] == Loaded(fs, i) && h == Max(highest, Loaded(fs, i).inode))
            && (ok ==> fs1.nextData <= Max(fs.nextData, fs.storage))
            && (ok ==> fs1.nextData == if Loaded(fs, i).capacity == 0 then fs.nextData
                                       else Max(fs.nextData, Loaded(fs, i).offset + Loaded(fs, i).capacity))
            && (Healthy(fs.dev) ==> (ok <==> LoadableAt(fs, i)) && Healthy(fs1.dev))
  {
    hide Read, EntryOk, DecodeEntry, Healthy;
    var at := fs.base + EntryAt(i);
    if Healthy(fs.dev) {
      HealthyRead(fs.dev, at, ENTRY_SIZE);
    }
    DecodedEmpty(fs.dev.bytes[at..at + ENTRY_SIZE]);
  }

  lemma DecodedEmpty(b: Bytes)
    requires |b| == ENTRY_SIZE
    ensures !DecodeEntry(b).inUse ==> DecodeEntry(b) == EMPTY
  {
  }

  lemma SameTable(fs: Fs, fs': Fs)
    requires Mountable(fs.dev, fs.base, fs.storage) && fs'.base == fs.base && fs'.storage == fs.storage
    requires fs'.dev == fs.dev.(faults := fs'.dev.faults)
    ensures forall j {:trigger Loaded(fs', j)} {:trigger LoadableAt(fs', j)} :: 0 <= j < MAX_ENTRIES ==>
              Loaded(fs', j) == Loaded(fs, j) && LoadableAt(fs', j) == LoadableAt(fs, j)
  {
    hide DecodeEntry;
  }

  /** The table loop. */
  ghost predicate LoadedFrom(fs: Fs, i: nat, count: nat, highest: nat, r: (Fs, bool, nat))
    requires Mountable(fs.dev, fs.base, fs.storage) && i <= count <= MAX_ENTRIES && |r.0.entries| == MAX_ENTRIES
  {
    && r.0.dev == fs.dev.(faults := r.0.dev.faults)
    && (r.1 ==>
          && fs.nextData <= r.0.nextData <= Max(fs.nextData, fs.storage) && highest <= r.2
          && forall j {:trigger Loaded(fs, j)} :: i <= j < count ==>
               && r.0.entries[j] == Loaded(fs, j) && LoadableAt(fs, j) && Loaded(fs, j).inode <= r.2
               && (Loaded(fs, j).capacity != 0 ==> Loaded(fs, j).offset + Loaded(fs, j).capacity <= r.0.nextData))
  }

  lemma {:induction false} LoadAllFacts(fs: Fs, i: nat, count: nat, highest: nat)
    requires Mountable(fs.dev, fs.base, fs.storage) && EntriesOk(fs.entries) && i <= count <= MAX_ENTRIES
    requires forall j :: i <= j < count ==> fs.entries[j] == EMPTY
    ensures LoadedFrom(fs, i, count, highest, LoadAll(fs, i, count, false, highest))
    decreases count - i
  {
    hide LoadAll, LoadOne, EntryOk, Healthy, Loaded, LoadableAt, DiskEntry;
    LoadUnfold(fs, i, count, false, highest);
    if i < count {
      var (fs1, ok, h) := LoadOne(fs, i, highest);
      LoadOneFacts(fs, i, highest);
      if ok {
        LoadAllFacts(fs1, i + 1, count, h);
        SameTable(fs, fs1);
        LoadedCons(fs, fs1, i, count, highest, h, LoadAll(fs1, i + 1, count, false, h));
      }
    }
  }

  lemma LoadedCons(fs: Fs, fs1: Fs, i: nat, count: nat, highest: nat, h: nat, r: (Fs, bool, nat))
    requires Mountable(fs.dev, fs.base, fs.storage) && i < count <= MAX_ENTRIES && |r.0.entries| == MAX_ENTRIES
    requires Mountable(fs1.dev, fs1.base, fs1.storage) && fs1.dev == fs.dev.(faults := fs1.dev.faults)
    requires fs1.storage == fs.storage
    requires fs1.nextData <= Max(fs.nextData, fs.storage)
    requires forall j {:trigger Loaded(fs1, j)} {:trigger LoadableAt(fs1, j)} :: 0 <= j < MAX_ENTRIES ==>
               Loaded(fs1, j) == Loaded(fs, j) && LoadableAt(fs1, j) == LoadableAt(fs, j)
    requires LoadableAt(fs, i) && r.0.entries[i] == Loaded(fs, i) && h == Max(highest, Loaded(fs, i).inode)
    requires fs1.nextData == if Loaded(fs, i).capacity == 0 then fs.nextData
                             else Max(fs.nextData, Loaded(fs, i).offset + Loaded(fs, i).capacity)
    requires LoadedFrom(fs1, i + 1, count, h, r)
    ensures LoadedFrom(fs, i, count, highest, r)
  {
    hide Loaded, LoadableAt, Placed;
    if r.1 {
      forall j | i <= j < count
        ensures r.0.entries[j] == Loaded(fs, j) && LoadableAt(fs, j) && Loaded(fs, j).inode <= r.2
        ensures Loaded(fs, j).capacity != 0 ==> Loaded(fs, j).offset + Loaded(fs, j).capacity <= r.0.nextData
      {
        if j > i {
          assert Loaded(fs1, j) == Loaded(fs, j) && LoadableAt(fs1, j) == LoadableAt(fs, j);
        }
      }
    }
  }

  /** A healthy device lets every loadable table through, and the marks rise no higher than needed. */
  lemma {:induction false} LoadAllSucceeds(fs: Fs, i: nat, count: nat, highest: nat, inodes: nat, end: nat)
    requires Mountable(fs.dev, fs.base, fs.storage) && EntriesOk(fs.entries) && i <= count <= MAX_ENTRIES
    requires forall j :: i <= j < count ==> fs.entries[j] == EMPTY
    requires Healthy(fs.dev) && highest < inodes && fs.nextData <= end
    requires forall j {:trigger LoadableAt(fs, j)} :: i <= j < count ==> LoadableAt(fs, j)
    requires forall j {:trigger Loaded(fs, j)} ::
             i <= j < count ==> Loaded(fs, j).inode < inodes && Loaded(fs, j).offset + Loaded(fs, j).capacity <= end
    ensures var r := LoadAll(fs, i, count, false, highest);
            r.1 && Healthy(r.0.dev) && r.2 < inodes && r.0.nextData <= end
    decreases count - i
  {
    hide LoadAll, LoadOne, EntryOk, Healthy, Loaded, LoadableAt, DiskEntry;
    LoadUnfold(fs, i, count, false, highest);
    if i < count {
      var (fs1, ok, h) := LoadOne(fs, i, highest);
      LoadOneFacts(fs, i, highest);
      assert LoadableAt(fs, i);
      SameTable(fs, fs1);
      LoadAllSucceeds(fs1, i + 1, count, h, inodes, end);
    }
  }

  // Mounting again

  /** A volume whose extents are safe and whose superblock matches. */
  ghost predicate Sane(fs: Fs)
    ensures Sane(fs) ==> Safe(fs)
  {
    Safe(fs) && SuperValid(SuperOf(fs)) && SuperOf(fs).maxEntries <= fs.limit
  }

  /** An instance on which a version 4 volume can be mounted. */
  ghost predicate Current(fs: Fs)
    ensures Current(fs) ==> Mountable(fs.dev, fs.base, fs.storage) && |fs.entries| == MAX_ENTRIES && fs.nextInode < U64
  {
    Mountable(fs.dev, fs.base, fs.storage) && |fs.entries| == MAX_ENTRIES && fs.nextInode < U64
        && SuperValid(SuperOf(fs))
  }

  /** The instance such a mount starts loading into. */
  function Blank(fs: Fs, d: Device): (fs0: Fs)
    requires Mountable(fs.dev, fs.base, fs.storage)
  {
    fs.(dev := d, nextData := DATA_OFFSET, entries := NoEntries(), limit := SuperOf(fs).maxEntries)
  }

  lemma MountIsLoad(fs: Fs)
    requires Current(fs)
    ensures SuperOf(fs).maxEntries <= MAX_ENTRIES
    ensures var (d, ok, _) := Read(fs.dev, fs.base, SUPER_SIZE);
            Mount(fs) == if ok then Load(Blank(fs, d))
                else (fs.(limit := MAX_ENTRIES, nextData := DATA_OFFSET, dev := d), false)
  {
    hide Read, Load, DecodeSuper, EntryOk;
  }

  /** Slots in use keep what was written to them. */
  lemma KeptWhole(fs: Fs, j: nat)
    requires Safe(fs) && j < fs.limit
    ensures Loaded(fs, j) == DiskEntry(fs, j) && LoadableAt(fs, j)
  {
    hide DiskEntry;
    assert ExtentOk(Slot(fs, true, j), fs.nextData);
  }

  lemma UnusedIsEmpty(fs: Fs, j: nat)
    requires VolumeOk(fs) && j < MAX_ENTRIES
    ensures fs.entries[j].inUse || fs.entries[j] == EMPTY
  {
    hide Placed;
  }

  lemma BlankOk(fs: Fs, d: Device)
    requires Current(fs) && d == fs.dev.(faults := d.faults)
    ensures Mountable(d, fs.base, fs.storage) && EntriesOk(NoEntries())
  {
    hide SuperOf;
  }

  /** A directory or an empty slot names no extent. */
  predicate Tidy(e: Entry)
  {
    (e.capacity == 0 ==> e.offset == 0) && (e.kind == DIRECTORY ==> e.capacity == 0)
  }

  /** The first `n` entries on disk name extents that are disjoint from one another. */
  ghost predicate TableSound(fs: Fs, n: nat)
    requires Mountable(fs.dev, fs.base, fs.storage) && n <= MAX_ENTRIES
  {
    && (forall j :: 0 <= j < n ==> Tidy(DiskEntry(fs, j)))
    && (forall i, j {:trigger DiskEntry(fs, i), DiskEntry(fs, j)} :: 0 <= i < n && 0 <= j < n && i != j ==>
          Apart(DiskEntry(fs, i), DiskEntry(fs, j)))
  }

  /** Mounting any version 4 table writes nothing. On success memory is what the disk said, every extent ends within
      the rebuilt mark and the mark within storage, and the volume is safe exactly when the extents on disk are
      disjoint. On a healthy device it succeeds exactly when every entry passes its checks. */
  lemma MountOfAnyTable(fs: Fs)
    requires Current(fs)
    ensures var (fs1, ok) := Mount(fs);
            && fs1.dev == fs.dev.(faults := fs1.dev.faults)
            && (ok ==> && fs1.limit == SuperOf(fs).maxEntries && DATA_OFFSET <= fs1.nextData <= fs.storage
                       && LoadedBelow(fs, fs1) && (Safe(fs1) <==> TableSound(fs, fs1.limit)))
            && (Healthy(fs.dev) ==> (ok <==> forall j :: 0 <= j < SuperOf(fs).maxEntries ==> LoadableAt(fs, j)))
  {
    hide Read, LoadAll, DiskEntry, EntryOk, Safe, SuperOf, Mount, TableSound, Healthy, Current, LoadableAt, LoadedBelow;
    MountIsLoad(fs);
    var (d, okRead, _) := Read(fs.dev, fs.base, SUPER_SIZE);
    var fs0 := Blank(fs, d);
    BlankOk(fs, d);
    if okRead {
      LoadAllFacts(fs0, 0, fs0.limit, DYNAMIC_INO_BASE - 1);
      if Load(fs0).1 {
        AnyTableLoaded(fs, fs0, LoadAll(fs0, 0, fs0.limit, false, DYNAMIC_INO_BASE - 1));
        AnyTableSafe(fs, Load(fs0).0);
      }
    }
    if Healthy(fs.dev) {
      HealthyRead(fs.dev, fs.base, SUPER_SIZE);
      SameTable(fs, fs0);
      LoadAllIff(fs0, 0, fs0.limit, DYNAMIC_INO_BASE - 1);
      assert forall j :: 0 <= j < fs0.limit ==> LoadableAt(fs, j) == LoadableAt(fs0, j);
    }
  }

  /** Every slot is loaded from disk, and its extent ends within the mark. */
  ghost predicate LoadedBelow(fs: Fs, fs1: Fs)
    requires Mountable(fs.dev, fs.base, fs.storage)
  {
    && |fs1.entries| == MAX_ENTRIES && fs1.limit <= MAX_ENTRIES
    && forall j {:trigger Loaded(fs, j)} :: 0 <= j < fs1.limit ==>
         && fs1.entries[j] == Loaded(fs, j) && LoadableAt(fs, j)
         && (Loaded(fs, j).capacity != 0 ==> Loaded(fs, j).offset + Loaded(fs, j).capacity <= fs1.nextData)
  }

  lemma AnyTableLoaded(fs: Fs, fs0: Fs, r: (Fs, bool, nat))
    requires Mountable(fs.dev, fs.base, fs.storage) && Mountable(fs0.dev, fs0.base, fs0.storage)
    requires fs0.base == fs.base && fs0.storage == fs.storage && fs0.dev == fs.dev.(faults := fs0.dev.faults)
    requires r.0.limit == fs0.limit <= MAX_ENTRIES && |r.0.entries| == MAX_ENTRIES
    requires LoadedFrom(fs0, 0, fs0.limit, DYNAMIC_INO_BASE - 1, r) && r.1
    ensures forall n: nat :: LoadedBelow(fs, r.0.(nextInode := n))
  {
    hide DiskEntry, Placed, Loaded, LoadableAt;
    SameTable(fs, fs0);
    forall j | 0 <= j < fs0.limit
      ensures r.0.entries[j] == Loaded(fs, j) && LoadableAt(fs, j)
      ensures Loaded(fs, j).capacity != 0 ==> Loaded(fs, j).offset + Loaded(fs, j).capacity <= r.0.nextData
    {
      assert Loaded(fs0, j) == Loaded(fs, j) && LoadableAt(fs0, j) == LoadableAt(fs, j);
    }
  }

  lemma AnyTableSafe(fs: Fs, fs1: Fs)
    requires Current(fs) && VolumeOk(fs1) && LoadedBelow(fs, fs1) && fs1.base == fs.base && fs1.storage == fs.storage
    requires fs1.dev == fs.dev.(faults := fs1.dev.faults) && DATA_OFFSET <= fs1.nextData <= fs1.storage
    ensures Safe(fs1) <==> TableSound(fs, fs1.limit)
  {
    hide DiskEntry, EntryOk, SuperOf, Placed;
    SameDisk(fs, fs1);
    if Safe(fs1) {
      forall j | 0 <= j < fs1.limit ensures Tidy(DiskEntry(fs, j)) {
        assert ExtentOk(Slot(fs1, true, j), fs1.nextData);
      }
      forall i, j | 0 <= i < fs1.limit && 0 <= j < fs1.limit && i != j
          ensures Apart(DiskEntry(fs, i), DiskEntry(fs, j)) {
        assert Apart(Slot(fs1, true, i), Slot(fs1, true, j));
      }
    }
    if TableSound(fs, fs1.limit) {
      forall j | 0 <= j < fs1.limit
          ensures fs1.entries[j] == DiskEntry(fs, j) && ExtentOk(fs1.entries[j], fs1.nextData) {
        TidyLoaded(fs, fs1, j);
      }
      SafeFromMemory(fs1);
    }
  }

  lemma TidyLoaded(fs: Fs, fs1: Fs, j: nat)
    requires Mountable(fs.dev, fs.base, fs.storage) && VolumeOk(fs1) && LoadedBelow(fs, fs1) && j < fs1.limit
    requires Tidy(DiskEntry(fs, j))
    ensures fs1.entries[j] == DiskEntry(fs, j) && ExtentOk(fs1.entries[j], fs1.nextData)
  {
    hide DiskEntry, Placed;
    assert fs1.entries[j] == Loaded(fs, j) && LoadableAt(fs, j);
    UnusedIsEmpty(fs1, j);
  }

  /** On a healthy device the table loop succeeds exactly when every entry passes its checks. */
  lemma {:induction false} LoadAllIff(fs: Fs, i: nat, count: nat, highest: nat)
    requires Mountable(fs.dev, fs.base, fs.storage) && EntriesOk(fs.entries) && i <= count <= MAX_ENTRIES
    requires Healthy(fs.dev) && forall j :: i <= j < count ==> fs.entries[j] == EMPTY
    ensures LoadAll(fs, i, count, false, highest).1 <==> forall j :: i <= j < count ==> LoadableAt(fs, j)
    decreases count - i
  {
    hide LoadAll, LoadOne, EntryOk, Healthy, Loaded, LoadableAt, DiskEntry;
    LoadUnfold(fs, i, count, false, highest);
    if i < count {
      var (fs1, ok, h) := LoadOne(fs, i, highest);
      LoadOneFacts(fs, i, highest);
      if ok {
        SameTable(fs, fs1);
        LoadAllIff(fs1, i + 1, count, h);
        assert forall j :: i < j < count ==> LoadableAt(fs1, j) == LoadableAt(fs, j);
      }
    }
  }

  /** Whatever reads fail, a mount of a sane volume writes nothing; if it succeeds, memory is what the disk said and the
      volume is sane again. */
  lemma MountIsSafe(fs: Fs)
    requires Sane(fs)
    ensures var (fs1, ok) := Mount(fs);
            && fs1.dev == fs.dev.(faults := fs1.dev.faults)
            && (ok ==>
                Sane(fs1) && fs1.limit == SuperOf(fs).maxEntries && fs1.base == fs.base && fs1.storage == fs.storage
                       && forall j :: 0 <= j < fs1.limit ==> fs1.entries[j] == DiskEntry(fs, j) == DiskEntry(fs1, j))
  {
    hide DiskEntry, EntryOk, Safe, SuperOf, Mount, TableSound, LoadedBelow;
    SaneIsCurrent(fs);
    MountOfAnyTable(fs);
    MountKeepsPlace(fs);
    var (fs1, ok) := Mount(fs);
    SameDisk(fs, fs1);
    if ok {
      SafeIsSound(fs, fs1.limit);
      forall j | 0 <= j < fs1.limit ensures fs1.entries[j] == DiskEntry(fs, j) {
        KeptWhole(fs, j);
        LoadedAt(fs, fs1, j);
      }
    }
  }

  lemma LoadedAt(fs: Fs, fs1: Fs, j: nat)
    requires Mountable(fs.dev, fs.base, fs.storage) && LoadedBelow(fs, fs1) && j < fs1.limit
    ensures fs1.entries[j] == Loaded(fs, j)
  {
  }

  lemma SaneIsCurrent(fs: Fs)
    requires Sane(fs)
    ensures Current(fs)
  {
  }

  lemma MountKeepsPlace(fs: Fs)
    requires Current(fs)
    ensures var fs1 := Mount(fs).0; fs1.base == fs.base && fs1.storage == fs.storage && fs1.initrd == fs.initrd
  {
    hide Read, Mount, LoadAll, SuperOf;
    MountIsLoad(fs);
    BlankOk(fs, Read(fs.dev, fs.base, SUPER_SIZE).0);
  }

  lemma SafeIsSound(fs: Fs, n: nat)
    requires Safe(fs) && n <= fs.limit
    ensures TableSound(fs, n)
  {
    hide DiskEntry, EntryOk, Placed;
    forall j | 0 <= j < n ensures Tidy(DiskEntry(fs, j)) {
      assert ExtentOk(Slot(fs, true, j), fs.nextData);
    }
    forall i, j | 0 <= i < n && 0 <= j < n && i != j ensures Apart(DiskEntry(fs, i), DiskEntry(fs, j)) {
      assert Apart(Slot(fs, true, i), Slot(fs, true, j));
    }
  }

  lemma SameDisk(fs: Fs, fs': Fs)
    requires Mountable(fs.dev, fs.base, fs.storage) && fs'.base == fs.base && fs'.storage == fs.storage
    requires fs'.dev == fs.dev.(faults := fs'.dev.faults)
    ensures SuperOf(fs') == SuperOf(fs) && forall j :: 0 <= j < MAX_ENTRIES ==> DiskEntry(fs', j) == DiskEntry(fs, j)
  {
    hide DecodeEntry, DecodeSuper;
  }

  /** Remount agreement: mounting a clean volume succeeds and rebuilds exactly the live entries, and the rebuilt
      volume is clean, so its marks are again beyond every live entry. */
  lemma RemountAgrees(fs: Fs)
    requires Clean(fs)
    ensures var (fs1, ok) := Mount(fs);
            && ok && Clean(fs1) && fs1.entries == fs.entries && fs1.limit == fs.limit
            && fs1.dev.bytes == fs.dev.bytes && fs1.nextData <= fs.nextData && fs1.nextInode <= fs.nextInode
            && forall p :: View(fs1, p) == View(fs, p)
  {
    hide Read, LoadAll, DiskEntry, EntryOk, Safe, SuperOf, Mount;
    hide Healthy;
    CleanIsCurrent(fs);
    MountSucceeds(fs);
    MountIsSafe(fs);
    var fs1 := Mount(fs).0;
    forall j | 0 <= j < MAX_ENTRIES ensures fs1.entries[j] == fs.entries[j] {
      if j < fs.limit {
        assert Agree(fs, j);
      }
    }
    assert fs1.entries == fs.entries;
    SameDisk(fs, fs1);
    forall p ensures View(fs1, p) == View(fs, p) {
      FindIs(fs1, p, Find(fs, p));
    }
  }

  lemma CleanIsCurrent(fs: Fs)
    requires Clean(fs)
    ensures Current(fs) && Sane(fs) && SuperOf(fs).maxEntries == fs.limit
  {
  }

  lemma MountSucceeds(fs: Fs)
    requires Clean(fs)
    ensures var (fs1, ok) := Mount(fs);
            && ok && Healthy(fs1.dev) && fs1.nextData <= fs.nextData && fs1.nextInode <= fs.nextInode
            && DYNAMIC_INO_BASE <= fs1.nextInode
            && forall j :: 0 <= j < fs.limit ==> fs.entries[j].inode < fs1.nextInode
  {
    hide Read, LoadAll, DiskEntry, EntryOk, SuperOf, Mount, Loaded, LoadableAt;
    hide Healthy;
    CleanIsCurrent(fs);
    MountIsLoad(fs);
    HealthyRead(fs.dev, fs.base, SUPER_SIZE);
    var fs0 := Blank(fs, Read(fs.dev, fs.base, SUPER_SIZE).0);
    BlankOk(fs, fs0.dev);
    SameTable(fs, fs0);
    forall j | 0 <= j < fs.limit
      ensures Loaded(fs0, j) == fs.entries[j] && LoadableAt(fs0, j)
      ensures Loaded(fs0, j).inode < fs.nextInode && Loaded(fs0, j).offset + Loaded(fs0, j).capacity <= fs.nextData
    {
      assert Agree(fs, j);
      KeptWhole(fs, j);
      UnusedIsEmpty(fs, j);
      assert ExtentOk(Slot(fs, false, j), fs.nextData);
      assert Loaded(fs0, j) == Loaded(fs, j) && LoadableAt(fs0, j) == LoadableAt(fs, j);
    }
    LoadAllSucceeds(fs0, 0, fs.limit, DYNAMIC_INO_BASE - 1, fs.nextInode, fs.nextData);
    LoadAllFacts(fs0, 0, fs.limit, DYNAMIC_INO_BASE - 1);
  }
}
