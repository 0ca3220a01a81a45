/** The in-place migration of a version 3 volume keeps every file. */
module AosfsMigration {
  import opened Blkdev
  import opened LittleEndian
  import opened AosfsFormat
  import opened Aosfs
  import opened AosfsExtents
  import opened AosfsSteps
  import opened AosfsContents
  import opened AosfsViews
  import opened AosfsSound
  import opened AosfsMount
  import opened AosfsRemount

  /** The bytes of a file in slot `j` of a version 3 volume. */
  function LegacyBytes(fs: Fs, j: nat, size: nat): (r: Bytes)
  {
    var at := fs.base + LegacyAt(j);
    if at + size <= |fs.dev.bytes| then fs.dev.bytes[at..at + size] else []
  }

  /** Slot `j` of `fs'` holds what slot `j` of the version 3 volume `fs` held. */
  predicate Moved(fs: Fs, fs': Fs, j: nat)
    requires Mountable(fs.dev, fs.base, fs.storage) && j < |fs'.entries| == MAX_ENTRIES
  {
    var e, k := DiskEntry(fs, j), fs'.entries[j];
    if !e.inUse then k == EMPTY
    else if e.kind == DIRECTORY then k == Kept(e)
    else
      && k == e.(offset := k.offset, capacity := INLINE_CAPACITY)
      && e.kind <= SYMLINK && e.size <= INLINE_CAPACITY && Content(fs', k) == LegacyBytes(fs, j, e.size)
  }

  predicate Within(e: Entry, lo: nat, hi: nat)
  {
    e.capacity != 0 ==> lo <= e.offset && e.offset + e.capacity <= hi
  }

  /** What the migration loop has done once it has passed slots `i` to 63. */
  ghost predicate MovedFrom(fs: Fs, i: nat, fs': Fs)
    requires Mountable(fs.dev, fs.base, fs.storage) && |fs'.entries| == MAX_ENTRIES
  {
    && fs.nextData <= fs'.nextData <= Max(fs.nextData, fs.storage)
    && (forall j {:trigger fs'.entries[j]} :: i <= j < LEGACY_MAX_ENTRIES ==>
          Moved(fs, fs', j) && Within(fs'.entries[j], fs.nextData, fs'.nextData))
    && (forall j, k {:trigger fs'.entries[j], fs'.entries[k]} ::
        i <= j < LEGACY_MAX_ENTRIES && i <= k < LEGACY_MAX_ENTRIES && j != k ==>
          Apart(fs'.entries[j], fs'.entries[k]))
  }

  /** A file or directory of a version 3 volume that can be migrated, as far as it alone decides. */
  predicate Movable(e: Entry)
  {
    e.inUse ==> e.kind <= SYMLINK && (e.kind != DIRECTORY ==> e.size <= INLINE_CAPACITY)
  }

  function Room(e: Entry): (r: nat)
  {
    if e.inUse && e.kind != DIRECTORY then INLINE_CAPACITY else 0
  }

  lemma MigrateOneFacts(fs: Fs, i: nat, highest: nat)
    requires Mountable(fs.dev, fs.base, fs.storage) && EntriesOk(fs.entries) && i < LEGACY_MAX_ENTRIES
    requires fs.entries[i] == EMPTY && LEGACY_END <= fs.nextData
    ensures var (fs1, ok, _) := MigrateOne(fs, i, highest);
            && SameOutside(fs.dev, fs1.dev, fs.base + fs.nextData, fs.base + fs.nextData + INLINE_CAPACITY)
            && (ok ==>
                Moved(fs, fs1, i) && Movable(DiskEntry(fs, i)) && Within(fs1.entries[i], fs.nextData, fs1.nextData)
                       && fs1.nextData == fs.nextData + Room(DiskEntry(fs, i))
                       && (Room(DiskEntry(fs, i)) > 0 ==> fs1.nextData <= fs.storage))
            && (Healthy(fs.dev) ==> Healthy(fs1.dev)
                                    && (ok <==>
                                        Movable(DiskEntry(fs, i))
                                            && (Room(DiskEntry(fs, i)) > 0 ==>
                                                fs.nextData + INLINE_CAPACITY <= fs.storage)))
  {
    hide Read, EntryOk, DecodeEntry, MigrateFile, Healthy;
    var at := fs.base + EntryAt(i);
    if Healthy(fs.dev) {
      HealthyRead(fs.dev, at, ENTRY_SIZE);
    }
    var (d, ok, b) := Read(fs.dev, at, ENTRY_SIZE);
    if ok {
      DecodedOk(b);
      DecodedEmpty(b);
      var e := DecodeEntry(b);
      if e.inUse && e.kind != DIRECTORY && Movable(e) && fs.nextData + INLINE_CAPACITY <= fs.storage {
        MigrateFileFacts(fs, d, i, e);
      }
    }
  }

  lemma MigrateFileFacts(fs: Fs, d: Device, i: nat, e: Entry)
    requires Mountable(fs.dev, fs.base, fs.storage) && |fs.entries| == MAX_ENTRIES && i < LEGACY_MAX_ENTRIES
    requires d == fs.dev.(faults := d.faults) && e == DiskEntry(fs, i) && EntryOk(e) && e.inUse && e.kind != DIRECTORY
    requires e.kind <= SYMLINK && e.size <= INLINE_CAPACITY && LEGACY_END <= fs.nextData
    requires fs.nextData + INLINE_CAPACITY <= fs.storage
    ensures var (fs1, ok) := MigrateFile(fs.(dev := d), i, e);
            && SameOutside(fs.dev, fs1.dev, fs.base + fs.nextData, fs.base + fs.nextData + INLINE_CAPACITY)
            && (ok ==> Moved(fs, fs1, i) && Within(fs1.entries[i], fs.nextData, fs1.nextData)
                       && fs1.nextData == fs.nextData + INLINE_CAPACITY)
            && (Healthy(d) ==> ok && Healthy(fs1.dev))
  {
    hide EntryOk, DiskEntry, CopyBytes, Healthy;
    var from, to := fs.base + LegacyAt(i), fs.base + fs.nextData;
    CopyFacts(d, from, to, e.size);
    assert from + e.size <= to && to + INLINE_CAPACITY <= |fs.dev.bytes|;
    if Healthy(d) {
      HealthyCopy(d, from, to, e.size);
    }
  }

  /** A slot at which the migration stops is left alone if it could not be read; otherwise it is in use without an
      extent, as it was on disk, or cleared but for that if its kind is unknown. */
  lemma MigrateOneStops(fs: Fs, i: nat, highest: nat)
    requires Mountable(fs.dev, fs.base, fs.storage) && EntriesOk(fs.entries) && i < LEGACY_MAX_ENTRIES
    requires !MigrateOne(fs, i, highest).1
    ensures var e, held := DiskEntry(fs, i), MigrateOne(fs, i, highest).0.entries[i];
            || held == fs.entries[i]
            || (e.inUse && held == if e.kind > SYMLINK then EMPTY.(inUse := true) else e.(offset := 0, capacity := 0))
  {
    hide Read, EntryOk, DecodeEntry, CopyBytes;
    var at := fs.base + EntryAt(i);
    var (d, ok, b) := Read(fs.dev, at, ENTRY_SIZE);
    if ok {
      DecodedOk(b);
    }
  }

  // The loop

  lemma LegacyKept(fs: Fs, fs1: Fs, j: nat)
    requires Mountable(fs.dev, fs.base, fs.storage) && fs1.base == fs.base && fs1.storage == fs.storage
    requires j < LEGACY_MAX_ENTRIES
    requires SameOutside(fs.dev, fs1.dev, fs.base + fs.nextData, fs.base + fs.nextData + INLINE_CAPACITY)
    requires LEGACY_END <= fs.nextData
    ensures DiskEntry(fs1, j) == DiskEntry(fs, j)
    ensures forall size: nat :: size <= INLINE_CAPACITY ==> LegacyBytes(fs1, j, size) == LegacyBytes(fs, j, size)
  {
    hide DecodeEntry;
    SameSlice(fs.dev, fs1.dev, fs.base + fs.nextData, fs.base + fs.nextData + INLINE_CAPACITY, fs.base + EntryAt(j),
        ENTRY_SIZE);
  }

  lemma MovedCons(fs: Fs, fs1: Fs, i: nat, fs2: Fs)
    requires Mountable(fs.dev, fs.base, fs.storage) && |fs1.entries| == MAX_ENTRIES && |fs2.entries| == MAX_ENTRIES
    requires Mountable(fs1.dev, fs1.base, fs1.storage)
    requires i < LEGACY_MAX_ENTRIES && LEGACY_END <= fs.nextData && fs1.base == fs.base == fs2.base
    requires fs1.storage == fs.storage
    requires SameOutside(fs.dev, fs1.dev, fs.base + fs.nextData, fs.base + fs.nextData + INLINE_CAPACITY)
    requires SameOutside(fs1.dev, fs2.dev, fs.base + fs1.nextData, fs.base + fs.storage)
    requires Moved(fs, fs1, i) && Within(fs1.entries[i], fs.nextData, fs1.nextData)
    requires fs.nextData <= fs1.nextData <= Max(fs.nextData, fs.storage)
    requires MovedFrom(fs1, i + 1, fs2) && fs2.entries[i] == fs1.entries[i]
    ensures MovedFrom(fs, i, fs2)
  {
    hide DiskEntry, Placed, Content, LegacyBytes;
    forall j | i <= j < LEGACY_MAX_ENTRIES
        ensures Moved(fs, fs2, j) && Within(fs2.entries[j], fs.nextData, fs2.nextData) {
      LegacyKept(fs, fs1, j);
      if j == i {
        if DiskEntry(fs, i).inUse && DiskEntry(fs, i).kind != DIRECTORY {
          ContentKept(fs, fs1, fs2, i);
        }
      } else {
        assert Moved(fs1, fs2, j) && Within(fs2.entries[j], fs1.nextData, fs2.nextData);
      }
    }
    forall j, k | i <= j < LEGACY_MAX_ENTRIES && i <= k < LEGACY_MAX_ENTRIES && j != k
        ensures Apart(fs2.entries[j], fs2.entries[k]) {
      if j == i {
        assert Within(fs2.entries[k], fs1.nextData, fs2.nextData);
      } else if k == i {
        assert Within(fs2.entries[j], fs1.nextData, fs2.nextData);
      }
    }
  }

  lemma ContentKept(fs: Fs, fs1: Fs, fs2: Fs, i: nat)
    requires |fs1.entries| == MAX_ENTRIES && |fs2.entries| == MAX_ENTRIES && i < LEGACY_MAX_ENTRIES
    requires fs1.base == fs2.base == fs.base
    requires SameOutside(fs1.dev, fs2.dev, fs.base + fs1.nextData, fs.base + fs.storage)
    requires Within(fs1.entries[i], fs.nextData, fs1.nextData) && fs1.entries[i].size <= fs1.entries[i].capacity
    ensures Content(fs2, fs1.entries[i]) == Content(fs1, fs1.entries[i])
  {
  }

  lemma {:induction false} MigrateAllFacts(fs: Fs, i: nat, highest: nat)
    requires Mountable(fs.dev, fs.base, fs.storage) && EntriesOk(fs.entries) && i <= LEGACY_MAX_ENTRIES
    requires LEGACY_END <= fs.nextData
    requires forall j :: i <= j < LEGACY_MAX_ENTRIES ==> fs.entries[j] == EMPTY
    ensures var (fs1, ok, _) := LoadAll(fs, i, LEGACY_MAX_ENTRIES, true, highest);
            && SameOutside(fs.dev, fs1.dev, fs.base + fs.nextData, fs.base + fs.storage)
            && (ok ==> MovedFrom(fs, i, fs1))
    decreases LEGACY_MAX_ENTRIES - i
  {
    hide LoadAll, MigrateOne, EntryOk, Moved, MovedFrom, DiskEntry, Within;
    LoadUnfold(fs, i, LEGACY_MAX_ENTRIES, true, highest);
    if i < LEGACY_MAX_ENTRIES {
      var (fs1, ok, h) := MigrateOne(fs, i, highest);
      MigrateOneFacts(fs, i, highest);
      MigrateOneStays(fs, i, highest);
      if ok {
        MigrateAllFacts(fs1, i + 1, h);
        var r := LoadAll(fs1, i + 1, LEGACY_MAX_ENTRIES, true, h);
        if r.1 {
          MovedCons(fs, fs1, i, r.0);
        }
      }
    } else {
      assert MovedFrom(fs, i, fs) by { NothingMoved(fs, i); }
    }
  }

  lemma NothingMoved(fs: Fs, i: nat)
    requires Mountable(fs.dev, fs.base, fs.storage) && |fs.entries| == MAX_ENTRIES && i >= LEGACY_MAX_ENTRIES
    ensures MovedFrom(fs, i, fs)
  {
  }

  /** Nothing is written beyond the volume. */
  lemma MigrateOneStays(fs: Fs, i: nat, highest: nat)
    requires Mountable(fs.dev, fs.base, fs.storage) && EntriesOk(fs.entries) && i < LEGACY_MAX_ENTRIES
    requires LEGACY_END <= fs.nextData
    ensures var fs1 := MigrateOne(fs, i, highest).0;
            SameOutside(fs.dev, fs1.dev, fs.base + fs.nextData, fs.base + fs.storage)
  {
    hide Read, EntryOk, DecodeEntry, CopyBytes;
    var (d, ok, b) := Read(fs.dev, fs.base + EntryAt(i), ENTRY_SIZE);
    if ok {
      DecodedOk(b);
      var e := DecodeEntry(b);
      if e.inUse && e.kind != DIRECTORY && Movable(e) && fs.nextData + INLINE_CAPACITY <= fs.storage {
        CopyFacts(d, fs.base + LegacyAt(i), fs.base + fs.nextData, e.size);
      }
    }
  }

  /** Bytes the files from slot `i` on need in the new layout. */
  function RoomFrom(fs: Fs, i: nat): (r: nat)
    requires Mountable(fs.dev, fs.base, fs.storage) && i <= LEGACY_MAX_ENTRIES
    decreases LEGACY_MAX_ENTRIES - i
  {
    if i == LEGACY_MAX_ENTRIES then 0 else Room(DiskEntry(fs, i)) + RoomFrom(fs, i + 1)
  }

  /** What a version 3 volume must satisfy to be migrated. */
  predicate Migratable(fs: Fs, i: nat)
    requires Mountable(fs.dev, fs.base, fs.storage) && i <= LEGACY_MAX_ENTRIES
  {
    && (forall j :: i <= j < LEGACY_MAX_ENTRIES ==> Movable(DiskEntry(fs, j)))
    && (RoomFrom(fs, i) > 0 ==> fs.nextData + RoomFrom(fs, i) <= fs.storage)
  }

  lemma {:induction false} RoomKept(fs: Fs, fs1: Fs, i: nat)
    requires Mountable(fs.dev, fs.base, fs.storage) && fs1.base == fs.base && fs1.storage == fs.storage
    requires i <= LEGACY_MAX_ENTRIES
    requires SameOutside(fs.dev, fs1.dev, fs.base + fs.nextData, fs.base + fs.nextData + INLINE_CAPACITY)
    requires LEGACY_END <= fs.nextData
    ensures RoomFrom(fs1, i) == RoomFrom(fs, i)
    decreases LEGACY_MAX_ENTRIES - i
  {
    hide DiskEntry;
    if i < LEGACY_MAX_ENTRIES {
      LegacyKept(fs, fs1, i);
      RoomKept(fs, fs1, i + 1);
    }
  }

  /** The loop succeeds only on migratable volumes, and on a healthy device on all of them. */
  lemma {:induction false} MigrateAllSucceeds(fs: Fs, i: nat, highest: nat)
    requires Mountable(fs.dev, fs.base, fs.storage) && EntriesOk(fs.entries) && i <= LEGACY_MAX_ENTRIES
    requires LEGACY_END <= fs.nextData
    requires forall j :: i <= j < LEGACY_MAX_ENTRIES ==> fs.entries[j] == EMPTY
    ensures var (fs1, ok, _) := LoadAll(fs, i, LEGACY_MAX_ENTRIES, true, highest);
            (ok ==> Migratable(fs, i)) && (Healthy(fs.dev) ==> (ok <==> Migratable(fs, i)) && Healthy(fs1.dev))
    decreases LEGACY_MAX_ENTRIES - i
  {
    hide LoadAll, MigrateOne, EntryOk, Moved, DiskEntry, Healthy, LegacyBytes, Movable;
    LoadUnfold(fs, i, LEGACY_MAX_ENTRIES, true, highest);
    if i < LEGACY_MAX_ENTRIES {
      var (fs1, ok, h) := MigrateOne(fs, i, highest);
      MigrateOneFacts(fs, i, highest);
      if ok {
        MigrateAllSucceeds(fs1, i + 1, h);
        RoomKept(fs, fs1, i + 1);
        forall j | i < j < LEGACY_MAX_ENTRIES ensures DiskEntry(fs1, j) == DiskEntry(fs, j) {
          LegacyKept(fs, fs1, j);
        }
        assert Migratable(fs1, i + 1) <==> Migratable(fs, i) by { MigratableStep(fs, fs1, i); }
      } else if Healthy(fs.dev) {
        assert !Migratable(fs, i) by { RoomAtLeast(fs, i); }
      }
    }
  }

  lemma RoomAtLeast(fs: Fs, i: nat)
    requires Mountable(fs.dev, fs.base, fs.storage) && i < LEGACY_MAX_ENTRIES
    ensures RoomFrom(fs, i) >= Room(DiskEntry(fs, i))
  {
    hide DiskEntry;
  }

  lemma MigratableStep(fs: Fs, fs1: Fs, i: nat)
    requires Mountable(fs.dev, fs.base, fs.storage) && Mountable(fs1.dev, fs1.base, fs1.storage)
    requires i < LEGACY_MAX_ENTRIES
    requires forall j :: i < j < LEGACY_MAX_ENTRIES ==> DiskEntry(fs1, j) == DiskEntry(fs, j)
    requires RoomFrom(fs1, i + 1) == RoomFrom(fs, i + 1) && fs1.storage == fs.storage && Movable(DiskEntry(fs, i))
    requires fs1.nextData == fs.nextData + Room(DiskEntry(fs, i))
             && (Room(DiskEntry(fs, i)) > 0 ==> fs1.nextData <= fs.storage)
    ensures Migratable(fs1, i + 1) <==> Migratable(fs, i)
  {
    hide DiskEntry, Placed, Movable, Room;
  }

  // The whole mount

  /** The instance the migration loop starts from. */
  function Start(fs: Fs, d: Device): (r: Fs)
  {
    fs.(dev := d, entries := NoEntries(), limit := LEGACY_MAX_ENTRIES, nextData := LEGACY_END)
  }

  /** What the copying half of the migration gives. */
  function Copied(fs: Fs): (r: (Fs, bool, nat))
    requires Mountable(fs.dev, fs.base, fs.storage)
    ensures r.0 == fs.(dev := r.0.dev, nextData := r.0.nextData, entries := r.0.entries, limit := r.0.limit)
            && EntriesOk(r.0.entries)
    ensures r.1 ==> forall j :: LEGACY_MAX_ENTRIES <= j < MAX_ENTRIES ==> r.0.entries[j] == EMPTY
    ensures r.0.dev == fs.dev.(faults := r.0.dev.faults, bytes := r.0.dev.bytes) && |r.0.dev.bytes| == |fs.dev.bytes|
  {
    var (d, ok, _) := Read(fs.dev, fs.base, SUPER_SIZE);
    if !ok then (fs.(dev := d, entries := NoEntries()), false, 0)
    else LoadAll(Start(fs, d), 0, LEGACY_MAX_ENTRIES, true, DYNAMIC_INO_BASE - 1)
  }

  function Ready(r: (Fs, bool, nat)): (result: Fs)
  {
    r.0.(nextInode := (r.2 + 1) % U64, limit := MAX_ENTRIES)
  }

  lemma MountIsMigration(fs: Fs)
    requires Mountable(fs.dev, fs.base, fs.storage) && |fs.entries| == MAX_ENTRIES && fs.nextInode < U64
    requires LegacySuperValid(SuperOf(fs))
    ensures var r := Copied(fs);
            if r.1 then VolumeOk(Ready(r)) && Mount(fs) == Rewrite(Ready(r))
                else !Mount(fs).1 && Mount(fs).0.dev == r.0.dev
  {
    hide Read, LoadAll, DecodeSuper, EntryOk, Rewrite;
    assert AlignUp(LegacyAt(LEGACY_MAX_ENTRIES)) == LEGACY_END;
  }

  lemma CopiedFacts(fs: Fs)
    requires Mountable(fs.dev, fs.base, fs.storage)
    ensures var r := Copied(fs);
            && SameOutside(fs.dev, r.0.dev, fs.base + LEGACY_END, fs.base + fs.storage)
            && (r.1 ==> MovedFrom(fs.(nextData := LEGACY_END), 0, r.0) && Migratable(fs.(nextData := LEGACY_END), 0))
            && (Healthy(fs.dev) ==> (r.1 <==> Migratable(fs.(nextData := LEGACY_END), 0)) && Healthy(r.0.dev))
  {
    hide Read, LoadAll, EntryOk, Healthy, DiskEntry, MovedFrom, Migratable;
    if Healthy(fs.dev) {
      HealthyRead(fs.dev, fs.base, SUPER_SIZE);
    }
    var (d, ok, _) := Read(fs.dev, fs.base, SUPER_SIZE);
    if ok {
      var fs0 := Start(fs, d);
      NoEntriesOk();
      MigrateAllFacts(fs0, 0, DYNAMIC_INO_BASE - 1);
      var r := LoadAll(fs0, 0, LEGACY_MAX_ENTRIES, true, DYNAMIC_INO_BASE - 1);
      if r.1 {
        SameMoved(fs.(nextData := LEGACY_END), fs0, r.0);
      }
      MigrateAllSucceeds(fs0, 0, DYNAMIC_INO_BASE - 1);
      SameMigratable(fs.(nextData := LEGACY_END), fs0, 0);
    }
  }

  lemma NoEntriesOk()
    ensures EntriesOk(NoEntries())
  {
  }

  lemma SameMoved(fs: Fs, fs0: Fs, fs1: Fs)
    requires Mountable(fs.dev, fs.base, fs.storage) && fs0.base == fs.base && fs0.storage == fs.storage
    requires fs0.nextData == fs.nextData
    requires fs0.dev == fs.dev.(faults := fs0.dev.faults) && |fs1.entries| == MAX_ENTRIES && MovedFrom(fs0, 0, fs1)
    ensures MovedFrom(fs, 0, fs1)
  {
    hide DecodeEntry, Content, Within, Apart;
    forall j | 0 <= j < LEGACY_MAX_ENTRIES
        ensures Moved(fs, fs1, j) && Within(fs1.entries[j], fs.nextData, fs1.nextData) {
      assert Moved(fs0, fs1, j);
    }
  }

  lemma {:induction false} SameRoom(fs: Fs, fs0: Fs, i: nat)
    requires Mountable(fs.dev, fs.base, fs.storage) && fs0.base == fs.base && fs0.storage == fs.storage
    requires fs0.dev == fs.dev.(faults := fs0.dev.faults) && i <= LEGACY_MAX_ENTRIES
    ensures RoomFrom(fs0, i) == RoomFrom(fs, i)
    decreases LEGACY_MAX_ENTRIES - i
  {
    hide DecodeEntry, Room;
    if i < LEGACY_MAX_ENTRIES {
      assert DiskEntry(fs0, i) == DiskEntry(fs, i);
      SameRoom(fs, fs0, i + 1);
    }
  }

  lemma SameMigratable(fs: Fs, fs0: Fs, i: nat)
    requires Mountable(fs.dev, fs.base, fs.storage) && fs0.base == fs.base && fs0.storage == fs.storage
    requires fs0.nextData == fs.nextData
    requires fs0.dev == fs.dev.(faults := fs0.dev.faults) && i <= LEGACY_MAX_ENTRIES
    ensures RoomFrom(fs0, i) == RoomFrom(fs, i) && (Migratable(fs0, i) <==> Migratable(fs, i))
  {
    hide DecodeEntry, RoomFrom, Movable;
    SameRoom(fs, fs0, i);
    forall j | i <= j < LEGACY_MAX_ENTRIES ensures DiskEntry(fs0, j) == DiskEntry(fs, j) {
    }
  }

  /** A migration that stops while copying leaves the version 3 superblock, table and data area as they were. */
  lemma FailedMigrationKeepsOld(fs: Fs)
    requires Mountable(fs.dev, fs.base, fs.storage) && |fs.entries| == MAX_ENTRIES && fs.nextInode < U64
    requires LegacySuperValid(SuperOf(fs))
    requires !Copied(fs).1
    ensures var (fs1, ok) := Mount(fs);
            && !ok && |fs1.dev.bytes| == |fs.dev.bytes|
            && forall k :: 0 <= k < fs.base + LEGACY_END && k < |fs.dev.bytes| ==> fs1.dev.bytes[k] == fs.dev.bytes[k]
  {
    hide Copied, Mount, SuperOf, MovedFrom, Migratable, Healthy;
    MountIsMigration(fs);
    CopiedFacts(fs);
  }

  /** The table and superblock are rewritten below the migrated bytes. */
  lemma RewriteFacts(fs: Fs)
    requires VolumeOk(fs) && fs.limit == MAX_ENTRIES
    ensures var (fs1, ok) := Rewrite(fs);
            && fs1 == fs.(dev := fs1.dev) && SameOutside(fs.dev, fs1.dev, fs.base, fs.base + DATA_OFFSET)
            && (ok ==> SuperOf(fs1) == FRESH_SUPER && forall j :: 0 <= j < MAX_ENTRIES ==>
                DiskEntry(fs1, j) == fs.entries[j])
            && (Healthy(fs.dev) ==> ok && Healthy(fs1.dev))
  {
    hide SyncAll, SyncSuper, DiskEntry, EntryOk, Healthy, DecodeSuper;
    var (fs1, ok) := SyncAll(fs, 0);
    SyncAllFacts(fs, 0);
    if ok {
      SyncSuperFacts(fs1);
      TableKept(fs1, SyncSuper(fs1).0, fs.base, fs.base + SUPER_SIZE);
    }
  }

  /** Slot `j` of a version 3 volume, as a file. */
  function LegacyFile(fs: Fs, j: nat): (r: File)
    requires Mountable(fs.dev, fs.base, fs.storage) && j < LEGACY_MAX_ENTRIES
  {
    var e := DiskEntry(fs, j);
    File(e.kind, e.mode, e.uid, e.gid, e.inode, if e.kind == DIRECTORY then [] else LegacyBytes(fs, j, e.size))
  }

  /** Every slot is as it was, moved to an extent of its own. */
  ghost predicate Preserved(fs: Fs, fs1: Fs)
    requires Mountable(fs.dev, fs.base, fs.storage)
  {
    && |fs1.entries| == MAX_ENTRIES
    && (forall j :: 0 <= j < LEGACY_MAX_ENTRIES ==>
          && fs1.entries[j].inUse == DiskEntry(fs, j).inUse
          && (DiskEntry(fs, j).inUse ==>
              fs1.entries[j].path == DiskEntry(fs, j).path && FileOf(fs1, fs1.entries[j]) == LegacyFile(fs, j)))
    && (forall j :: LEGACY_MAX_ENTRIES <= j < MAX_ENTRIES ==> !fs1.entries[j].inUse)
  }

  lemma MovedIsPreserved(fs: Fs, fs1: Fs)
    requires Mountable(fs.dev, fs.base, fs.storage) && |fs1.entries| == MAX_ENTRIES
    requires forall j :: 0 <= j < LEGACY_MAX_ENTRIES ==> Moved(fs, fs1, j)
    requires forall j :: LEGACY_MAX_ENTRIES <= j < MAX_ENTRIES ==> fs1.entries[j] == EMPTY
    ensures Preserved(fs, fs1)
  {
    hide DiskEntry, Placed, LegacyBytes;
    forall j | 0 <= j < LEGACY_MAX_ENTRIES
      ensures fs1.entries[j].inUse == DiskEntry(fs, j).inUse
      ensures DiskEntry(fs, j).inUse ==>
              fs1.entries[j].path == DiskEntry(fs, j).path && FileOf(fs1, fs1.entries[j]) == LegacyFile(fs, j)
    {
      assert Moved(fs, fs1, j);
    }
  }

  /** The migrated bytes lie above everything the rewrite touches. */
  lemma RewriteKeepsFiles(fs: Fs, fs2: Fs, fs3: Fs)
    requires Mountable(fs.dev, fs.base, fs.storage) && |fs2.entries| == MAX_ENTRIES && fs2.base == fs.base
    requires MovedFrom(fs.(nextData := LEGACY_END), 0, fs2)
    requires fs3.entries == fs2.entries && fs3.base == fs2.base
    requires SameOutside(fs2.dev, fs3.dev, fs.base, fs.base + DATA_OFFSET)
    ensures forall j :: 0 <= j < LEGACY_MAX_ENTRIES ==> Moved(fs, fs3, j)
  {
    hide Placed, DecodeEntry;
    forall j | 0 <= j < LEGACY_MAX_ENTRIES ensures Moved(fs, fs3, j) {
      assert Within(fs2.entries[j], LEGACY_END, fs2.nextData);
      assert Moved(fs.(nextData := LEGACY_END), fs2, j);
    }
  }

  lemma MigratedSafe(fs: Fs, fs3: Fs)
    requires Mountable(fs.dev, fs.base, fs.storage) && VolumeOk(fs3) && fs3.limit == MAX_ENTRIES
    requires fs3.storage == fs.storage
    requires MovedFrom(fs.(nextData := LEGACY_END), 0, fs3) && LEGACY_END <= fs.storage
    requires forall j :: LEGACY_MAX_ENTRIES <= j < MAX_ENTRIES ==> fs3.entries[j] == EMPTY
    requires forall j :: 0 <= j < MAX_ENTRIES ==> DiskEntry(fs3, j) == fs3.entries[j]
    ensures Safe(fs3)
  {
    hide Placed, DiskEntry, Content, LegacyBytes;
    forall j | 0 <= j < MAX_ENTRIES ensures ExtentOk(fs3.entries[j], fs3.nextData) {
      if j < LEGACY_MAX_ENTRIES {
        assert Within(fs3.entries[j], LEGACY_END, fs3.nextData);
        assert Moved(fs.(nextData := LEGACY_END), fs3, j);
      }
    }
    SafeFromMemory(fs3);
  }

  /** Migration preserves every file: if the mount succeeds, each slot holds the same file, with the same bytes in an
      extent of its own, and the volume is a version 4 volume, with safe extents exactly if the version 3 data area lay
      within storage; otherwise it holds no file and next_data_offset is beyond storage. On a healthy device the mount
      succeeds exactly when the volume is migratable. */
  lemma MigrationPreserves(fs: Fs)
    requires Mountable(fs.dev, fs.base, fs.storage) && |fs.entries| == MAX_ENTRIES && fs.nextInode < U64
    requires LegacySuperValid(SuperOf(fs))
    ensures var (fs1, ok) := Mount(fs);
            && (ok ==> (Sane(fs1) <==> LEGACY_END <= fs.storage) && fs1.limit == MAX_ENTRIES && Preserved(fs, fs1))
            && (Healthy(fs.dev) ==> (ok <==> Migratable(fs.(nextData := LEGACY_END), 0)))
  {
    hide Copied, Mount, SuperOf, MovedFrom, Migratable, Healthy, DiskEntry, Preserved, Safe;
    MountIsMigration(fs);
    CopiedFacts(fs);
    var r := Copied(fs);
    if r.1 {
      MovedReady(fs.(nextData := LEGACY_END), r);
      MigrationRewrites(fs, Ready(r));
    }
  }

  lemma MovedReady(fs: Fs, r: (Fs, bool, nat))
    requires Mountable(fs.dev, fs.base, fs.storage) && |r.0.entries| == MAX_ENTRIES && MovedFrom(fs, 0, r.0)
    ensures MovedFrom(fs, 0, Ready(r))
  {
    hide DiskEntry, Within, Apart, Placed, LegacyBytes;
    var fs1 := Ready(r);
    forall j | 0 <= j < LEGACY_MAX_ENTRIES
        ensures Moved(fs, fs1, j) && Within(fs1.entries[j], fs.nextData, fs1.nextData) {
      assert fs1.entries[j] == r.0.entries[j];
      SameContent(r.0, fs1, fs1.entries[j]);
    }
  }

  lemma MigrationRewrites(fs: Fs, fs2: Fs)
    requires Mountable(fs.dev, fs.base, fs.storage) && VolumeOk(fs2) && fs2.limit == MAX_ENTRIES
    requires fs2.base == fs.base && fs2.storage == fs.storage && MovedFrom(fs.(nextData := LEGACY_END), 0, fs2)
    requires forall j :: LEGACY_MAX_ENTRIES <= j < MAX_ENTRIES ==> fs2.entries[j] == EMPTY
    ensures var (fs3, ok) := Rewrite(fs2);
            && (ok ==> (Sane(fs3) <==> LEGACY_END <= fs.storage) && fs3.limit == MAX_ENTRIES && Preserved(fs, fs3))
            && (Healthy(fs2.dev) ==> ok)
  {
    hide Rewrite, SuperOf, Healthy, DiskEntry, Preserved, Safe, EntryOk, Placed;
    var (fs3, ok) := Rewrite(fs2);
    RewriteFacts(fs2);
    if ok {
      RewriteKeepsFiles(fs, fs2, fs3);
      MovedIsPreserved(fs, fs3);
      MovedAgain(fs, fs2, fs3);
      SuperRoundTrip();
      if LEGACY_END <= fs.storage {
        MigratedSafe(fs, fs3);
      }
    }
  }

  lemma MovedAgain(fs: Fs, fs2: Fs, fs3: Fs)
    requires Mountable(fs.dev, fs.base, fs.storage) && |fs2.entries| == MAX_ENTRIES
    requires MovedFrom(fs.(nextData := LEGACY_END), 0, fs2) && fs3 == fs2.(dev := fs3.dev)
    requires forall j :: 0 <= j < LEGACY_MAX_ENTRIES ==> Moved(fs, fs3, j)
    ensures MovedFrom(fs.(nextData := LEGACY_END), 0, fs3)
  {
    hide DecodeEntry, Content, Within, Apart, Placed;
    var fs0 := fs.(nextData := LEGACY_END);
    forall j | 0 <= j < LEGACY_MAX_ENTRIES
        ensures Moved(fs0, fs3, j) && Within(fs3.entries[j], fs0.nextData, fs3.nextData) {
      assert fs3.entries[j] == fs2.entries[j];
      assert Moved(fs, fs3, j);
    }
  }
}
