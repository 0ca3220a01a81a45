/** A migration that fails while it rewrites the table: the superblock is still that of version 3, and the new table has
    grown over the slots of old files. What a later mount then reads is stated exactly. */
module AosfsInterrupted {
  import opened Blkdev
  import opened LittleEndian
  import opened AosfsFormat
  import opened Aosfs
  import opened AosfsExtents
  import opened AosfsSteps
  import opened AosfsViews
  import opened AosfsSound
  import opened AosfsMount
  import opened AosfsRemount
  import opened AosfsMigration

  /** The first entry from `i` on that cannot be written, or MAX_ENTRIES. */
  function FirstUnsynced(fs: Fs, i: nat): (k: nat)
    requires VolumeOk(fs) && i <= MAX_ENTRIES
    ensures i <= k <= MAX_ENTRIES
    decreases MAX_ENTRIES - i
  {
    if i == MAX_ENTRIES then i
    else
      var (fs1, ok) := Sync(fs, i);
      if ok then FirstUnsynced(fs1, i + 1) else i
  }

  /** Entries `i` to `k - 1` are on the disk of `fs1`, and nothing else differs. */
  ghost predicate Wrote(fs: Fs, fs1: Fs, i: nat, k: nat)
    requires VolumeOk(fs) && i <= k <= MAX_ENTRIES
  {
    && fs1 == fs.(dev := fs1.dev)
    && SameOutside(fs.dev, fs1.dev, fs.base + EntryAt(i), fs.base + EntryAt(k))
    && forall j {:trigger EntryAt(j)} :: i <= j < k ==>
         fs1.dev.bytes[fs.base + EntryAt(j)..fs.base + EntryAt(j) + ENTRY_SIZE] == EncodeEntry(fs.entries[j])
  }

  lemma SyncWrote(fs: Fs, i: nat)
    requires VolumeOk(fs) && fs.limit == MAX_ENTRIES && i < MAX_ENTRIES
    ensures var (fs1, ok) := Sync(fs, i);
            if ok then Wrote(fs, fs1, i, i + 1) else fs1.dev.bytes == fs.dev.bytes && Wrote(fs, fs1, i, i)
  {
    hide EncodeEntry, Write, EntryOk, Aligned;
    var at, data := fs.base + EntryAt(i), EncodeEntry(fs.entries[i]);
    WriteOutside(fs.dev, at, data);
    EntryWriteIsAtomic(fs.dev, fs.base, i, data);
  }

  lemma {:induction false} SyncAllWrote(fs: Fs, i: nat)
    requires VolumeOk(fs) && fs.limit == MAX_ENTRIES && i <= MAX_ENTRIES
    ensures var (fs1, ok) := SyncAll(fs, i);
            var k := FirstUnsynced(fs, i);
            (ok <==> k == MAX_ENTRIES) && Wrote(fs, fs1, i, k)
    decreases MAX_ENTRIES - i
  {
    hide Sync, EncodeEntry, EntryOk, Aligned;
    if i < MAX_ENTRIES {
      SyncWrote(fs, i);
      var (fs1, ok) := Sync(fs, i);
      if ok {
        SyncAllWrote(fs1, i + 1);
        WroteMore(fs, fs1, SyncAll(fs1, i + 1).0, i, FirstUnsynced(fs1, i + 1));
      }
    }
  }

  lemma WroteMore(fs: Fs, fs1: Fs, fs2: Fs, i: nat, k: nat)
    requires VolumeOk(fs) && VolumeOk(fs1) && i < k <= MAX_ENTRIES
    requires Wrote(fs, fs1, i, i + 1) && Wrote(fs1, fs2, i + 1, k)
    ensures Wrote(fs, fs2, i, k)
  {
    hide EncodeEntry, EntryOk, Aligned;
    forall j | i <= j < k
      ensures fs2.dev.bytes[fs.base + EntryAt(j)..fs.base + EntryAt(j) + ENTRY_SIZE] == EncodeEntry(fs.entries[j])
    {
      if j == i {
        SameSlice(fs1.dev, fs2.dev, fs.base + EntryAt(i + 1), fs.base + EntryAt(k), fs.base + EntryAt(i), ENTRY_SIZE);
      }
    }
  }

  // What is left of the old files

  /** The byte that unused entries of the new table put at offset `at` of the volume. */
  function BlankAt(at: nat): (b: byte)
    requires at >= TABLE_OFFSET
  {
    EmptyEntryOk();
    EncodeEntry(EMPTY)[(at - TABLE_OFFSET) % ENTRY_SIZE]
  }

  lemma EmptyEntryOk()
    ensures EntryOk(EMPTY)
  {
  }

  /** The byte at offset `at` once the first `k` entries of the new table are written. */
  function Laid(at: nat, k: nat, before: byte): (b: byte)
    requires at >= TABLE_OFFSET
  {
    if at < EntryAt(k) then BlankAt(at) else before
  }

  /** The bytes of a file in slot `j` once the first `k` entries of the new table are written. */
  function Overwritten(fs: Fs, j: nat, size: nat, k: nat): (bytes: Bytes)
  {
    var before := LegacyBytes(fs, j, size);
    seq(|before|, (x: nat) requires x < |before| => Laid(LegacyAt(j) + x, k, before[x]))
  }

  /** Slot `j` of a version 3 volume, as a file, after that. */
  function LegacyFileAfter(fs: Fs, j: nat, k: nat): (r: File)
    requires Mountable(fs.dev, fs.base, fs.storage) && j < LEGACY_MAX_ENTRIES
  {
    var e := DiskEntry(fs, j);
    LegacyFile(fs, j).(data := if e.kind == DIRECTORY then [] else Overwritten(fs, j, e.size, k))
  }

  /** The disk `fs1` holds the version 3 volume `fs` with the first `k` entries of the new table written over it. */
  ghost predicate Stopped(fs: Fs, fs2: Fs, fs1: Fs, k: nat)
  {
    && Mountable(fs.dev, fs.base, fs.storage) && VolumeOk(fs2) && fs2.base == fs.base && fs2.storage == fs.storage
    && SameOutside(fs.dev, fs2.dev, fs.base + LEGACY_END, fs.base + fs.storage)
    && k <= MAX_ENTRIES && Wrote(fs2, fs1, 0, k)
    && (forall j :: 0 <= j < LEGACY_MAX_ENTRIES ==> Moved(fs, fs2, j))
    && (forall j :: LEGACY_MAX_ENTRIES <= j < MAX_ENTRIES ==> fs2.entries[j] == EMPTY)
  }

  lemma ByteAfter(fs: Fs, fs2: Fs, fs1: Fs, k: nat, at: nat)
    requires Stopped(fs, fs2, fs1, k) && LEGACY_DATA_OFFSET <= at < LEGACY_END && fs.base + at < |fs.dev.bytes|
    ensures |fs1.dev.bytes| == |fs.dev.bytes|
    ensures fs1.dev.bytes[fs.base + at] == Laid(at, k, fs.dev.bytes[fs.base + at])
  {
    hide EncodeEntry, EntryOk, Moved;
    if at < EntryAt(k) {
      var m := (at - TABLE_OFFSET) / ENTRY_SIZE;
      assert LEGACY_MAX_ENTRIES <= m < k;
      var slot := fs1.dev.bytes[fs.base + EntryAt(m)..fs.base + EntryAt(m) + ENTRY_SIZE];
      assert slot == EncodeEntry(fs2.entries[m]);
      assert slot[(at - TABLE_OFFSET) % ENTRY_SIZE] == fs1.dev.bytes[fs.base + at];
    }
  }

  lemma BytesAfter(fs: Fs, fs2: Fs, fs1: Fs, k: nat, j: nat, size: nat)
    requires Stopped(fs, fs2, fs1, k) && j < LEGACY_MAX_ENTRIES && size <= INLINE_CAPACITY
    ensures LegacyBytes(fs1, j, size) == Overwritten(fs, j, size, k)
  {
    hide Stopped, Laid;
    assert |fs1.dev.bytes| == |fs.dev.bytes| && fs1.base == fs.base by { StoppedShape(fs, fs2, fs1, k); }
    var a, b := LegacyBytes(fs1, j, size), Overwritten(fs, j, size, k);
    forall x | 0 <= x < |a| ensures a[x] == b[x] {
      ByteAfter(fs, fs2, fs1, k, LegacyAt(j) + x);
    }
    assert |a| == |b|;
  }

  lemma StoppedShape(fs: Fs, fs2: Fs, fs1: Fs, k: nat)
    requires Stopped(fs, fs2, fs1, k)
    ensures SameShape(fs.dev, fs1.dev) && fs1.base == fs.base && fs1.storage == fs.storage
    ensures |fs1.entries| == MAX_ENTRIES && fs1.nextInode < U64 && Mountable(fs1.dev, fs1.base, fs1.storage)
    ensures SuperOf(fs1) == SuperOf(fs)
  {
    hide Moved, DecodeSuper, EntryOk, EncodeEntry;
    SuperKept(fs, fs2, fs.base + LEGACY_END, fs.base + fs.storage);
    SuperKept(fs2, fs1, fs.base + EntryAt(0), fs.base + EntryAt(k));
  }

  lemma EntryAfter(fs: Fs, fs2: Fs, fs1: Fs, k: nat, j: nat)
    requires Stopped(fs, fs2, fs1, k) && j < LEGACY_MAX_ENTRIES && Mountable(fs1.dev, fs1.base, fs1.storage)
    ensures var e, e1 := DiskEntry(fs, j), DiskEntry(fs1, j);
            e1.inUse == e.inUse && (e.inUse ==> e1 == e.(offset := e1.offset, capacity := e1.capacity))
  {
    hide DecodeEntry, EncodeEntry, EntryOk;
    assert Moved(fs, fs2, j);
    SameSlice(fs.dev, fs2.dev, fs.base + LEGACY_END, fs.base + fs.storage, fs.base + EntryAt(j), ENTRY_SIZE);
    if j < k {
      EntryRoundTrip(fs2.entries[j]);
    } else {
      SameSlice(fs2.dev, fs1.dev, fs.base + EntryAt(0), fs.base + EntryAt(k), fs.base + EntryAt(j), ENTRY_SIZE);
    }
  }

  lemma FileAfter(fs: Fs, fs2: Fs, fs1: Fs, k: nat, j: nat)
    requires Stopped(fs, fs2, fs1, k) && j < LEGACY_MAX_ENTRIES && Mountable(fs1.dev, fs1.base, fs1.storage)
    requires DiskEntry(fs, j).inUse
    ensures LegacyFile(fs1, j) == LegacyFileAfter(fs, j, k)
  {
    hide DiskEntry, LegacyBytes, Overwritten, Wrote, Placed;
    EntryAfter(fs, fs2, fs1, k, j);
    assert Moved(fs, fs2, j);
    if DiskEntry(fs, j).kind != DIRECTORY {
      BytesAfter(fs, fs2, fs1, k, j, DiskEntry(fs, j).size);
    }
  }

  lemma {:induction false} RoomAfter(fs: Fs, fs1: Fs, i: nat)
    requires Mountable(fs.dev, fs.base, fs.storage) && Mountable(fs1.dev, fs1.base, fs1.storage)
    requires i <= LEGACY_MAX_ENTRIES
    requires forall j :: i <= j < LEGACY_MAX_ENTRIES ==> Room(DiskEntry(fs1, j)) == Room(DiskEntry(fs, j))
    ensures RoomFrom(fs1, i) == RoomFrom(fs, i)
    decreases LEGACY_MAX_ENTRIES - i
  {
    hide DiskEntry, Room;
    if i < LEGACY_MAX_ENTRIES {
      RoomAfter(fs, fs1, i + 1);
    }
  }

  lemma MigratableAfter(fs: Fs, fs2: Fs, fs1: Fs, k: nat)
    requires Stopped(fs, fs2, fs1, k) && Mountable(fs1.dev, fs1.base, fs1.storage)
    requires Migratable(fs.(nextData := LEGACY_END), 0)
    ensures Migratable(fs1.(nextData := LEGACY_END), 0)
  {
    hide DiskEntry, Stopped;
    var a, b := fs.(nextData := LEGACY_END), fs1.(nextData := LEGACY_END);
    StoppedShape(fs, fs2, fs1, k);
    forall j | 0 <= j < LEGACY_MAX_ENTRIES
      ensures Room(DiskEntry(b, j)) == Room(DiskEntry(a, j)) && Movable(DiskEntry(b, j))
    {
      SameEntry(fs, a, j);
      SameEntry(fs1, b, j);
      EntryAfter(fs, fs2, fs1, k, j);
      assert Movable(DiskEntry(a, j));
    }
    RoomAfter(a, b, 0);
  }

  lemma SameEntry(fs: Fs, fs1: Fs, j: nat)
    requires Mountable(fs.dev, fs.base, fs.storage) && fs1.base == fs.base && fs1.storage == fs.storage
    requires fs1.dev == fs.dev.(faults := fs1.dev.faults) && j < MAX_ENTRIES
    ensures DiskEntry(fs1, j) == DiskEntry(fs, j) && SuperOf(fs1) == SuperOf(fs)
    ensures j < LEGACY_MAX_ENTRIES ==> LegacyFile(fs1, j) == LegacyFile(fs, j)
  {
    hide DecodeEntry, DecodeSuper;
  }

  // The interrupted mount and the next one

  /** An instance on a device large enough for a volume. */
  predicate CanMount(fs: Fs)
  {
    Mountable(fs.dev, fs.base, fs.storage) && |fs.entries| == MAX_ENTRIES && fs.nextInode < U64
  }

  /** The state in which the table is rewritten. */
  function Rewriting(fs: Fs): (fs2: Fs)
    requires Mountable(fs.dev, fs.base, fs.storage)
    ensures Copied(fs).1 ==> VolumeOk(fs2)
  {
    ReadyOk(fs);
    Ready(Copied(fs))
  }

  lemma ReadyOk(fs: Fs)
    requires Mountable(fs.dev, fs.base, fs.storage)
    ensures Copied(fs).1 ==> VolumeOk(Ready(Copied(fs)))
  {
    hide Copied, EntryOk;
  }

  /** The superblock is as it was. */
  predicate SuperSame(fs: Fs, fs1: Fs)
  {
    && |fs1.dev.bytes| == |fs.dev.bytes| >= fs.base + SUPER_SIZE
    && fs1.dev.bytes[fs.base..fs.base + SUPER_SIZE] == fs.dev.bytes[fs.base..fs.base + SUPER_SIZE]
  }

  lemma RewriteWrote(fs: Fs)
    requires VolumeOk(fs) && fs.limit == MAX_ENTRIES
    ensures var (fs1, ok) := Rewrite(fs);
            && fs1 == fs.(dev := fs1.dev)
            && (FirstUnsynced(fs, 0) < MAX_ENTRIES ==> !ok && SuperSame(fs, fs1))
            && (!ok && SuperSame(fs, fs1) ==> Wrote(fs, fs1, 0, FirstUnsynced(fs, 0)))
  {
    hide SyncAll, SyncSuper, EntryOk, EncodeEntry, FirstUnsynced, Aligned, Healthy, SuperOf;
    SyncAllWrote(fs, 0);
    var (fs1, ok) := SyncAll(fs, 0);
    if ok {
      SyncSuperFacts(fs1);
      SuperUndone(fs, fs1, SyncSuper(fs1).0);
    } else {
      SameSlice(fs.dev, fs1.dev, fs.base + EntryAt(0), fs.base + EntryAt(FirstUnsynced(fs, 0)), fs.base, SUPER_SIZE);
    }
  }

  lemma SuperUndone(fs: Fs, fs1: Fs, fs3: Fs)
    requires VolumeOk(fs) && Wrote(fs, fs1, 0, MAX_ENTRIES) && fs3 == fs1.(dev := fs3.dev)
    requires SameOutside(fs1.dev, fs3.dev, fs.base, fs.base + SUPER_SIZE)
    ensures SuperSame(fs, fs3) ==> Wrote(fs, fs3, 0, MAX_ENTRIES)
  {
    hide EntryOk, EncodeEntry, Aligned;
    if SuperSame(fs, fs3) {
      SameSlice(fs.dev, fs1.dev, fs.base + EntryAt(0), fs.base + EntryAt(MAX_ENTRIES), fs.base, SUPER_SIZE);
      forall x | fs.base <= x < fs.base + SUPER_SIZE ensures fs3.dev.bytes[x] == fs1.dev.bytes[x] {
        assert fs3.dev.bytes[x] == fs3.dev.bytes[fs.base..fs.base + SUPER_SIZE][x - fs.base];
        assert fs1.dev.bytes[x] == fs1.dev.bytes[fs.base..fs.base + SUPER_SIZE][x - fs.base];
      }
      assert fs3.dev.bytes == fs1.dev.bytes;
    }
  }

  lemma RewriteStops(fs: Fs)
    requires CanMount(fs) && LegacySuperValid(SuperOf(fs)) && Copied(fs).1
    ensures FirstUnsynced(Rewriting(fs), 0) < MAX_ENTRIES ==> !Mount(fs).1 && SuperSame(fs, Mount(fs).0)
    ensures !Mount(fs).1 && SuperSame(fs, Mount(fs).0) ==>
              Stopped(fs, Rewriting(fs), Mount(fs).0, FirstUnsynced(Rewriting(fs), 0))
  {
    hide Copied, Mount, SuperOf, MovedFrom, Migratable, Healthy, Rewrite, Wrote, FirstUnsynced;
    var fs0 := fs.(nextData := LEGACY_END);
    MountIsMigration(fs);
    CopiedFacts(fs);
    MovedReady(fs0, Copied(fs));
    var fs2 := Rewriting(fs);
    SameSlice(fs.dev, fs2.dev, fs.base + LEGACY_END, fs.base + fs.storage, fs.base, SUPER_SIZE);
    RewriteWrote(fs2);
    forall j | 0 <= j < LEGACY_MAX_ENTRIES ensures Moved(fs, fs2, j) {
      MovedAt(fs, fs2, j);
    }
  }

  lemma MovedAt(fs: Fs, fs2: Fs, j: nat)
    requires Mountable(fs.dev, fs.base, fs.storage) && j < LEGACY_MAX_ENTRIES && |fs2.entries| == MAX_ENTRIES
    requires MovedFrom(fs.(nextData := LEGACY_END), 0, fs2)
    ensures Moved(fs, fs2, j)
  {
    hide DecodeEntry, Content, Within, Apart;
    var fs0 := fs.(nextData := LEGACY_END);
    assert Moved(fs0, fs2, j);
  }

  /** The same volume on a device that fails no more. */
  function Repaired(fs: Fs): (r: Fs)
  {
    fs.(dev := fs.dev.(faults := []))
  }

  /** Every slot of `fs1` holds the file of that slot of the version 3 volume, less what the first `k` entries of the
      new table have overwritten. */
  ghost predicate Salvaged(fs: Fs, fs1: Fs, k: nat)
    requires Mountable(fs.dev, fs.base, fs.storage)
  {
    && |fs1.entries| == MAX_ENTRIES
    && (forall j :: 0 <= j < LEGACY_MAX_ENTRIES ==>
          && fs1.entries[j].inUse == DiskEntry(fs, j).inUse
          && (DiskEntry(fs, j).inUse ==>
                && fs1.entries[j].path == DiskEntry(fs, j).path
                && FileOf(fs1, fs1.entries[j]) == LegacyFileAfter(fs, j, k)))
  }

  lemma PreservedIsSalvaged(fs: Fs, fs2: Fs, fs1: Fs, later: Fs, fs3: Fs, k: nat)
    requires Stopped(fs, fs2, fs1, k) && Mountable(fs1.dev, fs1.base, fs1.storage) && later == Repaired(fs1)
    requires Preserved(later, fs3)
    ensures Mountable(fs.dev, fs.base, fs.storage) && Salvaged(fs, fs3, k)
  {
    hide SuperOf, LegacyFile, LegacyFileAfter, DiskEntry, Wrote, Moved;
    forall j | 0 <= j < LEGACY_MAX_ENTRIES
      ensures fs3.entries[j].inUse == DiskEntry(fs, j).inUse
      ensures DiskEntry(fs, j).inUse ==>
        fs3.entries[j].path == DiskEntry(fs, j).path && FileOf(fs3, fs3.entries[j]) == LegacyFileAfter(fs, j, k)
    {
      EntryAfter(fs, fs2, fs1, k, j);
      SameEntry(fs1, later, j);
      if DiskEntry(fs, j).inUse {
        FileAfter(fs, fs2, fs1, k, j);
      }
    }
  }

  /** A migration that fails after copying, with the superblock still that of version 3: the next mount migrates again,
      and reads every file back except for the bytes under the entries that the rewrite of the table got to. */
  lemma InterruptedMigration(fs: Fs)
    requires CanMount(fs) && LegacySuperValid(SuperOf(fs)) && Healthy(Repaired(fs).dev)
    requires Copied(fs).1 && !Mount(fs).1 && SuperSame(fs, Mount(fs).0)
    ensures var later := Repaired(Mount(fs).0);
            CanMount(later) && Mount(later).1 && Salvaged(fs, Mount(later).0, FirstUnsynced(Rewriting(fs), 0))
  {
    hide Copied, Mount, SuperOf, MovedFrom, Migratable, Stopped, Salvaged, FirstUnsynced, Healthy, Placed, SuperSame;
    RewriteStops(fs);
    CopiedFacts(fs);
    RepairedMounts(fs, Rewriting(fs), Mount(fs).0, FirstUnsynced(Rewriting(fs), 0));
  }

  lemma RepairedHealthy(fs: Fs, fs1: Fs)
    requires SameShape(fs.dev, fs1.dev) && Healthy(Repaired(fs).dev)
    ensures Healthy(Repaired(fs1).dev)
  {
  }

  /** It can be migrated once more. */
  lemma RepairedReady(fs: Fs, fs2: Fs, fs1: Fs, k: nat)
    requires Stopped(fs, fs2, fs1, k) && LegacySuperValid(SuperOf(fs)) && Migratable(fs.(nextData := LEGACY_END), 0)
    ensures Mountable(fs1.dev, fs1.base, fs1.storage)
    ensures var later := Repaired(fs1);
            CanMount(later) && LegacySuperValid(SuperOf(later)) && Migratable(later.(nextData := LEGACY_END), 0)
  {
    hide SuperOf, Migratable, Stopped, LegacySuperValid, Mountable, SameShape;
    StoppedShape(fs, fs2, fs1, k);
    MigratableAfter(fs, fs2, fs1, k);
    RepairedSame(fs1);
  }

  lemma RepairedSame(fs: Fs)
    requires Mountable(fs.dev, fs.base, fs.storage)
    ensures var later := Repaired(fs);
            && Mountable(later.dev, later.base, later.storage) && SuperOf(later) == SuperOf(fs)
            && (Migratable(later.(nextData := LEGACY_END), 0) <==> Migratable(fs.(nextData := LEGACY_END), 0))
  {
    hide SuperOf, Migratable, DiskEntry, LegacyFile, RoomFrom;
    var later := Repaired(fs);
    SameEntry(fs, later, 0);
    SameMigratable(fs.(nextData := LEGACY_END), later.(nextData := LEGACY_END), 0);
  }

  lemma RepairedMounts(fs: Fs, fs2: Fs, fs1: Fs, k: nat)
    requires Stopped(fs, fs2, fs1, k) && LegacySuperValid(SuperOf(fs)) && Healthy(Repaired(fs).dev)
    requires Migratable(fs.(nextData := LEGACY_END), 0)
    ensures var later := Repaired(fs1);
            CanMount(later) && Mount(later).1 && Salvaged(fs, Mount(later).0, k)
  {
    hide Mount, SuperOf, Migratable, Stopped, Sane, Preserved, Salvaged, Healthy, Placed, LegacySuperValid;
    StoppedShape(fs, fs2, fs1, k);
    RepairedReady(fs, fs2, fs1, k);
    RepairedHealthy(fs, fs1);
    MigrationPreserves(Repaired(fs1));
    PreservedIsSalvaged(fs, fs2, fs1, Repaired(fs1), Mount(Repaired(fs1)).0, k);
  }

  /** A file survives exactly if none of its bytes under the written entries differs from theirs. */
  lemma SurvivesIff(fs: Fs, j: nat, k: nat)
    requires Mountable(fs.dev, fs.base, fs.storage) && j < LEGACY_MAX_ENTRIES
    ensures LegacyFileAfter(fs, j, k) == LegacyFile(fs, j) <==>
              forall x :: 0 <= x < |LegacyFile(fs, j).data| && LegacyAt(j) + x < EntryAt(k) ==>
                LegacyFile(fs, j).data[x] == BlankAt(LegacyAt(j) + x)
  {
    hide DiskEntry, LegacyBytes, BlankAt;
    var a, b := LegacyFileAfter(fs, j, k).data, LegacyFile(fs, j).data;
    assert |a| == |b| && forall x :: 0 <= x < |a| ==> a[x] == Laid(LegacyAt(j) + x, k, b[x]);
    if LegacyFileAfter(fs, j, k) == LegacyFile(fs, j) {
      forall x | 0 <= x < |b| && LegacyAt(j) + x < EntryAt(k) ensures b[x] == BlankAt(LegacyAt(j) + x) {
        assert a[x] == b[x];
      }
    }
  }
}
