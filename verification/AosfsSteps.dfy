/** Every AOSFS operation, whether it succeeds or fails half-way, touches one slot and no byte of any other file. */
module AosfsSteps {
  import opened Blkdev
  import opened LittleEndian
  import opened AosfsFormat
  import opened Aosfs
  import opened AosfsExtents

  /** The bytes of the file an entry describes. */
  function Content(fs: Fs, e: Entry): (r: Bytes)
  {
    var at := fs.base + e.offset;
    if e.kind != DIRECTORY && at + e.size <= |fs.dev.bytes| then fs.dev.bytes[at..at + e.size] else []
  }

  /** From `fs` to `fs'` extents stay safe, and apart from slot `i` nothing changes: not another slot in memory or
      on disk, not a byte of the file it describes, not a byte of the superblock or outside the volume. */
  ghost predicate Only(fs: Fs, fs': Fs, i: nat)
    ensures Only(fs, fs', i) ==>
            Safe(fs) && Safe(fs') && fs'.limit == fs.limit && fs'.base == fs.base && fs'.storage == fs.storage
  {
    && Safe(fs) && Safe(fs') && OthersKept(fs, fs', i) && fs'.base == fs.base && fs'.initrd == fs.initrd
    && fs.nextData <= fs'.nextData
    && SameOutside(fs.dev, fs'.dev, fs.base + TABLE_OFFSET, fs.base + fs.storage)
    && (forall w, j {:trigger Slot(fs, w, j)} :: 0 <= j < fs.limit && j != i ==>
          Content(fs', Slot(fs, w, j)) == Content(fs, Slot(fs, w, j)))
  }

  lemma OnlyRefl(fs: Fs, i: nat)
    requires Safe(fs)
    ensures Only(fs, fs, i)
  {
  }

  lemma OnlyTrans(a: Fs, b: Fs, c: Fs, i: nat)
    requires Only(a, b, i) && Only(b, c, i)
    ensures Only(a, c, i)
  {
    hide Safe, Content, Mountable, DiskEntry, EntryOk, Slot;
    assert VolumeOk(a) && VolumeOk(b) && VolumeOk(c);
    forall w, j | 0 <= j < a.limit && j != i
      ensures Slot(c, w, j) == Slot(a, w, j) && Content(c, Slot(a, w, j)) == Content(a, Slot(a, w, j))
    {
      assert Slot(b, w, j) == Slot(a, w, j);
    }
  }

  /** Bytes of free space, or of slot `i`'s own extent, may change. */
  lemma DataOnly(fs: Fs, d: Device, lo: nat, hi: nat, i: nat)
    requires Safe(fs) && i < fs.limit && SameOutside(fs.dev, d, fs.base + lo, fs.base + hi) && hi <= fs.storage
    requires lo >= fs.nextData
             || (fs.entries[i].capacity != 0 && fs.entries[i].offset <= lo
                 && hi <= fs.entries[i].offset + fs.entries[i].capacity)
    ensures Only(fs, fs.(dev := d), i)
  {
    hide Mountable, EntryOk, DiskEntry;
    var fs' := fs.(dev := d);
    assert ExtentOk(Slot(fs, false, i), fs.nextData);
    assert lo >= DATA_OFFSET;
    SwapDevice(fs, d);
    DataKeepsTable(fs, d, fs.base + lo, fs.base + hi);
    forall w, j | 0 <= j < fs.limit && j != i ensures Content(fs', Slot(fs, w, j)) == Content(fs, Slot(fs, w, j)) {
      assert Apart(Slot(fs, false, i), Slot(fs, w, j)) && ExtentOk(Slot(fs, w, j), fs.nextData);
    }
    forall w, j | 0 <= j < fs.limit ensures Slot(fs', w, j) == Slot(fs, w, j) {
    }
    SafeAgain(fs, fs');
  }

  lemma SafeAgain(fs: Fs, fs': Fs)
    requires Safe(fs) && VolumeOk(fs') && fs'.limit == fs.limit && fs'.nextData == fs.nextData
    requires fs'.storage == fs.storage
    requires forall w, j {:trigger Slot(fs', w, j)} :: 0 <= j < fs.limit ==> Slot(fs', w, j) == Slot(fs, w, j)
    ensures Safe(fs')
  {
    hide Mountable, EntryOk, DiskEntry;
    hide Slot;
    forall w, v, j, k | 0 <= j < fs.limit && 0 <= k < fs.limit && j != k
        ensures Apart(Slot(fs', w, j), Slot(fs', v, k)) {
      assert Apart(Slot(fs, w, j), Slot(fs, v, k));
    }
  }

  /** A written-through entry that fits changes only its slot. */
  lemma SyncOnly(fs: Fs, i: nat, e: Entry)
    requires Safe(fs) && i < fs.limit && Fits(fs, i, e, fs.nextData)
    ensures VolumeOk(Put(fs, i, e))
    ensures Only(fs, Sync(Put(fs, i, e), i).0, i)
  {
    hide EntryOk, DiskEntry, Safe, Fits, Only;
    hide EncodeEntry, Write, Sync;
    PutSync(fs, i, e);
    SyncFacts(Put(fs, i, e), i);
    TableOnly(fs, Sync(Put(fs, i, e), i).0, i);
  }

  lemma SameContent(fs: Fs, fs': Fs, e: Entry)
    requires fs'.dev == fs.dev && fs'.base == fs.base
    ensures Content(fs', e) == Content(fs, e)
  {
  }

  lemma TableKeepsData(fs: Fs, d: Device, i: nat)
    requires Safe(fs) && i < fs.limit && SameOutside(fs.dev, d, fs.base + EntryAt(i), fs.base + EntryAt(i + 1))
    ensures forall w, j {:trigger Slot(fs, w, j)} :: 0 <= j < fs.limit ==>
              Content(fs.(dev := d), Slot(fs, w, j)) == Content(fs, Slot(fs, w, j))
  {
    hide Mountable, EntryOk, DiskEntry;
    forall w, j | 0 <= j < fs.limit ensures Content(fs.(dev := d), Slot(fs, w, j)) == Content(fs, Slot(fs, w, j)) {
      assert ExtentOk(Slot(fs, w, j), fs.nextData);
    }
  }

  // The operations

  lemma EmptyFits(fs: Fs, i: nat)
    requires Safe(fs) && i < fs.limit
    ensures Fits(fs, i, EMPTY, fs.nextData)
  {
    SameExtentFits(fs, i, false, EMPTY);
  }

  /** Unused entries occupy nothing, so clearing or filling a slot is safe. */
  lemma AddEntryOnly(fs: Fs, kind: nat, mode: nat, uid: nat, gid: nat, path: Bytes)
    requires Safe(fs) && uid < U32 && gid < U32 && |path| < PATH_MAX && 0 !in path && kind <= SYMLINK
    ensures Only(fs, AddEntry(fs, kind, mode, uid, gid, path).0, FreeFrom(fs, 0))
  {
    hide Mountable, EntryOk, DiskEntry, Safe, Only, Sync, ExtentOk, Fits;
    var i := FreeFrom(fs, 0);
    if i == fs.limit {
      OnlyRefl(fs, i);
    } else {
      var e := NewEntry(kind, mode, uid, gid, fs.nextInode, path);
      var fsn := fs.(nextInode := (fs.nextInode + 1) % U64);
      NewEntryOk(fs, kind, mode, uid, gid, path);
      InodeOnly(fs, fsn, i);
      SameExtentFits(fsn, i, false, e);
      SyncOnly(fsn, i, e);
      var (fs1, ok) := Sync(Put(fsn, i, e), i);
      OnlyTrans(fs, fsn, fs1, i);
      if !ok {
        ClearOnly(fs1, i);
        OnlyTrans(fs, fs1, Put(fs1, i, EMPTY), i);
      }
    }
  }

  lemma NewEntryOk(fs: Fs, kind: nat, mode: nat, uid: nat, gid: nat, path: Bytes)
    requires VolumeOk(fs) && uid < U32 && gid < U32 && |path| < PATH_MAX && 0 !in path && kind <= SYMLINK
    ensures ExtentOk(NewEntry(kind, mode, uid, gid, fs.nextInode, path), fs.nextData)
  {
  }

  lemma InodeOnly(fs: Fs, fs': Fs, i: nat)
    requires Safe(fs) && fs' == fs.(nextInode := fs'.nextInode) && fs'.nextInode < U64
    ensures Only(fs, fs', i)
  {
    hide Mountable, EntryOk;
    assert VolumeOk(fs');
    SameDevice(fs, fs');
    SafeAgain(fs, fs');
  }

  /** Forgetting an entry in memory. */
  lemma ClearOnly(fs: Fs, i: nat)
    requires Safe(fs) && i < fs.limit
    ensures Only(fs, Put(fs, i, EMPTY), i)
  {
    hide Mountable, EntryOk, DiskEntry, ExtentOk, Safe, Fits;
    var fs' := Put(fs, i, EMPTY);
    assert VolumeOk(fs') by { ClearedOk(fs, i); }
    SameDevice(fs, fs');
    EmptyFits(fs, i);
    KeepsFits(fs, i, true, fs.nextData);
    OneSlotChanged(fs, fs', i);
  }

  lemma ClearedOk(fs: Fs, i: nat)
    requires VolumeOk(fs) && i < fs.limit
    ensures VolumeOk(Put(fs, i, EMPTY))
  {
    hide Mountable;
  }

  /** What an attempt to change an extent leaves behind. */
  lemma CommitFacts(fs: Fs, i: nat, offset: nat, capacity: nat)
    requires VolumeOk(fs) && i < fs.limit && fs.entries[i].inUse && offset < U64 && capacity < U64
    ensures var (fs1, ok) := Commit(fs, i, offset, capacity);
            && OthersKept(fs, fs1, i)
            && SameOutside(fs.dev, fs1.dev, fs.base + EntryAt(i), fs.base + EntryAt(i + 1))
            && DiskEntry(fs1, i) == if ok then fs1.entries[i] else DiskEntry(fs, i)
  {
    hide DiskEntry, EncodeEntry, Write, EntryOk, Sync, Mountable;
    var e := fs.entries[i].(offset := offset, capacity := capacity);
    assert EntryOk(e) by { EntryStaysOk(fs.entries[i], offset, capacity); }
    var fs0 := Put(fs, i, e);
    assert VolumeOk(fs0);
    var fs1, fs' := Sync(fs0, i).0, Commit(fs, i, offset, capacity).0;
    SyncFacts(fs0, i);
    SameDevice(fs, fs0);
    SameDevice(fs1, fs');
  }

  lemma EntryStaysOk(e: Entry, offset: nat, capacity: nat)
    requires EntryOk(e) && e.inUse && offset < U64 && capacity < U64
    ensures EntryOk(e.(offset := offset, capacity := capacity))
  {
  }

  /** A successful or failed change of extent. */
  lemma CommitOnly(fs: Fs, i: nat, offset: nat, capacity: nat)
    requires Safe(fs) && i < fs.limit && fs.entries[i].inUse && fs.entries[i].kind != DIRECTORY
    requires fs.entries[i].size <= capacity && 0 < capacity && offset + capacity <= fs.storage
    requires offset >= fs.nextData || (offset == fs.entries[i].offset && fs.entries[i].capacity != 0
             && offset + fs.entries[i].capacity == fs.nextData && fs.nextData <= offset + capacity)
    ensures offset < U64 && capacity < U64 && Only(fs, Commit(fs, i, offset, capacity).0, i)
  {
    hide DiskEntry, Fits, Commit, Content;
    assert ExtentOk(Slot(fs, false, i), fs.nextData);
    var e := fs.entries[i].(offset := offset, capacity := capacity);
    assert ExtentOk(e, offset + capacity);
    FreshExtentFits(fs, i, e, offset + capacity);
    var (fs', ok) := Commit(fs, i, offset, capacity);
    CommitFacts(fs, i, offset, capacity);
    CommitSafe(fs, fs', i, e, ok);
    TableOnly(fs, fs', i);
  }

  /** A change of one table entry that keeps extents safe changes nothing else. */
  lemma TableOnly(fs: Fs, fs': Fs, i: nat)
    requires Safe(fs) && Safe(fs') && i < fs.limit && OthersKept(fs, fs', i)
    requires fs'.base == fs.base && fs'.initrd == fs.initrd && fs.nextData <= fs'.nextData
    requires SameOutside(fs.dev, fs'.dev, fs.base + EntryAt(i), fs.base + EntryAt(i + 1))
    ensures Only(fs, fs', i)
  {
    hide EntryOk, DiskEntry, Safe, Content;
    TableKeepsData(fs, fs'.dev, i);
    forall w, j | 0 <= j < fs.limit && j != i ensures Content(fs', Slot(fs, w, j)) == Content(fs, Slot(fs, w, j)) {
      SameContent(fs.(dev := fs'.dev), fs', Slot(fs, w, j));
    }
  }

  lemma CommitSafe(fs: Fs, fs': Fs, i: nat, e: Entry, ok: bool)
    requires Safe(fs) && VolumeOk(fs') && i < fs.limit && OthersKept(fs, fs', i)
    requires Fits(fs, i, e, e.offset + e.capacity)
    requires fs.nextData <= e.offset + e.capacity <= fs.storage
    requires fs'.nextData == if ok then e.offset + e.capacity else fs.nextData
    requires fs'.entries[i] == if ok then e else fs.entries[i]
    requires DiskEntry(fs', i) == if ok then e else DiskEntry(fs, i)
    ensures Safe(fs')
  {
    hide Mountable, EntryOk, DiskEntry, Fits, Safe;
    KeepsFits(fs, i, true, fs'.nextData);
    KeepsFits(fs, i, false, fs'.nextData);
    OneSlotChanged(fs, fs', i);
  }
}
