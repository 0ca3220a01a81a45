/** While the device answers, the table on disk is the table in memory. */
module AosfsSound {
  import opened Blkdev
  import opened LittleEndian
  import opened AosfsFormat
  import opened Aosfs
  import opened AosfsExtents
  import opened AosfsSteps
  import opened AosfsContents
  import opened AosfsViews

  predicate Healthy(d: Device)
  {
    Responsive(d) && d.writable
  }

  predicate Agree(fs: Fs, i: nat)
    requires VolumeOk(fs)
  {
    i < fs.limit ==> DiskEntry(fs, i) == fs.entries[i]
  }

  /** On a healthy device slot `i` of the disk table keeps following memory. */
  ghost predicate Follows(fs: Fs, fs': Fs, i: nat)
    requires VolumeOk(fs) && VolumeOk(fs')
  {
    Healthy(fs.dev) && Agree(fs, i) ==> Healthy(fs'.dev) && Agree(fs', i)
  }

  lemma HealthyRead(d: Device, off: nat, len: nat)
    requires DeviceOk(d) && Healthy(d) && off + len <= |d.bytes|
    ensures var r := Read(d, off, len); r.1 && Healthy(r.0)
  {
    hide ReadLoop;
  }

  lemma HealthyWrite(d: Device, off: nat, data: Bytes)
    requires DeviceOk(d) && Healthy(d) && off + |data| <= |d.bytes|
    ensures var r := Write(d, off, data); r.1 && Healthy(r.0)
  {
    hide WriteLoop;
  }

  lemma {:induction false} HealthyCopy(d: Device, from: nat, to: nat, n: nat)
    requires DeviceOk(d) && Healthy(d) && from + n <= |d.bytes| && to + n <= |d.bytes|
    ensures var r := CopyBytes(d, from, to, n); r.1 && Healthy(r.0)
    decreases n
  {
    hide CopyBytes, CopyChunk, Healthy;
    CopyUnfold(d, from, to, n);
    if n > 0 {
      var chunk := if n > 4096 then 4096 else n;
      HealthyChunk(d, from, to, chunk);
      HealthyCopy(CopyChunk(d, from, to, chunk).0, from + chunk, to + chunk, n - chunk);
    }
  }

  lemma HealthyChunk(d: Device, from: nat, to: nat, n: nat)
    requires DeviceOk(d) && Healthy(d) && from + n <= |d.bytes| && to + n <= |d.bytes|
    ensures var r := CopyChunk(d, from, to, n); r.1 && Healthy(r.0)
  {
    hide Read, Write, Healthy;
    HealthyRead(d, from, n);
    var r := Read(d, from, n);
    HealthyWrite(r.0, to, r.2);
  }

  lemma {:induction false} HealthyZero(d: Device, at: nat, n: nat)
    requires DeviceOk(d) && Healthy(d) && at + n <= |d.bytes|
    ensures var r := ZeroBytes(d, at, n); r.1 && Healthy(r.0)
    decreases n
  {
    hide ZeroBytes, Write, Healthy;
    ZeroUnfold(d, at, n);
    if n > 0 {
      var chunk := if n > 512 then 512 else n;
      HealthyWrite(d, at, Zeros(chunk));
      HealthyZero(Write(d, at, Zeros(chunk)).0, at + chunk, n - chunk);
    }
  }

  lemma HealthySync(fs: Fs, i: nat)
    requires VolumeOk(fs) && i < fs.limit && Healthy(fs.dev)
    ensures var (fs1, ok) := Sync(fs, i); ok && Healthy(fs1.dev) && Agree(fs1, i)
  {
    hide EncodeEntry, Write, Healthy, EntryOk, DiskEntry;
    HealthyWrite(fs.dev, fs.base + EntryAt(i), EncodeEntry(fs.entries[i]));
    SyncFacts(fs, i);
  }

  lemma HealthyCommit(fs: Fs, i: nat, offset: nat, capacity: nat)
    requires VolumeOk(fs) && i < fs.limit && fs.entries[i].inUse && offset < U64 && capacity < U64 && Healthy(fs.dev)
    ensures var (fs1, ok) := Commit(fs, i, offset, capacity); ok && Healthy(fs1.dev) && Agree(fs1, i)
  {
    hide Sync, Healthy, EntryOk, DiskEntry, Mountable;
    var e := fs.entries[i].(offset := offset, capacity := capacity);
    EntryStaysOk(fs.entries[i], offset, capacity);
    var fs0 := Put(fs, i, e);
    assert VolumeOk(fs0);
    HealthySync(fs0, i);
    SameDevice(Sync(fs0, i).0, Commit(fs, i, offset, capacity).0);
  }

  lemma ReserveFollows(fs: Fs, i: nat, required: nat)
    requires Safe(fs) && IsFile(fs, i)
    ensures Follows(fs, Reserve(fs, i, required).0, i)
  {
    hide Commit, CopyBytes, Healthy, DiskEntry, NewCapacity, AlignUp;
    if Healthy(fs.dev) && Agree(fs, i) && fs.entries[i].capacity < required <= MAX_FILE_SIZE {
      var e := fs.entries[i];
      var capacity := NewCapacity(e.capacity, required);
      SizeOfContent(fs, i);
      if e.capacity != 0 && e.offset + e.capacity == fs.nextData {
        HealthyCommit(fs, i, e.offset, capacity);
      } else {
        var to := AlignUp(fs.nextData);
        if to + capacity <= fs.storage && !(e.capacity == 0 && e.size > 0) {
          HealthyCopy(fs.dev, fs.base + e.offset, fs.base + to, e.size);
          HealthyCommit(fs.(dev := CopyBytes(fs.dev, fs.base + e.offset, fs.base + to, e.size).0), i, to, capacity);
        }
      }
    }
  }

  lemma SetSizeFollows(fs: Fs, i: nat, size: nat)
    requires VolumeOk(fs) && i < fs.limit && size < U32 && fs.entries[i].inUse
    ensures Healthy(fs.dev) ==> var fs1 := SetSize(fs, i, size).0; Healthy(fs1.dev) && Agree(fs1, i)
  {
    hide Sync, Healthy, DiskEntry, Mountable;
    var fs0 := Put(fs, i, fs.entries[i].(size := size));
    assert VolumeOk(fs0);
    if Healthy(fs.dev) {
      HealthySync(fs0, i);
    }
  }

  lemma WriteFollows(fs: Fs, p: Bytes, offset: nat, data: Bytes)
    requires Safe(fs)
    ensures Follows(fs, WriteFile(fs, p, offset, data).0, Find(fs, p))
  {
    hide Reserve, Write, SetSize, Healthy, DiskEntry, EntryOk, Only;
    var i := Find(fs, p);
    if i < fs.limit && IsFile(fs, i) && offset + |data| <= MAX_FILE_SIZE && data != [] && Healthy(fs.dev)
        && Agree(fs, i) {
      var end := offset + |data|;
      ReserveKeeps(fs, i, end);
      ReserveFollows(fs, i, end);
      var (fs1, okReserve) := Reserve(fs, i, end);
      if okReserve {
        SizeOfContent(fs1, i);
        var at := fs1.base + DataAt(fs1.entries[i], i) + offset;
        HealthyWrite(fs1.dev, at, data);
        SetSizeFollows(fs1.(dev := Write(fs1.dev, at, data).0), i, if end > fs1.entries[i].size then end
            else fs1.entries[i].size);
      }
    }
  }

  lemma ResizeFollows(fs: Fs, p: Bytes, size: nat)
    requires Safe(fs)
    ensures Follows(fs, Resize(fs, p, size).0, Find(fs, p))
  {
    hide Reserve, ZeroBytes, SetSize, Healthy, DiskEntry, EntryOk, Only;
    var i := Find(fs, p);
    if i < fs.limit && fs.entries[i].kind == REGULAR && size <= MAX_FILE_SIZE && Healthy(fs.dev) && Agree(fs, i) {
      if size <= fs.entries[i].size {
        SetSizeFollows(fs, i, size);
      } else {
        ReserveKeeps(fs, i, size);
        ReserveFollows(fs, i, size);
        var (fs1, okReserve) := Reserve(fs, i, size);
        if okReserve {
          SizeOfContent(fs1, i);
          var e := fs1.entries[i];
          var at := fs1.base + DataAt(e, i) + e.size;
          HealthyZero(fs1.dev, at, size - e.size);
          SetSizeFollows(fs1.(dev := ZeroBytes(fs1.dev, at, size - e.size).0), i, size);
        }
      }
    }
  }

  lemma TruncateFollows(fs: Fs, p: Bytes)
    requires Safe(fs)
    ensures Follows(fs, Truncate(fs, p).0, Find(fs, p))
  {
    hide SetSize, Healthy, DiskEntry, EntryOk, Mountable;
    var i := Find(fs, p);
    if i < fs.limit && fs.entries[i].kind == REGULAR {
      SetSizeFollows(fs, i, 0);
    }
  }

  lemma AddFollows(fs: Fs, kind: nat, mode: nat, uid: nat, gid: nat, p: Bytes)
    requires VolumeOk(fs) && uid < U32 && gid < U32 && |p| < PATH_MAX && 0 !in p && kind <= SYMLINK
    ensures Follows(fs, AddEntry(fs, kind, mode, uid, gid, p).0, FreeFrom(fs, 0))
  {
    hide Sync, Healthy, DiskEntry, Mountable, EntryOk;
    var i := FreeFrom(fs, 0);
    if i < fs.limit && Healthy(fs.dev) {
      var e := NewEntry(kind, mode, uid, gid, fs.nextInode, p);
      var fs0 := Put(fs.(nextInode := (fs.nextInode + 1) % U64), i, e);
      NewEntryOk(fs, kind, mode, uid, gid, p);
      assert VolumeOk(fs0);
      HealthySync(fs0, i);
    }
  }

  lemma ClearFollows(fs: Fs, i: nat)
    requires VolumeOk(fs) && i < fs.limit
    ensures VolumeOk(Put(fs, i, EMPTY)) && Follows(fs, Sync(Put(fs, i, EMPTY), i).0, i)
  {
    hide Sync, Healthy, DiskEntry, Mountable;
    assert VolumeOk(Put(fs, i, EMPTY));
    if Healthy(fs.dev) {
      HealthySync(Put(fs, i, EMPTY), i);
    }
  }

  // Clean volumes

  function SuperOf(fs: Fs): (r: Superblock)
    requires Mountable(fs.dev, fs.base, fs.storage)
  {
    DecodeSuper(fs.dev.bytes[fs.base..fs.base + SUPER_SIZE])
  }

  ghost predicate InodesBelow(fs: Fs)
    requires VolumeOk(fs)
  {
    DYNAMIC_INO_BASE <= fs.nextInode && forall i :: 0 <= i < fs.limit && fs.entries[i].inUse ==>
        fs.entries[i].inode < fs.nextInode
  }

  /** Safe, on a healthy device, with paths and inodes unique and memory and disk in step. */
  ghost predicate Clean(fs: Fs)
    ensures Clean(fs) ==> Safe(fs) && Healthy(fs.dev) && DistinctPaths(fs) && InodesBelow(fs)
  {
    && Safe(fs) && Healthy(fs.dev) && DistinctPaths(fs) && InodesBelow(fs)
    && SuperValid(SuperOf(fs)) && SuperOf(fs).maxEntries == fs.limit
    && forall i :: 0 <= i < fs.limit ==> Agree(fs, i)
  }

  lemma CleanStep(fs: Fs, fs': Fs, i: nat)
    requires Clean(fs) && Only(fs, fs', i) && Follows(fs, fs', i) && DistinctPaths(fs') && InodesBelow(fs')
    ensures Clean(fs')
  {
    hide Safe, DecodeSuper, DiskEntry, EntryOk, Healthy, DistinctPaths;
    hide InodesBelow;
    assert Agree(fs, i) && fs.base + SUPER_SIZE <= fs.base + TABLE_OFFSET;
    SameSlice(fs.dev, fs'.dev, fs.base + TABLE_OFFSET, fs.base + fs.storage, fs.base, SUPER_SIZE);
    forall j | 0 <= j < fs'.limit ensures Agree(fs', j) {
      if j != i {
        assert Agree(fs, j) && Slot(fs', true, j) == Slot(fs, true, j) && Slot(fs', false, j) == Slot(fs, false, j);
      }
    }
  }
}
