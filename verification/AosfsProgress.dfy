/** When operations succeed: on a device that answers, exactly when the path and the free space allow it. */
module AosfsProgress {
  import opened Blkdev
  import opened LittleEndian
  import opened AosfsFormat
  import opened Aosfs
  import opened AosfsExtents
  import opened AosfsSteps
  import opened AosfsContents
  import opened AosfsViews
  import opened AosfsSound

  /** Where an extent of slot `i` for `required` bytes would end. */
  function ExtentEnd(fs: Fs, i: nat, required: nat): (r: nat)
    requires VolumeOk(fs) && i < fs.limit
  {
    var e := fs.entries[i];
    if e.capacity != 0 && e.offset + e.capacity == fs.nextData then e.offset + NewCapacity(e.capacity, required)
    else AlignUp(fs.nextData) + NewCapacity(e.capacity, required)
  }

  predicate HasRoom(fs: Fs, i: nat, required: nat)
    requires VolumeOk(fs) && i < fs.limit
  {
    required <= fs.entries[i].capacity || ExtentEnd(fs, i, required) <= fs.storage
  }

  /** reserve_entry_extent fails only for lack of room. */
  lemma ReserveSucceedsIff(fs: Fs, i: nat, required: nat)
    requires Safe(fs) && IsFile(fs, i) && Healthy(fs.dev)
    ensures var (fs1, ok) := Reserve(fs, i, required);
            (ok <==> required <= MAX_FILE_SIZE && HasRoom(fs, i, required)) && (ok ==> Healthy(fs1.dev))
  {
    hide Commit, CopyBytes, Healthy, DiskEntry, NewCapacity, AlignUp, Mountable, EntryOk, Only;
    if fs.entries[i].capacity < required <= MAX_FILE_SIZE {
      var e := fs.entries[i];
      var capacity := NewCapacity(e.capacity, required);
      SizeOfContent(fs, i);
      StorageSmall(fs);
      if e.capacity != 0 && e.offset + e.capacity == fs.nextData {
        HealthyCommit(fs, i, e.offset, capacity);
      } else {
        var to := AlignUp(fs.nextData);
        if to + capacity <= fs.storage {
          VolumeFits(fs);
          HealthyCopy(fs.dev, fs.base + e.offset, fs.base + to, e.size);
          CopiedVolume(fs, i, to);
          HealthyCommit(fs.(dev := CopyBytes(fs.dev, fs.base + e.offset, fs.base + to, e.size).0), i, to, capacity);
        }
      }
    }
  }

  lemma StorageSmall(fs: Fs)
    requires VolumeOk(fs)
    ensures fs.storage + MAX_FILE_SIZE < U64
  {
  }

  lemma CopiedVolume(fs: Fs, i: nat, to: nat)
    requires VolumeOk(fs) && i < fs.limit
    ensures VolumeOk(fs.(dev := CopyBytes(fs.dev, fs.base + fs.entries[i].offset, fs.base + to, fs.entries[i].size).0))
  {
    hide CopyBytes;
  }

  /** The doubling loop at most doubles what is asked for, from a first extent of 64 KiB. */
  lemma {:induction false} DoubledBound(capacity: nat, required: nat)
    requires 0 < capacity
    ensures Doubled(capacity, required) <= if required <= capacity then capacity else 2 * required
    decreases if capacity <= MAX_FILE_SIZE then MAX_FILE_SIZE - capacity else 0
  {
    if capacity < required && capacity <= MAX_FILE_SIZE / 2 {
      DoubledBound(capacity * 2, required);
    }
  }

  lemma CapacityBound(capacity: nat, required: nat)
    requires capacity < required
    ensures NewCapacity(capacity, required) <= if required <= MIN_EXTENT_CAPACITY then MIN_EXTENT_CAPACITY
            else 2 * required
  {
    hide Doubled;
    DoubledBound(if capacity < MIN_EXTENT_CAPACITY then MIN_EXTENT_CAPACITY else capacity, required);
  }

  /** Free space for twice the size (or a first extent) and one alignment gap is always enough. */
  lemma RoomSuffices(fs: Fs, i: nat, required: nat)
    requires Safe(fs) && IsFile(fs, i) && required <= MAX_FILE_SIZE
    requires fs.nextData + EXTENT_ALIGNMENT + (if required <= MIN_EXTENT_CAPACITY then MIN_EXTENT_CAPACITY
             else 2 * required) <= fs.storage
    ensures HasRoom(fs, i, required)
  {
    hide NewCapacity, Mountable, EntryOk, DiskEntry;
    if fs.entries[i].capacity < required {
      StorageSmall(fs);
      SizeOfContent(fs, i);
      CapacityBound(fs.entries[i].capacity, required);
    }
  }

  lemma SetSizeSucceeds(fs: Fs, i: nat, size: nat)
    requires VolumeOk(fs) && i < fs.limit && size < U32 && fs.entries[i].inUse && Healthy(fs.dev)
    ensures SetSize(fs, i, size).1
  {
    hide Sync, Healthy, DiskEntry, Mountable;
    var fs0 := Put(fs, i, fs.entries[i].(size := size));
    assert VolumeOk(fs0);
    HealthySync(fs0, i);
  }

  /** aosfs_write_path succeeds exactly when the path names a file, the end is within the size limit and there is
      room. */
  lemma WriteSucceedsIff(fs: Fs, p: Bytes, offset: nat, data: Bytes)
    requires Safe(fs) && Healthy(fs.dev)
    ensures var v := View(fs, p);
            WriteFile(fs, p, offset, data).1 <==>
              && v.Some? && v.value.kind != DIRECTORY && offset + |data| <= MAX_FILE_SIZE
              && (data != [] ==> HasRoom(fs, Find(fs, p), offset + |data|))
  {
    hide Reserve, Write, SetSize, Healthy, DiskEntry, EntryOk, Only, HasRoom;
    var i := Find(fs, p);
    if i < fs.limit && IsFile(fs, i) && offset + |data| <= MAX_FILE_SIZE && data != [] {
      var end := offset + |data|;
      ReserveKeeps(fs, i, end);
      ReserveSucceedsIff(fs, i, end);
      var (fs1, okReserve) := Reserve(fs, i, end);
      if okReserve {
        SizeOfContent(fs1, i);
        VolumeFits(fs1);
        var at := fs1.base + DataAt(fs1.entries[i], i) + offset;
        HealthyWrite(fs1.dev, at, data);
        SetSizeSucceeds(fs1.(dev := Write(fs1.dev, at, data).0), i, if end > fs1.entries[i].size then end
            else fs1.entries[i].size);
      }
    }
  }

  /** aosfs_resize_path succeeds exactly when the path names a regular file, the size is allowed and there is room. */
  lemma ResizeSucceedsIff(fs: Fs, p: Bytes, size: nat)
    requires Safe(fs) && Healthy(fs.dev)
    ensures var v := View(fs, p);
            Resize(fs, p, size).1 <==>
              v.Some? && v.value.kind == REGULAR && size <= MAX_FILE_SIZE
                  && (size > |v.value.data| ==> HasRoom(fs, Find(fs, p), size))
  {
    hide Reserve, ZeroBytes, SetSize, Healthy, DiskEntry, EntryOk, Only, HasRoom;
    var i := Find(fs, p);
    if i < fs.limit && fs.entries[i].kind == REGULAR && size <= MAX_FILE_SIZE {
      SizeOfContent(fs, i);
      if size <= fs.entries[i].size {
        SetSizeSucceeds(fs, i, size);
      } else {
        ReserveKeeps(fs, i, size);
        ReserveSucceedsIff(fs, i, size);
        var (fs1, okReserve) := Reserve(fs, i, size);
        if okReserve {
          SizeOfContent(fs1, i);
          VolumeFits(fs1);
          var e := fs1.entries[i];
          var at := fs1.base + DataAt(e, i) + e.size;
          HealthyZero(fs1.dev, at, size - e.size);
          SetSizeSucceeds(fs1.(dev := ZeroBytes(fs1.dev, at, size - e.size).0), i, size);
        }
      }
    }
  }

  /** aosfs_truncate_path succeeds exactly on regular files. */
  lemma TruncateSucceedsIff(fs: Fs, p: Bytes)
    requires Safe(fs) && Healthy(fs.dev)
    ensures Truncate(fs, p).1 <==> View(fs, p).Some? && View(fs, p).value.kind == REGULAR
  {
    hide SetSize, Healthy, DiskEntry, EntryOk, Mountable;
    var i := Find(fs, p);
    if i < fs.limit && fs.entries[i].kind == REGULAR {
      SetSizeSucceeds(fs, i, 0);
    }
  }

  lemma ClearSucceeds(fs: Fs, i: nat)
    requires VolumeOk(fs) && i < fs.limit && Healthy(fs.dev)
    ensures VolumeOk(Put(fs, i, EMPTY)) && Sync(Put(fs, i, EMPTY), i).1
  {
    hide Sync, Healthy, DiskEntry, Mountable;
    assert VolumeOk(Put(fs, i, EMPTY));
    HealthySync(Put(fs, i, EMPTY), i);
  }

  /** aosfs_unlink_path succeeds exactly on files. */
  lemma UnlinkSucceedsIff(fs: Fs, p: Bytes)
    requires Safe(fs) && Healthy(fs.dev)
    ensures Unlink(fs, p).1 <==> p != [] && View(fs, p).Some? && View(fs, p).value.kind != DIRECTORY
  {
    hide Sync, Healthy, DiskEntry, EntryOk, Mountable;
    if Find(fs, p) < fs.limit {
      ClearSucceeds(fs, Find(fs, p));
    }
  }

  lemma ChildrenAreNamed(fs: Fs, p: Bytes)
    requires VolumeOk(fs)
    ensures HasChildren(fs, p) <==> exists q :: View(fs, q).Some? && ImmediateChild(p, q)
  {
    hide EntryOk, Mountable, ImmediateChild;
    if HasChildren(fs, p) {
      var i :| 0 <= i < fs.limit && fs.entries[i].inUse && ImmediateChild(p, fs.entries[i].path);
      assert Named(fs.entries[i], fs.entries[i].path);
      assert View(fs, fs.entries[i].path).Some?;
    }
    if exists q :: View(fs, q).Some? && ImmediateChild(p, q) {
      var q :| View(fs, q).Some? && ImmediateChild(p, q);
      assert fs.entries[Find(fs, q)].path == q;
    }
  }

  /** aosfs_rmdir_path succeeds exactly on directories, other than the built-in ones, that no path lies directly
      inside of. */
  lemma RmdirSucceedsIff(fs: Fs, p: Bytes)
    requires Safe(fs) && Healthy(fs.dev)
    ensures Rmdir(fs, p).1 <==>
              && p != [] && Text(p) !in ROOT_DIRS && View(fs, p).Some? && View(fs, p).value.kind == DIRECTORY
              && forall q :: View(fs, q).Some? ==> !ImmediateChild(p, q)
  {
    hide Sync, Healthy, DiskEntry, EntryOk, Mountable;
    ChildrenAreNamed(fs, p);
    if Find(fs, p) < fs.limit {
      ClearSucceeds(fs, Find(fs, p));
    }
  }

  predicate SlotFree(fs: Fs)
    requires VolumeOk(fs)
  {
    exists i :: 0 <= i < fs.limit && !fs.entries[i].inUse
  }

  lemma AddSucceedsIff(fs: Fs, kind: nat, mode: nat, uid: nat, gid: nat, p: Bytes)
    requires VolumeOk(fs) && Healthy(fs.dev) && uid < U32 && gid < U32 && |p| < PATH_MAX && 0 !in p && kind <= SYMLINK
    ensures AddEntry(fs, kind, mode, uid, gid, p).1 <==> SlotFree(fs)
  {
    hide Sync, Healthy, DiskEntry, Mountable;
    var i := FreeFrom(fs, 0);
    if i < fs.limit {
      var fs0 := Put(fs.(nextInode := (fs.nextInode + 1) % U64), i, NewEntry(kind, mode, uid, gid, fs.nextInode, p));
      assert VolumeOk(fs0);
      HealthySync(fs0, i);
    }
  }

  /** aosfs_create_path_mode on a path that names nothing succeeds exactly when the path may be created there and a slot
      is free. */
  lemma CreateSucceedsIff(fs: Fs, p: Bytes, mode: nat, uid: nat, gid: nat)
    requires Safe(fs) && Healthy(fs.dev) && uid < U32 && gid < U32 && 0 !in p && View(fs, p).None?
    ensures Create(fs, p, mode, uid, gid).1 <==>
              && 0 < |p| < PATH_MAX && !CommandsLeaf(p) && (SLASH in p || Text(p) !in fs.initrd)
                  && DirExists(fs, Parent(p))
              && SlotFree(fs)
  {
    hide AddEntry, Healthy, Safe, EntryOk, Mountable, Parent, CommandsLeaf, DirExists, SlotFree, Content;
    if |p| < PATH_MAX {
      AddSucceedsIff(fs, REGULAR, mode, uid, gid, p);
    }
  }

  /** The same for aosfs_mkdir_path_mode. */
  lemma MkdirSucceedsIff(fs: Fs, p: Bytes, mode: nat, uid: nat, gid: nat)
    requires Safe(fs) && Healthy(fs.dev) && uid < U32 && gid < U32 && 0 !in p
    ensures Mkdir(fs, p, mode, uid, gid).1 <==>
              && 0 < |p| < PATH_MAX && View(fs, p).None? && Text(p) !in ROOT_DIRS && !CommandsLeaf(p)
                  && DirExists(fs, Parent(p))
              && SlotFree(fs)
  {
    hide AddEntry, Healthy, Safe, EntryOk, Mountable, Parent, CommandsLeaf, DirExists, SlotFree, Content;
    if |p| < PATH_MAX {
      AddSucceedsIff(fs, DIRECTORY, mode, uid, gid, p);
    }
  }
}
