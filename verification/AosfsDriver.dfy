/** The AOSFS driver as kernel/aosfs.c has it: an instance whose table and marks are updated in place, with loops over
    slots, copy buffers and table entries. */
module AosfsDriver {
  import opened Blkdev
  import opened LittleEndian
  import opened AosfsFormat
  import opened Aosfs
  import opened AosfsMount
  import AosfsContents
  import AosfsRemount

  /** struct aosfs_instance, for a block-backed instance. */
  class Instance {
    const device: BlockDevice
    const base: nat
    const storage: nat
    const initrd: set<string>
    var limit: nat
    var entries: seq<Entry>
    var nextInode: nat
    var nextData: nat

    function State(): (r: Fs)
      reads this, device
    {
      Fs(device.dev, base, storage, initrd, limit, entries, nextInode, nextData)
    }

    constructor (device: BlockDevice, base: nat, storage: nat, initrd: set<string>)
      ensures this.device == device && this.base == base && this.storage == storage && this.initrd == initrd
      ensures |entries| == MAX_ENTRIES
    {
      this.device, this.base, this.storage, this.initrd := device, base, storage, initrd;
      limit, entries, nextInode, nextData := MAX_ENTRIES, NoEntries(), DYNAMIC_INO_BASE, DATA_OFFSET;
    }

    /** find_entry and entry_index. */
    method FindEntry(path: Bytes) returns (i: nat)
      requires VolumeOk(State())
      ensures i == Find(State(), path)
    {
      hide EntryOk, Placed;
      i := 0;
      while i < limit
        invariant i <= limit && FindFrom(State(), path, i) == Find(State(), path)
      {
        if entries[i].inUse && entries[i].path == path { return; }
        i := i + 1;
      }
    }

    /** dynamic_dir_has_children. */
    method DirHasChildren(path: Bytes) returns (r: bool)
      requires VolumeOk(State())
      ensures r == HasChildren(State(), path)
    {
      hide EntryOk, Placed, ImmediateChild;
      var i := 0;
      while i < limit
        invariant i <= limit
        invariant forall j :: 0 <= j < i && entries[j].inUse ==> !ImmediateChild(path, entries[j].path)
      {
        if entries[i].inUse && ImmediateChild(path, entries[i].path) { return true; }
        i := i + 1;
      }
      r := false;
    }

    /** sync_entry. */
    method SyncEntry(index: nat) returns (ok: bool)
      requires VolumeOk(State()) && index < MAX_ENTRIES
      modifies device
      ensures (State(), ok) == Sync(old(State()), index)
    {
      hide EntryOk, Write, EncodeEntry;
      if index >= limit { return true; }
      ok := device.WriteBytes(base + EntryAt(index), EncodeEntry(entries[index]));
    }

    /** The slot loop of aosfs_create_path_mode and aosfs_mkdir_path_mode. */
    method AddNew(kind: nat, mode: nat, uid: nat, gid: nat, path: Bytes) returns (ok: bool)
      requires VolumeOk(State()) && uid < U32 && gid < U32 && |path| < PATH_MAX && 0 !in path && kind <= SYMLINK
      modifies this, device
      ensures (State(), ok) == AddEntry(old(State()), kind, mode, uid, gid, path)
    {
      hide Placed, Sync;
      var i: nat := 0;
      while i < limit
        invariant i <= limit && FreeFrom(State(), i) == FreeFrom(State(), 0)
        invariant State() == old(State())
      {
        if !entries[i].inUse {
          entries := entries[i := NewEntry(kind, mode, uid, gid, nextInode, path)];
          nextInode := (nextInode + 1) % U64;
          ok := SyncEntry(i);
          if !ok { entries := entries[i := EMPTY]; }
          return;
        }
        i := i + 1;
      }
      ok := false;
    }

    method DirectoryExists(path: Bytes) returns (r: bool)
      requires VolumeOk(State())
      ensures r == DirExists(State(), path)
    {
      hide EntryOk, Placed;
      if path == [] || Text(path) in ROOT_DIRS { return true; }
      var i := FindEntry(path);
      r := i < limit && entries[i].kind == DIRECTORY;
    }

    /** parent_path_of: scans back to the last slash. */
    method ParentPath(path: Bytes) returns (parent: Bytes)
      ensures parent == Parent(path)
    {
      var slash := |path|;
      assert path[..slash] == path;
      while slash > 0 && path[slash - 1] != SLASH
        invariant slash <= |path| && Parent(path) == Parent(path[..slash])
      {
        assert path[..slash][..slash - 1] == path[..slash - 1];
        slash := slash - 1;
      }
      if slash == 0 { return []; }
      assert path[..slash][..slash - 1] == path[..slash - 1];
      parent := path[..slash - 1];
    }

    /** aosfs_create_path_mode. */
    method CreatePath(path: Bytes, mode: nat, uid: nat, gid: nat) returns (ok: bool)
      requires VolumeOk(State()) && uid < U32 && gid < U32 && 0 !in path
      modifies this, device
      ensures (State(), ok) == Create(old(State()), path, mode, uid, gid)
    {
      hide EntryOk, Placed, AddEntry, DirExists;
      if path == [] || |path| >= PATH_MAX || CommandsLeaf(path) { return false; }
      if SLASH !in path && Text(path) in initrd { return false; }
      var parent := ParentPath(path);
      var inside := DirectoryExists(parent);
      if !inside { return false; }
      var i := FindEntry(path);
      if i < limit { return entries[i].kind != DIRECTORY; }
      ok := AddNew(REGULAR, mode, uid, gid, path);
    }

    /** aosfs_mkdir_path_mode. */
    method MkdirPath(path: Bytes, mode: nat, uid: nat, gid: nat) returns (ok: bool)
      requires VolumeOk(State()) && uid < U32 && gid < U32 && 0 !in path
      modifies this, device
      ensures (State(), ok) == Mkdir(old(State()), path, mode, uid, gid)
    {
      hide EntryOk, Placed, AddEntry, DirExists;
      if path == [] || |path| >= PATH_MAX { return false; }
      var i := FindEntry(path);
      if i < limit || Text(path) in ROOT_DIRS { return false; }
      var parent := ParentPath(path);
      var inside := DirectoryExists(parent);
      if CommandsLeaf(path) || !inside { return false; }
      ok := AddNew(DIRECTORY, mode, uid, gid, path);
    }

    /** aosfs_unlink_path. */
    method UnlinkPath(path: Bytes) returns (ok: bool)
      requires VolumeOk(State())
      modifies this, device
      ensures (State(), ok) == Unlink(old(State()), path)
    {
      hide Placed, Sync;
      var i := FindEntry(path);
      if path == [] || i == limit || entries[i].kind == DIRECTORY { return false; }
      entries := entries[i := EMPTY];
      ok := SyncEntry(i);
    }

    /** aosfs_rmdir_path. */
    method RmdirPath(path: Bytes) returns (ok: bool)
      requires VolumeOk(State())
      modifies this, device
      ensures (State(), ok) == Rmdir(old(State()), path)
    {
      hide Placed, Sync, HasChildren;
      var i := FindEntry(path);
      if path == [] || Text(path) in ROOT_DIRS || i == limit || entries[i].kind != DIRECTORY { return false; }
      var children := DirHasChildren(path);
      if children { return false; }
      entries := entries[i := EMPTY];
      ok := SyncEntry(i);
    }

    /** The copy loop. */
    method CopyData(from: nat, to: nat, n: nat) returns (ok: bool)
      requires DeviceOk(device.dev)
      modifies device
      ensures (device.dev, ok) == CopyBytes(old(device.dev), from, to, n)
    {
      hide Read, Write, CopyBytes;
      var copied: nat := 0;
      while copied < n
        invariant copied <= n && DeviceOk(device.dev)
        invariant CopyBytes(old(device.dev), from, to, n)
                  == CopyBytes(device.dev, from + copied, to + copied, n - copied)
      {
        AosfsContents.CopyUnfold(device.dev, from + copied, to + copied, n - copied);
        var chunk := n - copied;
        if chunk > 4096 { chunk := 4096; }
        ghost var d := device.dev;
        var buffer;
        ok, buffer := device.ReadBytes(from + copied, chunk);
        if ok { ok := device.WriteBytes(to + copied, buffer); }
        assert (device.dev, ok) == CopyChunk(d, from + copied, to + copied, chunk);
        if !ok { return; }
        copied := copied + chunk;
      }
      AosfsContents.CopyUnfold(device.dev, from + n, to + n, 0);
      ok := true;
    }

    method CommitExtent(i: nat, offset: nat, capacity: nat) returns (ok: bool)
      requires VolumeOk(State()) && i < limit && entries[i].inUse && offset < U64 && capacity < U64
      modifies this, device
      ensures (State(), ok) == Commit(old(State()), i, offset, capacity)
    {
      hide Placed, Sync;
      var oldOffset, oldCapacity := entries[i].offset, entries[i].capacity;
      entries := entries[i := entries[i].(offset := offset, capacity := capacity)];
      ok := SyncEntry(i);
      if ok {
        nextData := offset + capacity;
      } else {
        entries := entries[i := entries[i].(offset := oldOffset, capacity := oldCapacity)];
      }
    }

    /** The doubling loop of reserve_entry_extent. */
    static method ChooseCapacity(current: nat, required: nat) returns (capacity: nat)
      ensures capacity == NewCapacity(current, required)
    {
      capacity := if current < MIN_EXTENT_CAPACITY then MIN_EXTENT_CAPACITY else current;
      while capacity < required
        invariant capacity > 0 && Doubled(capacity, required) == NewCapacity(current, required)
        decreases required - capacity
      {
        if capacity > MAX_FILE_SIZE / 2 {
          capacity := MAX_FILE_SIZE;
          break;
        }
        capacity := capacity * 2;
      }
    }

    method RelocateExtent(i: nat, capacity: nat) returns (ok: bool)
      requires VolumeOk(State()) && i < limit && entries[i].inUse && capacity < U64
      modifies this, device
      ensures (State(), ok) == Relocate(old(State()), i, capacity)
    {
      hide EntryOk, Aligned, Commit, CopyBytes, AlignUp;
      var e := entries[i];
      var to := AlignUp(nextData);
      if to == U64 - 1 || to + capacity >= U64 || to + capacity > storage { return false; }
      if e.capacity == 0 && e.size > 0 { return false; }
      ghost var s := State();
      ok := CopyData(base + e.offset, base + to, e.size);
      if ok {
        SwapDevice(s, device.dev);
        ok := CommitExtent(i, to, capacity);
      }
    }

    /** reserve_entry_extent. */
    method ReserveExtent(i: nat, required: nat) returns (ok: bool)
      requires VolumeOk(State()) && i < limit && entries[i].inUse
      modifies this, device
      ensures (State(), ok) == Reserve(old(State()), i, required)
    {
      hide Placed, Commit, Relocate, NewCapacity;
      var e := entries[i];
      if required > MAX_FILE_SIZE { return false; }
      if required <= e.capacity { return true; }
      var capacity := ChooseCapacity(e.capacity, required);
      if e.capacity != 0 && e.offset + e.capacity == nextData {
        if e.offset + capacity > storage { return false; }
        ok := CommitExtent(i, e.offset, capacity);
      } else {
        ok := RelocateExtent(i, capacity);
      }
    }

    method SetEntrySize(i: nat, size: nat) returns (ok: bool)
      requires VolumeOk(State()) && i < limit && size < U32 && entries[i].inUse
      modifies this, device
      ensures (State(), ok) == SetSize(old(State()), i, size)
    {
      hide Placed, Sync;
      entries := entries[i := entries[i].(size := size)];
      ok := SyncEntry(i);
    }

    /** aosfs_read_path. */
    method ReadPath(path: Bytes, offset: nat, len: nat) returns (ok: bool, data: Bytes)
      requires VolumeOk(State())
      modifies device
      ensures var r := ReadFile(old(State()), path, offset, len); State() == r.0 && ok == r.1 && (ok ==> data == r.2)
    {
      hide EntryOk, Read;
      var i := FindEntry(path);
      if i == limit { return false, []; }
      var e := entries[i];
      if e.kind == DIRECTORY || offset > e.size || len > e.size - offset { return false, []; }
      if len == 0 { return true, []; }
      if e.capacity == 0 || offset > e.capacity || len > e.capacity - offset { return false, []; }
      ok, data := device.ReadBytes(base + DataAt(e, i) + offset, len);
    }

    /** aosfs_truncate_path. */
    method TruncatePath(path: Bytes) returns (ok: bool)
      requires VolumeOk(State())
      modifies this, device
      ensures (State(), ok) == Truncate(old(State()), path)
    {
      hide EntryOk, Placed, SetSize;
      var i := FindEntry(path);
      if i == limit || entries[i].kind != REGULAR { return false; }
      ok := SetEntrySize(i, 0);
    }

    /** The zeroing loop of aosfs_resize_path. */
    method ZeroData(at: nat, n: nat) returns (ok: bool)
      requires DeviceOk(device.dev)
      modifies device
      ensures (device.dev, ok) == ZeroBytes(old(device.dev), at, n)
    {
      hide Write, ZeroBytes;
      var position: nat := 0;
      while position < n
        invariant position <= n && DeviceOk(device.dev)
        invariant ZeroBytes(old(device.dev), at, n) == ZeroBytes(device.dev, at + position, n - position)
      {
        AosfsContents.ZeroUnfold(device.dev, at + position, n - position);
        var chunk := n - position;
        if chunk > 512 { chunk := 512; }
        ok := device.WriteBytes(at + position, Zeros(chunk));
        if !ok { return; }
        position := position + chunk;
      }
      AosfsContents.ZeroUnfold(device.dev, at + n, 0);
      ok := true;
    }

    /** aosfs_resize_path. */
    method ResizePath(path: Bytes, size: nat) returns (ok: bool)
      requires VolumeOk(State())
      modifies this, device
      ensures (State(), ok) == Resize(old(State()), path, size)
    {
      hide EntryOk, Reserve, ZeroBytes, SetSize;
      if size > MAX_FILE_SIZE { return false; }
      var i := FindEntry(path);
      if i == limit || entries[i].kind != REGULAR { return false; }
      var oldSize := entries[i].size;
      if size > oldSize {
        ok := ReserveExtent(i, size);
        if !ok { return; }
        ok := ZeroData(base + DataAt(entries[i], i) + oldSize, size - oldSize);
        if !ok { return; }
      }
      ok := SetEntrySize(i, size);
    }

    /** aosfs_write_path. */
    method WritePath(path: Bytes, offset: nat, data: Bytes) returns (ok: bool)
      requires VolumeOk(State())
      modifies this, device
      ensures (State(), ok) == WriteFile(old(State()), path, offset, data)
    {
      hide Reserve, Write, SetSize;
      var i := FindEntry(path);
      if i == limit || entries[i].kind == DIRECTORY || offset > MAX_FILE_SIZE
          || |data| > MAX_FILE_SIZE - offset { return false; }
      var end := offset + |data|;
      if data == [] { return true; }
      ok := ReserveExtent(i, end);
      if !ok { return; }
      ok := device.WriteBytes(base + DataAt(entries[i], i) + offset, data);
      if !ok { return; }
      ok := SetEntrySize(i, if end > entries[i].size then end else entries[i].size);
    }

    // Formatting and mounting

    /** The table loop of aosfs_format_role and of the end of a migration. */
    method SyncEntries() returns (ok: bool)
      requires VolumeOk(State())
      modifies device
      ensures (State(), ok) == SyncAll(old(State()), 0)
    {
      hide Sync, SyncAll, EntryOk, Placed;
      var i: nat := 0;
      while i < MAX_ENTRIES
        invariant i <= MAX_ENTRIES && VolumeOk(State()) && SyncAll(old(State()), 0) == SyncAll(State(), i)
      {
        AosfsRemount.SyncAllUnfold(State(), i);
        ok := SyncEntry(i);
        if !ok { return; }
        i := i + 1;
      }
      AosfsRemount.SyncAllUnfold(State(), i);
      ok := true;
    }

    /** sync_superblock. */
    method WriteSuper() returns (ok: bool)
      requires DeviceOk(device.dev)
      modifies device
      ensures (State(), ok) == SyncSuper(old(State()))
    {
      hide Write, EncodeSuper;
      ok := device.WriteBytes(base, EncodeSuper(FRESH_SUPER));
    }

    /** aosfs_format_role. */
    method FormatVolume() returns (ok: bool)
      requires Placed(device.dev, base, storage)
      modifies this, device
      ensures (State(), ok) == Format(old(State()))
    {
      hide SyncSuper, SyncAll;
      entries, limit, nextInode, nextData := NoEntries(), MAX_ENTRIES, DYNAMIC_INO_BASE, DATA_OFFSET;
      if storage < DATA_OFFSET { return false; }
      ok := WriteSuper();
      if ok { ok := SyncEntries(); }
    }

    /** One version 4 entry of the table loop of aosfs_mount_role. */
    method LoadEntry(i: nat, highest: nat) returns (ok: bool, h: nat)
      requires Mountable(device.dev, base, storage) && |entries| == MAX_ENTRIES && i < MAX_ENTRIES
      modifies this, device
      ensures (State(), ok, h) == LoadOne(old(State()), i, highest)
    {
      hide Read, DecodeEntry, Loadable;
      h := highest;
      var bytes;
      ok, bytes := device.ReadBytes(base + EntryAt(i), ENTRY_SIZE);
      if !ok { return; }
      var e := DecodeEntry(bytes);
      if !e.inUse { return; }
      DecodedOk(bytes);
      if !Loadable(e, storage) {
        entries := entries[i := Rejected(e, false)];
        return false, h;
      }
      entries := entries[i := Kept(e)];
      if entries[i].capacity != 0 && entries[i].offset + entries[i].capacity > nextData {
        nextData := entries[i].offset + entries[i].capacity;
      }
      if e.inode > h { h := e.inode; }
    }

    /** One version 3 entry of the table loop of aosfs_mount_role. */
    method MigrateEntry(i: nat, highest: nat) returns (ok: bool, h: nat)
      requires Mountable(device.dev, base, storage) && |entries| == MAX_ENTRIES && i < MAX_ENTRIES
      modifies this, device
      ensures (State(), ok, h) == MigrateOne(old(State()), i, highest)
    {
      hide Read, DecodeEntry, CopyBytes;
      h := highest;
      var bytes;
      ok, bytes := device.ReadBytes(base + EntryAt(i), ENTRY_SIZE);
      if !ok { return; }
      DecodedOk(bytes);
      var e := DecodeEntry(bytes);
      if !e.inUse { return; }
      if e.kind > SYMLINK {
        entries := entries[i := Rejected(e, true)];
        return false, h;
      }
      if e.kind != DIRECTORY {
        entries := entries[i := Rejected(e, true)];
        if e.size > INLINE_CAPACITY || nextData + INLINE_CAPACITY > storage { return false, h; }
        ok := CopyData(base + LegacyAt(i), base + nextData, e.size);
        if !ok { return; }
        assert entries[i := e.(offset := nextData, capacity := INLINE_CAPACITY)]
            == old(entries)[i := e.(offset := nextData, capacity := INLINE_CAPACITY)];
        entries := entries[i := e.(offset := nextData, capacity := INLINE_CAPACITY)];
        nextData := nextData + INLINE_CAPACITY;
      } else {
        entries := entries[i := Kept(e)];
      }
      if e.inode > h { h := e.inode; }
    }

    /** The table loop of aosfs_mount_role. */
    method LoadTable(count: nat, legacy: bool) returns (ok: bool, highest: nat)
      requires Mountable(device.dev, base, storage) && EntriesOk(entries) && count <= MAX_ENTRIES
      modifies this, device
      ensures (State(), ok, highest) == LoadAll(old(State()), 0, count, legacy, DYNAMIC_INO_BASE - 1)
    {
      hide LoadAll, LoadOne, MigrateOne, EntryOk, Placed;
      highest := DYNAMIC_INO_BASE - 1;
      var i: nat := 0;
      while i < count
        invariant i <= count && Mountable(device.dev, base, storage) && EntriesOk(entries)
        invariant LoadAll(old(State()), 0, count, legacy, DYNAMIC_INO_BASE - 1)
                  == LoadAll(State(), i, count, legacy, highest)
      {
        AosfsRemount.LoadUnfold(State(), i, count, legacy, highest);
        if legacy {
          ok, highest := MigrateEntry(i, highest);
        } else {
          ok, highest := LoadEntry(i, highest);
        }
        if !ok { return; }
        i := i + 1;
      }
      AosfsRemount.LoadUnfold(State(), i, count, legacy, highest);
      ok := true;
    }

    /** aosfs_mount_role. */
    method MountVolume() returns (ok: bool)
      requires Placed(device.dev, base, storage) && |entries| == MAX_ENTRIES && nextInode < U64
      modifies this, device
      ensures (State(), ok) == Mount(old(State()))
    {
      hide Read, DecodeSuper, Migrate, Load, Initialise;
      limit, nextData := MAX_ENTRIES, DATA_OFFSET;
      if storage < DATA_OFFSET { return false; }
      var bytes;
      ok, bytes := device.ReadBytes(base, SUPER_SIZE);
      if !ok { return; }
      var super := DecodeSuper(bytes);
      entries := NoEntries();
      if LegacySuperValid(super) {
        ok := MountLegacy();
      } else if SuperValid(super) {
        limit := super.maxEntries;
        ok := MountCurrent();
      } else {
        ok := MountFresh();
      }
    }

    method MountCurrent() returns (ok: bool)
      requires Mountable(device.dev, base, storage) && entries == NoEntries()
      requires limit <= MAX_ENTRIES && nextInode < U64
      modifies this, device
      ensures (State(), ok) == Load(old(State()))
    {
      hide LoadAll;
      var highest;
      ok, highest := LoadTable(limit, false);
      if ok { nextInode := (highest + 1) % U64; }
    }

    method MountLegacy() returns (ok: bool)
      requires Mountable(device.dev, base, storage) && entries == NoEntries() && nextInode < U64
      modifies this, device
      ensures (State(), ok) == Migrate(old(State()))
    {
      hide LoadAll, SyncAll, SyncSuper;
      limit, nextData := LEGACY_MAX_ENTRIES, AlignUp(LegacyAt(LEGACY_MAX_ENTRIES));
      var highest;
      ok, highest := LoadTable(LEGACY_MAX_ENTRIES, true);
      if !ok { return; }
      nextInode, limit := (highest + 1) % U64, MAX_ENTRIES;
      ok := SyncEntries();
      if ok { ok := WriteSuper(); }
    }

    method MountFresh() returns (ok: bool)
      requires VolumeOk(State())
      modifies this, device
      ensures (State(), ok) == Initialise(old(State()))
    {
      hide SyncAll, SyncSuper, EntryOk;
      ok := WriteSuper();
      if !ok { return; }
      ok := SyncEntries();
      if ok { nextInode := DYNAMIC_INO_BASE; }
    }
  }
}
