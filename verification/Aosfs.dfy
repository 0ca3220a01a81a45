/** One mounted, block-backed AOSFS instance (kernel/aosfs.c): the entry table held in memory and written
    through to the device, bump-allocated extents, and the operations on paths. */
module Aosfs {
  import opened Blkdev
  import opened LittleEndian
  import opened AosfsFormat

  const SLASH: byte := 47

  const ROOT_DIRS: set<string> := {
    "aos", "bin", "boot", "bootloader", "Bluetooth", "commands", "configs", "drivers", "dev", "etc", "home",
    "kernel", "lib", "lib64", "logs", "main", "memory", "mnt", "MUI", "networking-stack", "opt", "proc", "run",
    "runtime", "root", "sbin", "sqausased", "sudo", "sys", "squashed", "tmp", "trash", "usr", "var"
  }

  /** `base` is where the volume starts on the device and `storage` how many bytes of it are the volume's;
      `initrd` holds the names of the boot archive. */
  datatype Fs = Fs(dev: Device, base: nat, storage: nat, initrd: set<string>, limit: nat, entries: seq<Entry>,
                   nextInode: nat, nextData: nat)

  /** A table entry lies inside one device block, so that writing it is atomic. */
  predicate Aligned(d: Device, base: nat)
    requires d.blockSize > 0
  {
    d.ops ==> d.blockSize % ENTRY_SIZE == 0 && base % d.blockSize == 0
  }

  /** Where a volume may lie on a device. */
  predicate Placed(d: Device, base: nat, storage: nat)
  {
    DeviceOk(d) && Aligned(d, base) && base + storage <= |d.bytes| && |d.bytes| + MAX_FILE_SIZE < U64
  }

  predicate Mountable(d: Device, base: nat, storage: nat)
  {
    Placed(d, base, storage) && DATA_OFFSET <= storage
  }

  /** The same device, perhaps with other bytes. */
  predicate SameShape(d: Device, d': Device)
  {
    d' == d.(faults := d'.faults, bytes := d'.bytes) && |d'.bytes| == |d.bytes|
  }

  predicate VolumeOk(fs: Fs)
  {
    && Mountable(fs.dev, fs.base, fs.storage)
    && fs.limit <= MAX_ENTRIES
    && |fs.entries| == MAX_ENTRIES
    && (forall i :: 0 <= i < MAX_ENTRIES ==> EntryOk(fs.entries[i]))
    && (forall i :: fs.limit <= i < MAX_ENTRIES ==> fs.entries[i] == EMPTY)
    && fs.nextInode < U64
  }

  /** A volume stays well formed whatever bytes its device holds. */
  lemma SwapDevice(fs: Fs, d: Device)
    requires SameShape(fs.dev, d)
    ensures VolumeOk(fs) ==> VolumeOk(fs.(dev := d))
  {
    hide EntryOk;
  }

  lemma SetInode(fs: Fs, n: nat)
    requires n < U64
    ensures VolumeOk(fs) ==> VolumeOk(fs.(nextInode := n))
  {
    hide EntryOk, Mountable;
  }

  // Paths

  function Text(path: Bytes): (r: string)
  {
    seq(|path|, i requires 0 <= i < |path| => path[i] as char)
  }

  /** commands_leaf. */
  predicate CommandsLeaf(path: Bytes)
  {
    |path| > 9 && Text(path[..9]) == "commands/" && SLASH !in path[9..]
  }

  /** parent_path_of: what precedes the last slash. */
  function Parent(path: Bytes): (r: Bytes)
    ensures r <= path
    ensures SLASH !in path ==> r == []
    ensures SLASH in path ==> |r| < |path| && path[|r|] == SLASH && SLASH !in path[|r| + 1..]
  {
    if path == [] then []
    else if path[|path| - 1] == SLASH then path[..|path| - 1]
    else Parent(path[..|path| - 1])
  }

  /** immediate_child_name: whether `path` names something directly inside `dir`. */
  predicate ImmediateChild(dir: Bytes, path: Bytes)
  {
    if dir == [] then path != [] && SLASH !in path
    else |path| > |dir| + 1 && path[..|dir|] == dir && path[|dir|] == SLASH && SLASH !in path[|dir| + 1..]
  }

  predicate Named(e: Entry, path: Bytes)
  {
    e.inUse && e.path == path
  }

  /** find_entry from slot `from` on; the result is the limit when there is none. */
  function FindFrom(fs: Fs, path: Bytes, from: nat): (i: nat)
    requires VolumeOk(fs) && from <= fs.limit
    ensures from <= i <= fs.limit
    ensures i < fs.limit ==> Named(fs.entries[i], path)
    ensures forall j :: from <= j < i ==> !Named(fs.entries[j], path)
    decreases fs.limit - from
  {
    if from == fs.limit || Named(fs.entries[from], path) then from else FindFrom(fs, path, from + 1)
  }

  function Find(fs: Fs, path: Bytes): (i: nat)
    requires VolumeOk(fs)
    ensures i <= fs.limit && (i < fs.limit ==> Named(fs.entries[i], path))
    ensures forall j :: 0 <= j < i ==> !Named(fs.entries[j], path)
  {
    FindFrom(fs, path, 0)
  }

  /** The first slot not in use from `from` on, or the limit. */
  function FreeFrom(fs: Fs, from: nat): (i: nat)
    requires VolumeOk(fs) && from <= fs.limit
    ensures from <= i <= fs.limit && (i < fs.limit ==> !fs.entries[i].inUse)
    ensures forall j :: from <= j < i ==> fs.entries[j].inUse
    decreases fs.limit - from
  {
    if from == fs.limit || !fs.entries[from].inUse then from else FreeFrom(fs, from + 1)
  }

  predicate DirExists(fs: Fs, path: Bytes)
    requires VolumeOk(fs)
  {
    || path == [] || Text(path) in ROOT_DIRS
    || (Find(fs, path) < fs.limit && fs.entries[Find(fs, path)].kind == DIRECTORY)
  }

  predicate HasChildren(fs: Fs, path: Bytes)
    requires VolumeOk(fs)
  {
    exists i :: 0 <= i < fs.limit && fs.entries[i].inUse && ImmediateChild(path, fs.entries[i].path)
  }

  // The entry table

  function EntryAt(i: nat): (r: nat)
  {
    TABLE_OFFSET + ENTRY_SIZE * i
  }

  function Put(fs: Fs, i: nat, e: Entry): (r: Fs)
    requires i < |fs.entries|
  {
    fs.(entries := fs.entries[i := e])
  }

  /** sync_entry. */
  function Sync(fs: Fs, i: nat): (r: (Fs, bool))
    requires VolumeOk(fs) && i < MAX_ENTRIES
    ensures r.0 == fs.(dev := r.0.dev) && VolumeOk(r.0) && SameShape(fs.dev, r.0.dev)
    ensures i >= fs.limit ==> r == (fs, true)
  {
    if i >= fs.limit then (fs, true)
    else
      var (d, ok, _) := Write(fs.dev, fs.base + EntryAt(i), EncodeEntry(fs.entries[i]));
      (fs.(dev := d), ok)
  }

  function NewEntry(kind: nat, mode: nat, uid: nat, gid: nat, inode: nat, path: Bytes): (r: Entry)
  {
    Entry(true, kind, mode % MODE_MASK, 0, uid, gid, inode, 0, 0, path)
  }

  /** Puts a new entry into the first free slot and writes it through; an entry that cannot be written is
      dropped again, but its inode number is spent. */
  function AddEntry(fs: Fs, kind: nat, mode: nat, uid: nat, gid: nat, path: Bytes): (r: (Fs, bool))
    requires VolumeOk(fs) && uid < U32 && gid < U32 && |path| < PATH_MAX && 0 !in path && kind <= SYMLINK
    ensures VolumeOk(r.0)
  {
    var i := FreeFrom(fs, 0);
    if i == fs.limit then (fs, false)
    else
      var e := NewEntry(kind, mode, uid, gid, fs.nextInode, path);
      var (fs1, ok) := Sync(Put(fs.(nextInode := (fs.nextInode + 1) % U64), i, e), i);
      if ok then (fs1, true) else (Put(fs1, i, EMPTY), false)
  }

  /** aosfs_create_path_mode. */
  function Create(fs: Fs, path: Bytes, mode: nat, uid: nat, gid: nat): (r: (Fs, bool))
    requires VolumeOk(fs) && uid < U32 && gid < U32 && 0 !in path
    ensures VolumeOk(r.0)
  {
    if path == [] || |path| >= PATH_MAX || CommandsLeaf(path) then (fs, false)
    else if SLASH !in path && Text(path) in fs.initrd then (fs, false)
    else if !DirExists(fs, Parent(path)) then (fs, false)
    else
      var i := Find(fs, path);
      if i < fs.limit then (fs, fs.entries[i].kind != DIRECTORY)
      else AddEntry(fs, REGULAR, mode, uid, gid, path)
  }

  /** aosfs_mkdir_path_mode. */
  function Mkdir(fs: Fs, path: Bytes, mode: nat, uid: nat, gid: nat): (r: (Fs, bool))
    requires VolumeOk(fs) && uid < U32 && gid < U32 && 0 !in path
    ensures VolumeOk(r.0)
  {
    if path == [] || |path| >= PATH_MAX || Find(fs, path) < fs.limit || Text(path) in ROOT_DIRS then (fs, false)
    else if CommandsLeaf(path) || !DirExists(fs, Parent(path)) then (fs, false)
    else AddEntry(fs, DIRECTORY, mode, uid, gid, path)
  }

  /** aosfs_unlink_path. */
  function Unlink(fs: Fs, path: Bytes): (r: (Fs, bool))
    requires VolumeOk(fs)
    ensures VolumeOk(r.0)
  {
    var i := Find(fs, path);
    if path == [] || i == fs.limit || fs.entries[i].kind == DIRECTORY then (fs, false)
    else Sync(Put(fs, i, EMPTY), i)
  }

  /** aosfs_rmdir_path. */
  function Rmdir(fs: Fs, path: Bytes): (r: (Fs, bool))
    requires VolumeOk(fs)
    ensures VolumeOk(r.0)
  {
    var i := Find(fs, path);
    if path == [] || Text(path) in ROOT_DIRS || i == fs.limit || fs.entries[i].kind != DIRECTORY then (fs, false)
    else if HasChildren(fs, path) then (fs, false)
    else Sync(Put(fs, i, EMPTY), i)
  }

  // Extents

  /** The doubling loop of reserve_entry_extent. */
  function Doubled(capacity: nat, required: nat): (c: nat)
    requires capacity > 0
    ensures c >= capacity || c == MAX_FILE_SIZE
    ensures required <= MAX_FILE_SIZE ==> c >= required
    ensures capacity <= MAX_FILE_SIZE ==> capacity <= c <= MAX_FILE_SIZE
    decreases if capacity <= MAX_FILE_SIZE then MAX_FILE_SIZE - capacity else 0
  {
    if capacity >= required then capacity
    else if capacity > MAX_FILE_SIZE / 2 then MAX_FILE_SIZE
    else Doubled(capacity * 2, required)
  }

  function NewCapacity(capacity: nat, required: nat): (c: nat)
    ensures c > 0 && (required <= MAX_FILE_SIZE ==> c >= required)
    ensures capacity <= MAX_FILE_SIZE ==> capacity <= c <= MAX_FILE_SIZE
  {
    Doubled(if capacity < MIN_EXTENT_CAPACITY then MIN_EXTENT_CAPACITY else capacity, required)
  }

  /** align_up_u64 to the extent alignment. */
  function AlignUp(n: nat): (r: nat)
    ensures n <= U64 - EXTENT_ALIGNMENT ==> n <= r < n + EXTENT_ALIGNMENT && r % EXTENT_ALIGNMENT == 0
    ensures n > U64 - EXTENT_ALIGNMENT ==> r == U64 - 1
  {
    if n > U64 - EXTENT_ALIGNMENT then U64 - 1 else (n + EXTENT_ALIGNMENT - 1) / EXTENT_ALIGNMENT * EXTENT_ALIGNMENT
  }

  /** One buffer of the copy loop. */
  function CopyChunk(d: Device, from: nat, to: nat, n: nat): (r: (Device, bool))
    requires DeviceOk(d)
    ensures SameShape(d, r.0)
  {
    var (d1, okRead, piece) := Read(d, from, n);
    if !okRead then (d1, false)
    else
      var (d2, okWrite, _) := Write(d1, to, piece);
      (d2, okWrite)
  }

  /** The copy loop of reserve_entry_extent and of the migration: pages through a 4096-byte buffer. */
  function CopyBytes(d: Device, from: nat, to: nat, n: nat): (r: (Device, bool))
    requires DeviceOk(d)
    ensures r.0 == d.(faults := r.0.faults, bytes := r.0.bytes) && |r.0.bytes| == |d.bytes|
    decreases n
  {
    if n == 0 then (d, true)
    else
      var chunk := if n > 4096 then 4096 else n;
      var (d1, ok) := CopyChunk(d, from, to, chunk);
      if !ok then (d1, false) else CopyBytes(d1, from + chunk, to + chunk, n - chunk)
  }

  /** Nothing but the device, the free-space mark and the extent of entry `i` differs. */
  predicate OnlyExtent(fs: Fs, fs': Fs, i: nat)
    requires i < |fs.entries| == |fs'.entries|
  {
    var e := fs'.entries[i];
    && fs' == fs.(dev := fs'.dev, nextData := fs'.nextData, entries := fs.entries[i := e])
    && e == fs.entries[i].(offset := e.offset, capacity := e.capacity)
  }

  /** Installs a new extent for an entry if the entry can be written through, and restores it if not. */
  function Commit(fs: Fs, i: nat, offset: nat, capacity: nat): (r: (Fs, bool))
    requires VolumeOk(fs) && i < fs.limit && fs.entries[i].inUse && offset < U64 && capacity < U64
    ensures VolumeOk(r.0) && OnlyExtent(fs, r.0, i)
    ensures r.1 ==>
            r.0.entries[i].offset == offset && r.0.entries[i].capacity == capacity && r.0.nextData == offset + capacity
    ensures !r.1 ==> r.0 == fs.(dev := r.0.dev)
  {
    var (fs1, ok) := Sync(Put(fs, i, fs.entries[i].(offset := offset, capacity := capacity)), i);
    if ok then (fs1.(nextData := offset + capacity), true)
    else
      assert fs1.entries[i := fs.entries[i]] == fs.entries;
      (Put(fs1, i, fs.entries[i]), false)
  }

  /** Extends an extent that ends where free space begins. */
  function GrowInPlace(fs: Fs, i: nat, capacity: nat): (r: (Fs, bool))
    requires VolumeOk(fs) && i < fs.limit && fs.entries[i].inUse && capacity < U64
    ensures VolumeOk(r.0) && OnlyExtent(fs, r.0, i)
  {
    var offset := fs.entries[i].offset;
    if offset + capacity > fs.storage then (fs, false) else Commit(fs, i, offset, capacity)
  }

  /** Gives the entry a new extent at the end of used space and copies its bytes there. */
  function Relocate(fs: Fs, i: nat, capacity: nat): (r: (Fs, bool))
    requires VolumeOk(fs) && i < fs.limit && fs.entries[i].inUse && capacity < U64
    ensures VolumeOk(r.0) && OnlyExtent(fs, r.0, i)
  {
    var e := fs.entries[i];
    var to := AlignUp(fs.nextData);
    if to == U64 - 1 || to + capacity >= U64 || to + capacity > fs.storage then (fs, false)
    else if e.capacity == 0 && e.size > 0 then (fs, false)
    else
      var (d, okCopy) := CopyBytes(fs.dev, fs.base + e.offset, fs.base + to, e.size);
      if !okCopy then (fs.(dev := d), false) else Commit(fs.(dev := d), i, to, capacity)
  }

  /** reserve_entry_extent. */
  function Reserve(fs: Fs, i: nat, required: nat): (r: (Fs, bool))
    requires VolumeOk(fs) && i < fs.limit && fs.entries[i].inUse
    ensures VolumeOk(r.0) && OnlyExtent(fs, r.0, i)
  {
    var e := fs.entries[i];
    if required > MAX_FILE_SIZE then (fs, false)
    else if required <= e.capacity then (fs, true)
    else
      var capacity := NewCapacity(e.capacity, required);
      if e.capacity != 0 && e.offset + e.capacity == fs.nextData then GrowInPlace(fs, i, capacity)
      else Relocate(fs, i, capacity)
  }

  // Files

  function DataAt(e: Entry, i: nat): (r: nat)
  {
    if e.capacity != 0 then e.offset else LEGACY_DATA_OFFSET + i * INLINE_CAPACITY
  }

  /** aosfs_read_path. */
  function ReadFile(fs: Fs, path: Bytes, offset: nat, len: nat): (r: (Fs, bool, Bytes))
    requires VolumeOk(fs)
    ensures r.0 == fs.(dev := r.0.dev) && VolumeOk(r.0) && r.0.dev == fs.dev.(faults := r.0.dev.faults)
  {
    var i := Find(fs, path);
    if i == fs.limit then (fs, false, [])
    else
      var e := fs.entries[i];
      if e.kind == DIRECTORY || offset > e.size || len > e.size - offset then (fs, false, [])
      else if len == 0 then (fs, true, [])
      else if e.capacity == 0 || offset > e.capacity || len > e.capacity - offset then (fs, false, [])
      else
        var (d, ok, data) := Read(fs.dev, fs.base + DataAt(e, i) + offset, len);
        (fs.(dev := d), ok, data)
  }

  /** aosfs_truncate_path. */
  function Truncate(fs: Fs, path: Bytes): (r: (Fs, bool))
    requires VolumeOk(fs)
    ensures VolumeOk(r.0)
  {
    var i := Find(fs, path);
    if i == fs.limit || fs.entries[i].kind != REGULAR then (fs, false)
    else SetSize(fs, i, 0)
  }

  /** The zeroing loop of aosfs_resize_path, 512 bytes at a time. */
  function ZeroBytes(d: Device, at: nat, n: nat): (r: (Device, bool))
    requires DeviceOk(d)
    ensures r.0 == d.(faults := r.0.faults, bytes := r.0.bytes) && |r.0.bytes| == |d.bytes|
    decreases n
  {
    if n == 0 then (d, true)
    else
      var chunk := if n > 512 then 512 else n;
      var (d1, ok, _) := Write(d, at, Zeros(chunk));
      if !ok then (d1, false) else ZeroBytes(d1, at + chunk, n - chunk)
  }

  /** aosfs_resize_path. */
  function Resize(fs: Fs, path: Bytes, size: nat): (r: (Fs, bool))
    requires VolumeOk(fs)
    ensures VolumeOk(r.0)
  {
    var i := Find(fs, path);
    if size > MAX_FILE_SIZE || i == fs.limit || fs.entries[i].kind != REGULAR then (fs, false)
    else
      var oldSize := fs.entries[i].size;
      if size <= oldSize then SetSize(fs, i, size)
      else
        var (fs1, okReserve) := Reserve(fs, i, size);
        if !okReserve then (fs1, false)
        else
          var e := fs1.entries[i];
          var (d, ok) := ZeroBytes(fs1.dev, fs1.base + DataAt(e, i) + oldSize, size - oldSize);
          if !ok then (fs1.(dev := d), false)
          else SetSize(fs1.(dev := d), i, size)
  }

  /** Sets the size of a file and writes its entry through. */
  function SetSize(fs: Fs, i: nat, size: nat): (r: (Fs, bool))
    requires VolumeOk(fs) && i < fs.limit && size < U32 && fs.entries[i].inUse
    ensures VolumeOk(r.0)
  {
    Sync(Put(fs, i, fs.entries[i].(size := size)), i)
  }

  /** aosfs_write_path. */
  function WriteFile(fs: Fs, path: Bytes, offset: nat, data: Bytes): (r: (Fs, bool))
    requires VolumeOk(fs)
    ensures VolumeOk(r.0)
  {
    var i := Find(fs, path);
    if i == fs.limit || fs.entries[i].kind == DIRECTORY || offset > MAX_FILE_SIZE || |data| > MAX_FILE_SIZE - offset
      then (fs, false)
    else if data == [] then (fs, true)
    else
      var end := offset + |data|;
      var (fs1, okReserve) := Reserve(fs, i, end);
      if !okReserve then (fs1, false)
      else
        var e := fs1.entries[i];
        var (d, ok, _) := Write(fs1.dev, fs1.base + DataAt(e, i) + offset, data);
        if !ok then (fs1.(dev := d), false)
        else SetSize(fs1.(dev := d), i, if end > e.size then end else e.size)
  }
}
