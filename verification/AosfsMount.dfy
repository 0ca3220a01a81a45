/** Formatting and mounting AOSFS, with the in-place migration from version 3. */
module AosfsMount {
  import opened Blkdev
  import opened LittleEndian
  import opened AosfsFormat
  import opened Aosfs

  /** Where slot `i` of a version 3 volume keeps its bytes. */
  function LegacyAt(i: nat): (r: nat)
  {
    LEGACY_DATA_OFFSET + i * INLINE_CAPACITY
  }

  /** The end of the version 3 data area, where migrated extents start. */
  const LEGACY_END: nat := 589824

  function NoEntries(): (s: seq<Entry>)
    ensures |s| == MAX_ENTRIES && forall i :: 0 <= i < MAX_ENTRIES ==> s[i] == EMPTY
  {
    seq(MAX_ENTRIES, _ => EMPTY)
  }

  predicate EntriesOk(s: seq<Entry>)
  {
    |s| == MAX_ENTRIES && forall i :: 0 <= i < MAX_ENTRIES ==> EntryOk(s[i])
  }

  /** Writes every table entry from `i` on. */
  function SyncAll(fs: Fs, i: nat): (r: (Fs, bool))
    requires VolumeOk(fs) && i <= MAX_ENTRIES
    ensures r.0 == fs.(dev := r.0.dev) && VolumeOk(r.0) && SameShape(fs.dev, r.0.dev)
    decreases MAX_ENTRIES - i
  {
    if i == MAX_ENTRIES then (fs, true)
    else
      var (fs1, ok) := Sync(fs, i);
      if !ok then (fs1, false) else SyncAll(fs1, i + 1)
  }

  /** sync_superblock. */
  function SyncSuper(fs: Fs): (r: (Fs, bool))
    requires DeviceOk(fs.dev)
    ensures r.0 == fs.(dev := r.0.dev) && |r.0.dev.bytes| == |fs.dev.bytes|
    ensures r.0.dev == fs.dev.(faults := r.0.dev.faults, bytes := r.0.dev.bytes)
    ensures VolumeOk(fs) ==> VolumeOk(r.0)
  {
    var (d, ok, _) := Write(fs.dev, fs.base, EncodeSuper(FRESH_SUPER));
    SwapDevice(fs, d);
    (fs.(dev := d), ok)
  }

  /** aosfs_format_role. */
  function Format(fs: Fs): (r: (Fs, bool))
    requires Placed(fs.dev, fs.base, fs.storage)
    ensures r.1 ==> VolumeOk(r.0)
  {
    var fs0 := fs.(entries := NoEntries(), limit := MAX_ENTRIES, nextInode := DYNAMIC_INO_BASE,
        nextData := DATA_OFFSET);
    if fs.storage < DATA_OFFSET then (fs0, false)
    else
      var (fs1, ok) := SyncSuper(fs0);
      if !ok then (fs1, false) else SyncAll(fs1, 0)
  }

  // Loading the table

  /** What a mount keeps of an entry: directories have no extent. */
  function Kept(e: Entry): (r: Entry)
  {
    if e.kind == DIRECTORY then e.(offset := 0, capacity := 0) else e
  }

  /** The checks a mount makes on an entry in use. */
  predicate Loadable(e: Entry, storage: nat)
  {
    && e.kind <= SYMLINK
    && (e.kind != DIRECTORY ==>
          && e.size <= MAX_FILE_SIZE && e.size <= e.capacity
          && (e.capacity != 0 ==>
              e.offset >= DATA_OFFSET && e.offset + e.capacity < U64 && e.offset + e.capacity <= storage))
  }

  /** What a mount that stops at an entry in use has put into its slot: of an entry of unknown kind only that it is in
      use, of any other one all that was read, but no extent if it was still to be migrated. */
  function Rejected(e: Entry, legacy: bool): (r: Entry)
    requires e.inUse && (e.kind <= SYMLINK ==> EntryOk(e))
    ensures EntryOk(r) && r.inUse
  {
    if e.kind > SYMLINK then EMPTY.(inUse := true) else if legacy then e.(offset := 0, capacity := 0) else e
  }

  function Max(a: nat, b: nat): (r: nat)
  {
    if a > b then a else b
  }

  /** One table entry of a version 4 volume. The number is the highest inode seen. */
  function LoadOne(fs: Fs, i: nat, highest: nat): (r: (Fs, bool, nat))
    requires Mountable(fs.dev, fs.base, fs.storage) && |fs.entries| == MAX_ENTRIES && i < MAX_ENTRIES
    ensures r.0.dev == fs.dev.(faults := r.0.dev.faults)
    ensures |r.0.entries| == MAX_ENTRIES && r.0 == fs.(dev := r.0.dev, nextData := r.0.nextData,
            entries := fs.entries[i := r.0.entries[i]])
    ensures r.0.entries[i] == fs.entries[i] || EntryOk(r.0.entries[i])
  {
    var (d, ok, b) := Read(fs.dev, fs.base + EntryAt(i), ENTRY_SIZE);
    var fs1 := fs.(dev := d);
    if !ok then (fs1, false, highest)
    else
      DecodedOk(b);
      var e := DecodeEntry(b);
      if !e.inUse then (fs1, true, highest)
      else if !Loadable(e, fs.storage) then (Put(fs1, i, Rejected(e, false)), false, highest)
      else
        var k := Kept(e);
        var next := if k.capacity != 0 then Max(fs.nextData, k.offset + k.capacity) else fs.nextData;
        (Put(fs1, i, k).(nextData := next), true, Max(highest, e.inode))
  }

  /** Moves the bytes of slot `i` of a version 3 volume to the end of used space. */
  function MigrateFile(fs: Fs, i: nat, e: Entry): (r: (Fs, bool))
    requires DeviceOk(fs.dev) && |fs.entries| == MAX_ENTRIES && i < MAX_ENTRIES && EntryOk(e) && e.inUse
    requires fs.nextData + INLINE_CAPACITY < U64
    ensures r.0.dev == fs.dev.(faults := r.0.dev.faults, bytes := r.0.dev.bytes) && |r.0.dev.bytes| == |fs.dev.bytes|
    ensures |r.0.entries| == MAX_ENTRIES && r.0 == fs.(dev := r.0.dev, nextData := r.0.nextData,
            entries := fs.entries[i := r.0.entries[i]])
    ensures r.0.entries[i] == fs.entries[i] || EntryOk(r.0.entries[i])
  {
    var (d, copied) := CopyBytes(fs.dev, fs.base + LegacyAt(i), fs.base + fs.nextData, e.size);
    if !copied then (Put(fs.(dev := d), i, Rejected(e, true)), false)
    else
      var fs1 := fs.(dev := d, nextData := fs.nextData + INLINE_CAPACITY);
      (Put(fs1, i, e.(offset := fs.nextData, capacity := INLINE_CAPACITY)), true)
  }

  /** One table entry of a version 3 volume. */
  function MigrateOne(fs: Fs, i: nat, highest: nat): (r: (Fs, bool, nat))
    requires Mountable(fs.dev, fs.base, fs.storage) && |fs.entries| == MAX_ENTRIES && i < MAX_ENTRIES
    ensures r.0.dev == fs.dev.(faults := r.0.dev.faults, bytes := r.0.dev.bytes) && |r.0.dev.bytes| == |fs.dev.bytes|
    ensures |r.0.entries| == MAX_ENTRIES && r.0 == fs.(dev := r.0.dev, nextData := r.0.nextData,
            entries := fs.entries[i := r.0.entries[i]])
    ensures r.0.entries[i] == fs.entries[i] || EntryOk(r.0.entries[i])
  {
    var (d, ok, b) := Read(fs.dev, fs.base + EntryAt(i), ENTRY_SIZE);
    var fs1 := fs.(dev := d);
    if !ok then (fs1, false, highest)
    else
      DecodedOk(b);
      var e := DecodeEntry(b);
      if !e.inUse then (fs1, true, highest)
      else if e.kind > SYMLINK then (Put(fs1, i, Rejected(e, true)), false, highest)
      else if e.kind == DIRECTORY then (Put(fs1, i, Kept(e)), true, Max(highest, e.inode))
      else if e.size > INLINE_CAPACITY || fs.nextData + INLINE_CAPACITY > fs.storage then
        (Put(fs1, i, Rejected(e, true)), false, highest)
      else
        var (fs2, copied) := MigrateFile(fs1, i, e);
        (fs2, copied, if copied then Max(highest, e.inode) else highest)
  }

  /** The table loop of aosfs_mount_role. */
  function LoadAll(fs: Fs, i: nat, count: nat, legacy: bool, highest: nat): (r: (Fs, bool, nat))
    requires Mountable(fs.dev, fs.base, fs.storage) && EntriesOk(fs.entries) && i <= count <= MAX_ENTRIES
    ensures r.0.dev == fs.dev.(faults := r.0.dev.faults, bytes := r.0.dev.bytes) && |r.0.dev.bytes| == |fs.dev.bytes|
    ensures r.0 == fs.(dev := r.0.dev, nextData := r.0.nextData, entries := r.0.entries) && EntriesOk(r.0.entries)
    ensures forall j :: 0 <= j < MAX_ENTRIES && !(i <= j < count) ==> r.0.entries[j] == fs.entries[j]
    decreases count - i
  {
    if i == count then (fs, true, highest)
    else
      var (fs1, ok, h) := if legacy then MigrateOne(fs, i, highest) else LoadOne(fs, i, highest);
      if !ok then (fs1, false, h) else LoadAll(fs1, i + 1, count, legacy, h)
  }

  /** A device without a known superblock is taken for a new volume. */
  function Initialise(fs: Fs): (r: (Fs, bool))
    requires VolumeOk(fs)
    ensures VolumeOk(r.0) && SameShape(fs.dev, r.0.dev)
  {
    var (fs1, ok) := SyncSuper(fs);
    if !ok then (fs1, false)
    else
      var (fs2, ok2) := SyncAll(fs1, 0);
      SetInode(fs2, DYNAMIC_INO_BASE);
      (if ok2 then fs2.(nextInode := DYNAMIC_INO_BASE) else fs2, ok2)
  }

  function Load(fs: Fs): (r: (Fs, bool))
    requires Mountable(fs.dev, fs.base, fs.storage) && fs.entries == NoEntries()
    requires fs.limit <= MAX_ENTRIES && fs.nextInode < U64
    ensures SameShape(fs.dev, r.0.dev) && VolumeOk(r.0)
  {
    var (fs1, ok, highest) := LoadAll(fs, 0, fs.limit, false, DYNAMIC_INO_BASE - 1);
    if !ok then (fs1, false) else (fs1.(nextInode := (highest + 1) % U64), true)
  }

  /** Moves every file out of the version 3 data area, and only then rewrites the table over it and the superblock. */
  function Migrate(fs: Fs): (r: (Fs, bool))
    requires Mountable(fs.dev, fs.base, fs.storage) && fs.entries == NoEntries() && fs.nextInode < U64
    ensures SameShape(fs.dev, r.0.dev) && VolumeOk(r.0)
  {
    var fs0 := fs.(limit := LEGACY_MAX_ENTRIES, nextData := AlignUp(LegacyAt(LEGACY_MAX_ENTRIES)));
    var (fs1, ok, highest) := LoadAll(fs0, 0, LEGACY_MAX_ENTRIES, true, DYNAMIC_INO_BASE - 1);
    if !ok then (fs1, false) else Rewrite(fs1.(nextInode := (highest + 1) % U64, limit := MAX_ENTRIES))
  }

  function Rewrite(fs: Fs): (r: (Fs, bool))
    requires VolumeOk(fs)
    ensures VolumeOk(r.0) && SameShape(fs.dev, r.0.dev)
  {
    var (fs1, ok) := SyncAll(fs, 0);
    if !ok then (fs1, false) else SyncSuper(fs1)
  }

  /** aosfs_mount_role, for the instance whose device, base and size `fs` gives. A mount that fails leaves the
      instance in use with whatever it holds by then. */
  function Mount(fs: Fs): (r: (Fs, bool))
    requires Placed(fs.dev, fs.base, fs.storage) && |fs.entries| == MAX_ENTRIES && fs.nextInode < U64
    ensures SameShape(fs.dev, r.0.dev) && (r.1 || VolumeOk(fs) ==> VolumeOk(r.0))
  {
    var fs0 := fs.(limit := MAX_ENTRIES, nextData := DATA_OFFSET);
    if fs.storage < DATA_OFFSET then (fs0, false)
    else
      var (d, ok, b) := Read(fs.dev, fs.base, SUPER_SIZE);
      if !ok then (fs0.(dev := d), false) else MountWith(fs0.(dev := d, entries := NoEntries()), DecodeSuper(b))
  }

  function MountWith(fs: Fs, super: Superblock): (r: (Fs, bool))
    requires Mountable(fs.dev, fs.base, fs.storage) && fs.entries == NoEntries() && fs.nextInode < U64
    ensures SameShape(fs.dev, r.0.dev) && VolumeOk(r.0)
  {
    if LegacySuperValid(super) then Migrate(fs)
    else if SuperValid(super) then Load(fs.(limit := super.maxEntries))
    else Initialise(fs.(limit := MAX_ENTRIES))
  }
}
