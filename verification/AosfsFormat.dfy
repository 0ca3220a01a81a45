/** The on-disk format of AOSFS (kernel/aosfs.c): superblock, 256-byte directory entries, little-endian
    fields, NUL-padded paths. */
module AosfsFormat {
  import opened LittleEndian

  const MAX_ENTRIES: nat := 2000
  const COMPAT_MAX_ENTRIES: nat := 1024
  const LEGACY_MAX_ENTRIES: nat := 64
  const PATH_MAX: nat := 128
  const INLINE_CAPACITY: nat := 8192
  const COMPAT_MAX_FILE_SIZE: nat := 0x400_0000
  const MAX_FILE_SIZE: nat := 0x4000_0000
  const MIN_EXTENT_CAPACITY: nat := 0x1_0000
  const EXTENT_ALIGNMENT: nat := 4096
  const MAGIC0: nat := 0x46534F41
  const MAGIC1: nat := 0x00003153
  const LEGACY_VERSION: nat := 3
  const VERSION: nat := 4
  const BLOCK_SIZE: nat := 512
  const TABLE_OFFSET: nat := 4096
  const DATA_OFFSET: nat := 524288
  const LEGACY_DATA_OFFSET: nat := 65536
  const ENTRY_SIZE: nat := 256
  const SUPER_SIZE: nat := 512
  const DYNAMIC_INO_BASE: nat := 0xA05F_D000
  const REGULAR: nat := 0
  const DIRECTORY: nat := 1
  const SYMLINK: nat := 2
  const MODE_VALID: nat := 0x8000
  const MODE_MASK: nat := 4096

  /** A directory entry as the driver holds it. */
  datatype Entry = Entry(inUse: bool, kind: nat, mode: nat, size: nat, uid: nat, gid: nat, inode: nat,
                         offset: nat, capacity: nat, path: Bytes)

  const EMPTY: Entry := Entry(false, 0, 0, 0, 0, 0, 0, 0, 0, [])

  /** Entries fit their fields; a slot not in use has been cleared. */
  predicate EntryOk(e: Entry)
  {
    && e.kind <= SYMLINK && e.mode < MODE_MASK && e.size < U32 && e.uid < U32 && e.gid < U32
    && e.inode < U64 && e.offset < U64 && e.capacity < U64
    && |e.path| < PATH_MAX && 0 !in e.path
    && (!e.inUse ==> e == EMPTY)
  }

  // NUL-padded paths

  function Zeros(n: nat): (b: Bytes)
    ensures |b| == n && forall k :: 0 <= k < n ==> b[k] == 0
  {
    seq(n, _ => 0)
  }

  /** copy_string into a cleared buffer of PATH_MAX bytes. */
  function PadPath(path: Bytes): (b: Bytes)
    requires |path| < PATH_MAX
    ensures |b| == PATH_MAX
  {
    path + Zeros(PATH_MAX - |path|)
  }

  /** copy_string out of a path buffer: up to the first NUL, at most `room` bytes. */
  function CString(b: Bytes, room: nat): (path: Bytes)
    ensures |path| <= room && |path| <= |b| && 0 !in path && path == b[..|path|]
    ensures |path| < room && |path| < |b| ==> b[|path|] == 0
  {
    if room == 0 || b == [] || b[0] == 0 then []
    else
      var rest := CString(b[1..], room - 1);
      assert b[1..][..|rest|] == b[1..1 + |rest|];
      [b[0]] + rest
  }

  lemma {:induction false} CStringOf(path: Bytes, rest: Bytes, room: nat)
    requires |path| <= room && 0 !in path && (rest == [] || rest[0] == 0)
    ensures CString(path + rest, room) == path
  {
    if path == [] {
      assert path + rest == rest;
    } else {
      assert path[0] != 0 && (path + rest)[1..] == path[1..] + rest;
      CStringOf(path[1..], rest, room - 1);
    }
  }

  lemma PathRoundTrip(path: Bytes)
    requires |path| < PATH_MAX && 0 !in path
    ensures CString(PadPath(path), PATH_MAX - 1) == path
  {
    CStringOf(path, Zeros(PATH_MAX - |path|), PATH_MAX - 1);
  }

  // Entries

  function Bit(b: bool): (r: byte)
  {
    if b then 1 else 0
  }

  /** The bytes sync_entry writes. */
  function EncodeEntry(e: Entry): (b: Bytes)
    requires EntryOk(e)
    ensures |b| == ENTRY_SIZE
  {
    Head(e) + PadPath(e.path) + Tail(e)
  }

  /** Bytes 0 to 15 of an entry: use, kind, mode, size, inode. */
  function Head(e: Entry): (b: Bytes)
    requires EntryOk(e)
    ensures |b| == 16
  {
    [Bit(e.inUse), e.kind] + LE(MODE_VALID + e.mode % MODE_MASK, 2) + LE(e.size, 4) + LE(e.inode, 8)
  }

  /** Bytes 144 to 255 of an entry: extent, owner, padding. */
  function Tail(e: Entry): (b: Bytes)
    ensures |b| == 112
  {
    LE(e.offset, 8) + LE(e.capacity, 8) + LE(e.uid, 4) + LE(e.gid, 4) + Zeros(88)
  }

  function Field(b: Bytes, at: nat, n: nat): (r: nat)
    requires at + n <= |b|
    ensures r < Bound(n)
  {
    FromLE(b[at..at + n])
  }

  function DefaultMode(kind: nat): (r: nat)
  {
    if kind == DIRECTORY then 0x1ED else if kind == SYMLINK then 0x1FF else 0x1A4
  }

  /** The entry a mount takes from 256 table bytes, before it is validated. */
  function DecodeEntry(b: Bytes): (e: Entry)
    requires |b| == ENTRY_SIZE
  {
    if b[0] == 0 then EMPTY
    else
      var mode := Field(b, 2, 2);
      Entry(true, b[1], if mode >= MODE_VALID then mode % MODE_MASK else DefaultMode(b[1]), Field(b, 4, 4),
            Field(b, 160, 4), Field(b, 164, 4), Field(b, 8, 8), Field(b, 144, 8), Field(b, 152, 8),
            CString(b[16..144], PATH_MAX - 1))
  }

  lemma FieldOf(a: Bytes, n: nat, k: nat, c: Bytes)
    requires n < Bound(k)
    ensures Field(a + LE(n, k) + c, |a|, k) == n
  {
    assert (a + LE(n, k) + c)[|a|..|a| + k] == LE(n, k);
    LERoundTrip(n, k);
  }

  /** What a mount decodes is what sync_entry encoded. */
  lemma EntryRoundTrip(e: Entry)
    requires EntryOk(e)
    ensures DecodeEntry(EncodeEntry(e)) == e
  {
    hide LE, FromLE, Bound, Tail, Field, CString;
    var b := EncodeEntry(e);
    assert b[0] == Bit(e.inUse);
    if e.inUse {
      HeadRoundTrip(e);
      TailRoundTrip(e);
      PathRoundTrip(e.path);
      assert b[16..144] == PadPath(e.path);
      assert b[1] == e.kind;
    }
  }

  lemma HeadRoundTrip(e: Entry)
    requires EntryOk(e)
    ensures var b := EncodeEntry(e);
            Field(b, 2, 2) == MODE_VALID + e.mode && Field(b, 4, 4) == e.size && Field(b, 8, 8) == e.inode
  {
    hide LE, FromLE, Bound, PadPath, Tail, Field;
    var b, rest := EncodeEntry(e), PadPath(e.path) + Tail(e);
    var m, s, n := LE(MODE_VALID + e.mode % MODE_MASK, 2), LE(e.size, 4), LE(e.inode, 8);
    var a: Bytes := [Bit(e.inUse), e.kind];
    Bounds();
    FieldOf(a, MODE_VALID + e.mode % MODE_MASK, 2, s + n + rest);
    FieldOf(a + m, e.size, 4, n + rest);
    FieldOf(a + m + s, e.inode, 8, rest);
    assert b == a + m + (s + n + rest) == (a + m) + s + (n + rest) == (a + m + s) + n + rest;
  }

  lemma TailRoundTrip(e: Entry)
    requires EntryOk(e)
    ensures var b := EncodeEntry(e);
            && Field(b, 144, 8) == e.offset && Field(b, 152, 8) == e.capacity
            && Field(b, 160, 4) == e.uid && Field(b, 164, 4) == e.gid
  {
    hide LE, FromLE, Bound, PadPath, Head, Field;
    var b, a := EncodeEntry(e), Head(e) + PadPath(e.path);
    var o, c, u, g, z := LE(e.offset, 8), LE(e.capacity, 8), LE(e.uid, 4), LE(e.gid, 4), Zeros(88);
    Bounds();
    FieldOf(a, e.offset, 8, c + u + g + z);
    FieldOf(a + o, e.capacity, 8, u + g + z);
    FieldOf(a + o + c, e.uid, 4, g + z);
    FieldOf(a + o + c + u, e.gid, 4, z);
    assert b == a + o + (c + u + g + z) == (a + o) + c + (u + g + z);
    assert b == (a + o + c) + u + (g + z) == (a + o + c + u) + g + z;
  }

  /** Whatever the bytes, a decoded entry of a known kind fits its fields. */
  lemma DecodedOk(b: Bytes)
    requires |b| == ENTRY_SIZE
    ensures DecodeEntry(b).kind <= SYMLINK ==> EntryOk(DecodeEntry(b))
  {
    hide LE, FromLE, Bound;
    Bounds();
  }

  /** Permission bits, in octal digits. */
  function Rights(owner: nat, group: nat, others: nat): (r: nat)
  {
    64 * owner + 8 * group + others
  }

  /** An entry whose mode field lacks the valid bit, as older kernels wrote it, decodes with every other field as
      encoded and rwxr-xr-x for a directory, rwxrwxrwx for a symbolic link, rw-r--r-- for a file. */
  lemma OldEntryDecodes(e: Entry, low: byte, high: byte)
    requires EntryOk(e) && e.inUse && high < 128
    ensures DecodeEntry(EncodeEntry(e)[2 := low][3 := high]) == e.(mode :=
              if e.kind == DIRECTORY then Rights(7, 5, 5) else if e.kind == SYMLINK then Rights(7, 7, 7)
              else Rights(6, 4, 4))
  {
    hide LE, FromLE, Bound, Tail, Head, PadPath, CString;
    var b := EncodeEntry(e);
    var b1 := b[2 := low][3 := high];
    EntryRoundTrip(e);
    HeadOfEntry(e);
    LowMode(low, high);
    assert b1[2..4] == [low, high];
    assert b1[4..8] == b[4..8] && b1[8..16] == b[8..16] && b1[16..144] == b[16..144] && b1[144..152] == b[144..152];
    assert b1[152..160] == b[152..160] && b1[160..164] == b[160..164] && b1[164..168] == b[164..168];
  }

  lemma HeadOfEntry(e: Entry)
    requires EntryOk(e)
    ensures EncodeEntry(e)[0] == Bit(e.inUse) && EncodeEntry(e)[1] == e.kind
  {
  }

  lemma LowMode(low: byte, high: byte)
    requires high < 128
    ensures FromLE([low, high]) < MODE_VALID
  {
    assert [low, high][1..] == [high] && [high][1..] == [];
    assert FromLE([high]) == high;
  }

  // The superblock

  /** The nine fields of a superblock. */
  datatype Superblock = Superblock(magic0: nat, magic1: nat, version: nat, blockSize: nat, maxEntries: nat,
                                   pathMax: nat, fileCapacity: nat, tableOffset: nat, dataOffset: nat)

  /** What fill_superblock sets. */
  const FRESH_SUPER: Superblock :=
    Superblock(MAGIC0, MAGIC1, VERSION, BLOCK_SIZE, MAX_ENTRIES, PATH_MAX, MAX_FILE_SIZE, TABLE_OFFSET, DATA_OFFSET)

  predicate SuperValid(s: Superblock)
  {
    && s.magic0 == MAGIC0 && s.magic1 == MAGIC1 && s.version == VERSION
    && (s.maxEntries == MAX_ENTRIES || s.maxEntries == COMPAT_MAX_ENTRIES)
    && s.pathMax == PATH_MAX
    && (s.fileCapacity == MAX_FILE_SIZE || s.fileCapacity == COMPAT_MAX_FILE_SIZE)
    && s.tableOffset == TABLE_OFFSET && s.dataOffset == DATA_OFFSET
  }

  predicate LegacySuperValid(s: Superblock)
  {
    && s.magic0 == MAGIC0 && s.magic1 == MAGIC1 && s.version == LEGACY_VERSION
    && s.maxEntries == LEGACY_MAX_ENTRIES && s.pathMax == PATH_MAX && s.fileCapacity == INLINE_CAPACITY
    && s.tableOffset == TABLE_OFFSET && s.dataOffset == LEGACY_DATA_OFFSET
  }

  /** A row of 32-bit fields. */
  function Words(ns: seq<nat>): (b: Bytes)
    ensures |b| == 4 * |ns|
  {
    if ns == [] then [] else LE(ns[0], 4) + Words(ns[1..])
  }

  function EncodeSuper(s: Superblock): (b: Bytes)
    ensures |b| == SUPER_SIZE
  {
    Words([s.magic0, s.magic1, s.version, s.blockSize, s.maxEntries, s.pathMax, s.fileCapacity, s.tableOffset,
           s.dataOffset]) + Zeros(476)
  }

  function DecodeSuper(b: Bytes): (s: Superblock)
    requires |b| == SUPER_SIZE
  {
    Superblock(Field(b, 0, 4), Field(b, 4, 4), Field(b, 8, 4), Field(b, 12, 4), Field(b, 16, 4), Field(b, 20, 4),
               Field(b, 24, 4), Field(b, 28, 4), Field(b, 32, 4))
  }

  lemma {:induction false} WordAt(ns: seq<nat>, i: nat, rest: Bytes)
    requires i < |ns| && ns[i] < U32
    ensures Field(Words(ns) + rest, 4 * i, 4) == ns[i]
  {
    hide LE, FromLE, Bound, Field;
    Bounds();
    if i == 0 {
      FieldOf([], ns[0], 4, Words(ns[1..]) + rest);
      assert Words(ns) + rest == [] + LE(ns[0], 4) + (Words(ns[1..]) + rest);
    } else {
      WordAt(ns[1..], i - 1, rest);
      var a, b := Words(ns) + rest, Words(ns[1..]) + rest;
      assert a == LE(ns[0], 4) + b;
      FieldShift(LE(ns[0], 4), b, 4 * (i - 1), 4);
    }
  }

  lemma FieldShift(a: Bytes, b: Bytes, at: nat, n: nat)
    requires at + n <= |b|
    ensures Field(a + b, |a| + at, n) == Field(b, at, n)
  {
    assert (a + b)[|a| + at..|a| + at + n] == b[at..at + n];
  }

  /** The superblock that a format or a migration writes is the one the next mount accepts. */
  lemma SuperRoundTrip()
    ensures DecodeSuper(EncodeSuper(FRESH_SUPER)) == FRESH_SUPER && SuperValid(FRESH_SUPER)
  {
    hide Words, Field, LE;
    var s := FRESH_SUPER;
    var ns := [s.magic0, s.magic1, s.version, s.blockSize, s.maxEntries, s.pathMax, s.fileCapacity, s.tableOffset,
               s.dataOffset];
    forall i | 0 <= i < 9 ensures Field(EncodeSuper(s), 4 * i, 4) == ns[i] {
      WordAt(ns, i, Zeros(476));
    }
    assert Field(EncodeSuper(s), 4 * 0, 4) == ns[0] && Field(EncodeSuper(s), 4 * 1, 4) == ns[1];
    assert Field(EncodeSuper(s), 4 * 2, 4) == ns[2] && Field(EncodeSuper(s), 4 * 3, 4) == ns[3];
    assert Field(EncodeSuper(s), 4 * 4, 4) == ns[4] && Field(EncodeSuper(s), 4 * 5, 4) == ns[5];
    assert Field(EncodeSuper(s), 4 * 6, 4) == ns[6] && Field(EncodeSuper(s), 4 * 7, 4) == ns[7];
    assert Field(EncodeSuper(s), 4 * 8, 4) == ns[8];
  }
}
