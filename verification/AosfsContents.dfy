/** What AOSFS operations do to the bytes of a file: growth and relocation keep them, a write splices them. */
module AosfsContents {
  import opened Blkdev
  import opened LittleEndian
  import opened AosfsFormat
  import opened Aosfs
  import opened AosfsExtents
  import opened AosfsSteps

  /** Copying page by page moves the bytes and touches nothing else. */
  lemma {:induction false} CopyFacts(d: Device, from: nat, to: nat, n: nat)
    requires DeviceOk(d) && from + n <= to && to + n <= |d.bytes|
    ensures var (d1, ok) := CopyBytes(d, from, to, n);
            && SameOutside(d, d1, to, to + n)
            && (ok ==> d1.bytes[to..to + n] == d.bytes[from..from + n])
    decreases n
  {
    hide CopyBytes, CopyChunk;
    CopyUnfold(d, from, to, n);
    if n > 0 {
      var chunk := if n > 4096 then 4096 else n;
      CopyChunkFacts(d, from, to, chunk);
      var (d1, ok) := CopyChunk(d, from, to, chunk);
      if ok {
        CopyFacts(d1, from + chunk, to + chunk, n - chunk);
        var r := CopyBytes(d1, from + chunk, to + chunk, n - chunk);
        CopyJoin(d, d1, r.0, from, to, chunk, n, r.1);
      }
    }
  }

  lemma CopyChunkFacts(d: Device, from: nat, to: nat, n: nat)
    requires DeviceOk(d) && from + n <= to && to + n <= |d.bytes|
    ensures var (d1, ok) := CopyChunk(d, from, to, n);
            SameOutside(d, d1, to, to + n) && (ok ==> d1.bytes[to..to + n] == d.bytes[from..from + n])
  {
    hide Read, Write, Splice, NoFaults;
    var (d1, okRead, piece) := Read(d, from, n);
    if okRead {
      WriteOutside(d1, to, piece);
    }
  }

  lemma CopyUnfold(d: Device, from: nat, to: nat, n: nat)
    requires DeviceOk(d)
    ensures n == 0 ==> CopyBytes(d, from, to, n) == (d, true)
    ensures n > 0 ==>
              var chunk := if n > 4096 then 4096 else n;
              var (d1, ok) := CopyChunk(d, from, to, chunk);
              CopyBytes(d, from, to, n) == if !ok then (d1, false)
                  else CopyBytes(d1, from + chunk, to + chunk, n - chunk)
  {
    hide CopyChunk;
  }

  lemma CopyJoin(d: Device, d2: Device, d3: Device, from: nat, to: nat, chunk: nat, n: nat, ok: bool)
    requires from + n <= to && to + n <= |d.bytes| && 0 < chunk <= n
    requires SameOutside(d, d2, to, to + chunk) && SameOutside(d2, d3, to + chunk, to + n)
    requires d2.bytes[to..to + chunk] == d.bytes[from..from + chunk]
    requires ok ==> d3.bytes[to + chunk..to + n] == d2.bytes[from + chunk..from + n]
    ensures SameOutside(d, d3, to, to + n)
    ensures ok ==> d3.bytes[to..to + n] == d.bytes[from..from + n]
  {
    if ok {
      var a, b := d3.bytes[to..to + n], d.bytes[from..from + n];
      forall k | 0 <= k < n ensures a[k] == b[k] {
        if k < chunk {
          assert a[k] == d2.bytes[to..to + chunk][k] == d.bytes[from..from + chunk][k];
        } else {
          assert d3.bytes[to + chunk..to + n][k - chunk] == d2.bytes[from + chunk..from + n][k - chunk];
        }
      }
      assert a == b;
    }
  }

  lemma {:induction false} ZeroFacts(d: Device, at: nat, n: nat)
    requires DeviceOk(d) && at + n <= |d.bytes|
    ensures var (d1, ok) := ZeroBytes(d, at, n);
            && SameOutside(d, d1, at, at + n)
            && (ok ==> d1.bytes[at..at + n] == Zeros(n))
    decreases n
  {
    hide ZeroBytes, Write, Splice, NoFaults;
    ZeroUnfold(d, at, n);
    if n > 0 {
      var chunk := if n > 512 then 512 else n;
      var (d1, ok, _) := Write(d, at, Zeros(chunk));
      WriteOutside(d, at, Zeros(chunk));
      if ok {
        ZeroFacts(d1, at + chunk, n - chunk);
        var r := ZeroBytes(d1, at + chunk, n - chunk);
        if r.1 {
          ZeroJoin(d1.bytes, r.0.bytes, at, chunk, n);
        }
      }
    }
  }

  lemma ZeroJoin(b1: Bytes, b2: Bytes, at: nat, chunk: nat, n: nat)
    requires chunk <= n && at + n <= |b1| == |b2| && b1[at..at + chunk] == Zeros(chunk)
    requires forall k :: 0 <= k < at + chunk ==> b2[k] == b1[k]
    requires b2[at + chunk..at + chunk + (n - chunk)] == Zeros(n - chunk)
    ensures b2[at..at + n] == Zeros(n)
  {
    assert b2[at..at + chunk] == b1[at..at + chunk];
    assert b2[at..at + n] == b2[at..at + chunk] + b2[at + chunk..at + chunk + (n - chunk)];
  }

  lemma ZeroUnfold(d: Device, at: nat, n: nat)
    requires DeviceOk(d)
    ensures n == 0 ==> ZeroBytes(d, at, n) == (d, true)
    ensures n > 0 ==>
              var chunk := if n > 512 then 512 else n;
              var (d1, ok, _) := Write(d, at, Zeros(chunk));
              ZeroBytes(d, at, n) == if !ok then (d1, false) else ZeroBytes(d1, at + chunk, n - chunk)
  {
    hide Write;
  }

  // Reserving space

  /** A file with its bytes, seen through the entry in slot `i`. */
  ghost predicate SameFile(fs: Fs, fs': Fs, i: nat)
    requires i < |fs.entries| && i < |fs'.entries|
  {
    && fs'.entries[i] == fs.entries[i].(offset := fs'.entries[i].offset, capacity := fs'.entries[i].capacity)
    && Content(fs', fs'.entries[i]) == Content(fs, fs.entries[i])
  }

  predicate IsFile(fs: Fs, i: nat)
    requires VolumeOk(fs)
  {
    i < fs.limit && fs.entries[i].inUse && fs.entries[i].kind != DIRECTORY
  }

  /** Growing in place. */
  lemma GrowKeeps(fs: Fs, i: nat, capacity: nat)
    requires Safe(fs) && IsFile(fs, i) && fs.entries[i].capacity <= capacity < U64 && 0 < fs.entries[i].capacity
    requires fs.entries[i].offset + fs.entries[i].capacity == fs.nextData
    ensures var r := GrowInPlace(fs, i, capacity);
            Only(fs, r.0, i) && SameFile(fs, r.0, i) && (r.1 ==> r.0.entries[i].capacity == capacity)
  {
    hide DiskEntry, Only, Commit;
    var offset := fs.entries[i].offset;
    assert ExtentOk(Slot(fs, false, i), fs.nextData);
    if offset + capacity <= fs.storage {
      CommitOnly(fs, i, offset, capacity);
      CommitContent(fs, i, offset, capacity, fs.entries[i]);
    } else {
      OnlyRefl(fs, i);
    }
  }

  /** A change of extent rewrites only a table entry, so bytes of extents stay. */
  lemma CommitContent(fs: Fs, i: nat, offset: nat, capacity: nat, e: Entry)
    requires Safe(fs) && i < fs.limit && fs.entries[i].inUse && offset < U64 && capacity < U64
    requires e.offset >= DATA_OFFSET || e.size == 0
    ensures Content(Commit(fs, i, offset, capacity).0, e) == Content(fs, e)
  {
    hide DiskEntry, EntryOk, Commit;
    CommitFacts(fs, i, offset, capacity);
  }

  /** Relocation. */
  lemma RelocateKeeps(fs: Fs, i: nat, capacity: nat)
    requires Safe(fs) && IsFile(fs, i) && fs.entries[i].capacity <= capacity < U64 && 0 < capacity
    ensures var r := Relocate(fs, i, capacity);
            Only(fs, r.0, i) && SameFile(fs, r.0, i) && (r.1 ==> r.0.entries[i].capacity == capacity)
  {
    hide DiskEntry, Only, Commit, CopyBytes, AlignUp, Content;
    var e, to := fs.entries[i], AlignUp(fs.nextData);
    assert ExtentOk(Slot(fs, false, i), fs.nextData);
    if to == U64 - 1 || to + capacity >= U64 || to + capacity > fs.storage || (e.capacity == 0 && e.size > 0) {
      OnlyRefl(fs, i);
    } else {
      var (d, ok) := CopyBytes(fs.dev, fs.base + e.offset, fs.base + to, e.size);
      var fs1 := fs.(dev := d);
      CopyContent(fs, i, to, capacity);
      if ok {
        CommitOnly(fs1, i, to, capacity);
        OnlyTrans(fs, fs1, Commit(fs1, i, to, capacity).0, i);
        CommitContent(fs1, i, to, capacity, e);
        CommitContent(fs1, i, to, capacity, e.(offset := to, capacity := capacity));
      }
    }
  }

  /** Copying a file into free space. */
  lemma CopyContent(fs: Fs, i: nat, to: nat, capacity: nat)
    requires Safe(fs) && IsFile(fs, i) && fs.nextData <= to && to + fs.entries[i].size <= fs.storage
    ensures var e := fs.entries[i];
            var (d, ok) := CopyBytes(fs.dev, fs.base + e.offset, fs.base + to, e.size);
            var fs1 := fs.(dev := d);
            && Only(fs, fs1, i) && Content(fs1, e) == Content(fs, e)
            && (ok ==> Content(fs1, e.(offset := to, capacity := capacity)) == Content(fs, e))
  {
    hide DiskEntry, Only, CopyBytes;
    var e := fs.entries[i];
    assert ExtentOk(Slot(fs, false, i), fs.nextData);
    var d := CopyBytes(fs.dev, fs.base + e.offset, fs.base + to, e.size).0;
    CopyFacts(fs.dev, fs.base + e.offset, fs.base + to, e.size);
    DataOnly(fs, d, to, to + e.size, i);
  }

  /** reserve_entry_extent: whatever happens the file keeps its bytes and every other file too; on success
      there is room for what was asked. */
  lemma ReserveKeeps(fs: Fs, i: nat, required: nat)
    requires Safe(fs) && IsFile(fs, i)
    ensures var r := Reserve(fs, i, required);
            Only(fs, r.0, i) && SameFile(fs, r.0, i) && (r.1 ==> r.0.entries[i].capacity >= required)
  {
    hide Only, GrowInPlace, Relocate, NewCapacity, DiskEntry;
    var e := fs.entries[i];
    if required > MAX_FILE_SIZE || required <= e.capacity {
      OnlyRefl(fs, i);
    } else {
      var capacity := NewCapacity(e.capacity, required);
      if e.capacity != 0 && e.offset + e.capacity == fs.nextData {
        GrowKeeps(fs, i, capacity);
      } else {
        RelocateKeeps(fs, i, capacity);
      }
    }
  }

  // Writing

  /** `data` laid over `old` at `offset`, growing it if need be. */
  function Overlay(before: Bytes, offset: nat, data: Bytes): (r: Bytes)
    requires offset <= |before|
    ensures |r| == if offset + |data| > |before| then offset + |data| else |before|
    ensures forall k :: 0 <= k < |r| ==> r[k] == if offset <= k < offset + |data| then data[k - offset] else before[k]
  {
    before[..offset] + data + (if offset + |data| < |before| then before[offset + |data|..] else [])
  }

  lemma OverlayAt(before: Bytes, offset: nat, data: Bytes)
    requires offset <= |before|
    ensures Overlay(before, offset, data)[offset..offset + |data|] == data
  {
    hide Overlay;
  }

  /** A file of slot `i` gets another size within its extent. */
  lemma SetSizeOnly(fs: Fs, i: nat, size: nat)
    requires Safe(fs) && IsFile(fs, i) && size <= fs.entries[i].capacity && size <= MAX_FILE_SIZE
    ensures var (fs1, ok) := SetSize(fs, i, size);
            && Only(fs, fs1, i) && fs1.entries[i] == fs.entries[i].(size := size)
            && fs1 == fs.(entries := fs1.entries, dev := fs1.dev)
            && Content(fs1, fs1.entries[i]) == Content(fs, fs1.entries[i])
  {
    hide DiskEntry, Only, Mountable, Fits, Safe, Sync, Slot;
    var e := fs.entries[i].(size := size);
    SizeOfContent(fs, i);
    assert Slot(fs, false, i) == fs.entries[i] by { SlotIs(fs, i); }
    SameExtentFits(fs, i, false, e);
    SyncOnly(fs, i, e);
    SyncFacts(Put(fs, i, e), i);
  }

  lemma SlotIs(fs: Fs, i: nat)
    requires VolumeOk(fs) && i < MAX_ENTRIES
    ensures Slot(fs, false, i) == fs.entries[i]
  {
  }

  /** The state after aosfs_write_path has reserved space and issued its device write. */
  lemma WriteData(fs: Fs, i: nat, offset: nat, data: Bytes)
    requires Safe(fs) && IsFile(fs, i) && |data| > 0 && offset + |data| <= fs.entries[i].capacity
    ensures var r := Write(fs.dev, fs.base + DataAt(fs.entries[i], i) + offset, data);
            var fs1 := fs.(dev := r.0);
            var e := fs.entries[i];
            && Only(fs, fs1, i)
            && (r.1 && offset <= |Content(fs, e)| ==>
                  Content(fs1, e.(size := if offset + |data| > e.size then offset + |data| else e.size))
                  == Overlay(Content(fs, e), offset, data))
  {
    hide DiskEntry, Only, Aligned, Write, EntryOk, Safe, Content;
    var e := fs.entries[i];
    SizeOfContent(fs, i);
    var at := fs.base + e.offset + offset;
    WriteOutside(fs.dev, at, data);
    var r := Write(fs.dev, at, data);
    DataOnly(fs, r.0, e.offset + offset, e.offset + offset + |data|, i);
    if r.1 {
      OverlayContent(fs, r.0, e, offset, data);
    }
  }

  lemma OverlayContent(fs: Fs, d: Device, e: Entry, offset: nat, data: Bytes)
    requires e.kind != DIRECTORY && e.size <= e.capacity && fs.base + e.offset + e.capacity <= |fs.dev.bytes|
    requires offset + |data| <= e.capacity
    requires SameOutside(fs.dev, d, fs.base + e.offset + offset, fs.base + e.offset + offset + |data|)
    requires d.bytes[fs.base + e.offset + offset..fs.base + e.offset + offset + |data|] == data
    ensures offset <= |Content(fs, e)| ==>
              Content(fs.(dev := d), e.(size := if offset + |data| > e.size then offset + |data| else e.size))
              == Overlay(Content(fs, e), offset, data)
  {
    hide Overlay;
    var at, b, b' := fs.base + e.offset, fs.dev.bytes, d.bytes;
    assert Content(fs, e) == b[at..at + e.size];
    if offset <= e.size {
      var n := if offset + |data| > e.size then offset + |data| else e.size;
      OverlayBytes(b, b', at, e.size, offset, data);
      assert Content(fs.(dev := d), e.(size := n)) == b'[at..at + n];
    }
  }

  lemma VolumeFits(fs: Fs)
    requires VolumeOk(fs)
    ensures fs.base + fs.storage <= |fs.dev.bytes| && DeviceOk(fs.dev)
  {
  }

  lemma OverlayBytes(b: Bytes, b': Bytes, at: nat, size: nat, offset: nat, data: Bytes)
    requires |b'| == |b| && offset <= size && at + size <= |b| && at + offset + |data| <= |b|
    requires forall k :: 0 <= k < |b| && !(at + offset <= k < at + offset + |data|) ==> b'[k] == b[k]
    requires b'[at + offset..at + offset + |data|] == data
    ensures var n := if offset + |data| > size then offset + |data| else size;
            b'[at..at + n] == Overlay(b[at..at + size], offset, data)
  {
    hide Overlay;
    var n := if offset + |data| > size then offset + |data| else size;
    var x, y := b'[at..at + n], Overlay(b[at..at + size], offset, data);
    forall k | 0 <= k < n ensures x[k] == y[k] {
      if offset <= k < offset + |data| {
        assert b'[at + offset..at + offset + |data|][k - offset] == data[k - offset];
      }
    }
    assert x == y;
  }

  /** aosfs_write_path, on the slot it finds: any outcome leaves all other files alone; success at an offset inside the
      file splices exactly the given bytes. */
  lemma WriteFileFacts(fs: Fs, path: Bytes, offset: nat, data: Bytes)
    requires Safe(fs)
    ensures var (fs1, ok) := WriteFile(fs, path, offset, data);
            var i := Find(fs, path);
            && Only(fs, fs1, i)
            && (i < fs.limit ==> SameIdentity(fs.entries[i], fs1.entries[i]))
            && (ok ==> IsFile(fs, i))
            && (ok && offset <= |Content(fs, fs.entries[i])| ==>
                  Content(fs1, fs1.entries[i]) == Overlay(Content(fs, fs.entries[i]), offset, data))
  {
    hide Only, DiskEntry, Reserve, Write, SetSize;
    hide Mountable, Overlay, EntryOk, Content;
    var i := Find(fs, path);
    if i == fs.limit || !IsFile(fs, i) || offset > MAX_FILE_SIZE || |data| > MAX_FILE_SIZE - offset || data == [] {
      OnlyRefl(fs, i);
      if i < fs.limit && offset <= |Content(fs, fs.entries[i])| {
        assert data == [] ==> Overlay(Content(fs, fs.entries[i]), offset, data) == Content(fs, fs.entries[i]);
      }
    } else {
      SizeOfContent(fs, i);
      var end := offset + |data|;
      var (fs1, okReserve) := Reserve(fs, i, end);
      ReserveKeeps(fs, i, end);
      if okReserve {
        VolumeFits(fs1);
        WriteData(fs1, i, offset, data);
        var e := fs1.entries[i];
        var r := Write(fs1.dev, fs1.base + DataAt(e, i) + offset, data);
        var fs2 := fs1.(dev := r.0);
        OnlyTrans(fs, fs1, fs2, i);
        if r.1 {
          var size := if end > e.size then end else e.size;
          SizeOfContent(fs1, i);
          SetSizeOnly(fs2, i, size);
          OnlyTrans(fs, fs2, SetSize(fs2, i, size).0, i);
        }
      }
    }
  }

  predicate SameIdentity(e: Entry, e': Entry)
  {
    e' == e.(offset := e'.offset, capacity := e'.capacity, size := e'.size)
  }

  lemma SizeOfContent(fs: Fs, i: nat)
    requires Safe(fs) && i < fs.limit
    ensures ExtentOk(fs.entries[i], fs.nextData)
    ensures fs.entries[i].kind != DIRECTORY ==> |Content(fs, fs.entries[i])| == fs.entries[i].size
  {
    assert ExtentOk(Slot(fs, false, i), fs.nextData);
  }

  // Resizing and truncating

  /** The first `size` bytes, padded with zeros. */
  function Resized(before: Bytes, size: nat): (r: Bytes)
    ensures |r| == size
  {
    if size <= |before| then before[..size] else before + Zeros(size - |before|)
  }

  /** The state after aosfs_resize_path has reserved space and issued its zeroing loop. */
  lemma ZeroData(fs: Fs, i: nat, size: nat)
    requires Safe(fs) && IsFile(fs, i) && fs.entries[i].size < size <= fs.entries[i].capacity && DeviceOk(fs.dev)
    ensures var e := fs.entries[i];
            var r := ZeroBytes(fs.dev, fs.base + DataAt(e, i) + e.size, size - e.size);
            var fs1 := fs.(dev := r.0);
            && Only(fs, fs1, i)
            && (r.1 ==> Content(fs1, e.(size := size)) == Resized(Content(fs, e), size))
  {
    hide DiskEntry, Only, Mountable, ZeroBytes, EntryOk, Safe, Resized;
    var e := fs.entries[i];
    SizeOfContent(fs, i);
    VolumeFits(fs);
    var at := fs.base + e.offset + e.size;
    var r := ZeroBytes(fs.dev, at, size - e.size);
    ZeroFacts(fs.dev, at, size - e.size);
    DataOnly(fs, r.0, e.offset + e.size, e.offset + size, i);
    if r.1 {
      ZeroTail(fs.dev.bytes, r.0.bytes, fs.base + e.offset, e.size, size);
    }
  }

  lemma ZeroTail(b: Bytes, b': Bytes, at: nat, before: nat, size: nat)
    requires |b'| == |b| && before <= size && at + size <= |b|
    requires forall k :: 0 <= k < |b| && !(at + before <= k < at + size) ==> b'[k] == b[k]
    requires b'[at + before..at + before + (size - before)] == Zeros(size - before)
    ensures b'[at..at + size] == Resized(b[at..at + before], size)
  {
    var x, y := b'[at..at + size], Resized(b[at..at + before], size);
    forall k | 0 <= k < size ensures x[k] == y[k] {
      if k >= before {
        assert x[k] == b'[at + before..at + before + (size - before)][k - before];
      }
    }
    assert x == y;
  }

  lemma ShrinkContent(fs: Fs, e: Entry, size: nat)
    requires size <= e.size && |Content(fs, e)| == e.size
    ensures Content(fs, e.(size := size)) == Resized(Content(fs, e), size)
  {
    var at, b := fs.base + e.offset, fs.dev.bytes;
    if e.kind != DIRECTORY && at + e.size <= |b| {
      assert b[at..at + e.size][..size] == b[at..at + size];
    }
  }

  lemma ResizeFacts(fs: Fs, path: Bytes, size: nat)
    requires Safe(fs)
    ensures var (fs1, ok) := Resize(fs, path, size);
            var i := Find(fs, path);
            && Only(fs, fs1, i)
            && (i < fs.limit ==> SameIdentity(fs.entries[i], fs1.entries[i]))
            && (ok ==> IsFile(fs, i) && Content(fs1, fs1.entries[i]) == Resized(Content(fs, fs.entries[i]), size))
  {
    hide Only, DiskEntry, Reserve, ZeroBytes, SetSize;
    hide Mountable, EntryOk, Content, Resized, Safe;
    var i := Find(fs, path);
    if size > MAX_FILE_SIZE || i == fs.limit || fs.entries[i].kind != REGULAR {
      OnlyRefl(fs, i);
    } else if size <= fs.entries[i].size {
      SizeOfContent(fs, i);
      SetSizeOnly(fs, i, size);
      ShrinkContent(fs, fs.entries[i], size);
    } else {
      SizeOfContent(fs, i);
      var (fs1, okReserve) := Reserve(fs, i, size);
      ReserveKeeps(fs, i, size);
      if okReserve {
        VolumeFits(fs1);
        ZeroData(fs1, i, size);
        var e := fs1.entries[i];
        var r := ZeroBytes(fs1.dev, fs1.base + DataAt(e, i) + e.size, size - e.size);
        var fs2 := fs1.(dev := r.0);
        OnlyTrans(fs, fs1, fs2, i);
        if r.1 {
          SetSizeOnly(fs2, i, size);
          OnlyTrans(fs, fs2, SetSize(fs2, i, size).0, i);
        }
      }
    }
  }

  lemma TruncateFacts(fs: Fs, path: Bytes)
    requires Safe(fs)
    ensures var (fs1, ok) := Truncate(fs, path);
            var i := Find(fs, path);
            && Only(fs, fs1, i)
            && (i < fs.limit ==> SameIdentity(fs.entries[i], fs1.entries[i]))
            && (ok ==> IsFile(fs, i) && Content(fs1, fs1.entries[i]) == [])
  {
    hide Only, DiskEntry, SetSize, Mountable, EntryOk;
    var i := Find(fs, path);
    if i == fs.limit || fs.entries[i].kind != REGULAR {
      OnlyRefl(fs, i);
    } else {
      SetSizeOnly(fs, i, 0);
      SizeOfContent(SetSize(fs, i, 0).0, i);
    }
  }

  /** No call to the device fails, and its blocks fit the sector buffer. */
  predicate Responsive(d: Device)
  {
    NoFaults(d) && (d.ops ==> d.blockSize <= SECTOR)
  }

  /** Reading returns the bytes of the file and fails only outside it or when the device fails. */
  lemma ReadFacts(fs: Fs, path: Bytes, offset: nat, len: nat)
    requires Safe(fs)
    ensures var (fs1, ok, data) := ReadFile(fs, path, offset, len);
            var i := Find(fs, path);
            && (ok ==> IsFile(fs, i) && offset + len <= |Content(fs, fs.entries[i])|
                       && data == Content(fs, fs.entries[i])[offset..offset + len])
            && (Responsive(fs.dev) && IsFile(fs, i) && offset + len <= |Content(fs, fs.entries[i])| ==> ok)
  {
    hide DiskEntry, Read, EntryOk;
    var i := Find(fs, path);
    if IsFile(fs, i) && offset + len <= fs.entries[i].size {
      SizeOfContent(fs, i);
      var e := fs.entries[i];
      if len > 0 {
        SliceOfSlice(fs.dev.bytes, fs.base + e.offset, e.size, offset, len);
      }
    }
  }
}
