/** Extent safety of AOSFS: in memory and on disk, whatever fails, no two entries share a byte of storage. */
module AosfsExtents {
  import opened Blkdev
  import opened LittleEndian
  import opened AosfsFormat
  import opened Aosfs

  /** What the table on the device says about slot `i`. */
  function DiskEntry(fs: Fs, i: nat): (r: Entry)
    requires Mountable(fs.dev, fs.base, fs.storage) && i < MAX_ENTRIES
  {
    var at := fs.base + EntryAt(i);
    DecodeEntry(fs.dev.bytes[at..at + ENTRY_SIZE])
  }

  /** Slot `i` as held in memory or as found on disk. */
  function Slot(fs: Fs, disk: bool, i: nat): (r: Entry)
    requires Mountable(fs.dev, fs.base, fs.storage) && |fs.entries| == MAX_ENTRIES && i < MAX_ENTRIES
  {
    if disk then DiskEntry(fs, i) else fs.entries[i]
  }

  /** A file fits its extent, and the extent lies between the table and free space. */
  predicate ExtentOk(e: Entry, nextData: nat)
  {
    && EntryOk(e) && (e.kind != DIRECTORY ==> e.size <= e.capacity && e.size <= MAX_FILE_SIZE)
    && (e.capacity != 0 ==> DATA_OFFSET <= e.offset && e.offset + e.capacity <= nextData)
    && (e.capacity == 0 ==> e.offset == 0)
    && (e.kind == DIRECTORY ==> e.capacity == 0)
  }

  predicate Apart(a: Entry, b: Entry)
  {
    a.capacity == 0 || b.capacity == 0 || a.offset + a.capacity <= b.offset || b.offset + b.capacity <= a.offset
  }

  /** Extent safety. */
  ghost predicate Safe(fs: Fs)
    ensures Safe(fs) ==> VolumeOk(fs) && DATA_OFFSET <= fs.nextData <= fs.storage
  {
    && VolumeOk(fs)
    && DATA_OFFSET <= fs.nextData <= fs.storage
    && (forall w, i {:trigger Slot(fs, w, i)} :: 0 <= i < fs.limit ==> ExtentOk(Slot(fs, w, i), fs.nextData))
    && (forall w, v, i, j {:trigger Slot(fs, w, i), Slot(fs, v, j)} ::
        0 <= i < fs.limit && 0 <= j < fs.limit && i != j ==>
          Apart(Slot(fs, w, i), Slot(fs, v, j)))
  }

  /** Only bytes in [lo, hi) may differ. */
  ghost predicate SameOutside(d: Device, d': Device, lo: nat, hi: nat)
  {
    && d' == d.(faults := d'.faults, bytes := d'.bytes) && |d'.bytes| == |d.bytes|
    && forall k :: 0 <= k < |d.bytes| && !(lo <= k < hi) ==> d'.bytes[k] == d.bytes[k]
  }

  lemma SameSlice(d: Device, d': Device, lo: nat, hi: nat, at: nat, n: nat)
    requires SameOutside(d, d', lo, hi) && at + n <= |d.bytes| && (at + n <= lo || hi <= at)
    ensures d'.bytes[at..at + n] == d.bytes[at..at + n]
  {
  }

  lemma WriteOutside(d: Device, off: nat, data: Bytes)
    requires DeviceOk(d)
    ensures SameOutside(d, Write(d, off, data).0, off, off + |data|)
    ensures var r := Write(d, off, data); r.1 ==> off + |data| <= |d.bytes| && r.0.bytes[off..off + |data|] == data
  {
    hide WriteLoop, Splice;
    var r := Write(d, off, data);
    if r.1 {
      assert data[..|data|] == data;
    }
  }

  /** Writing one table entry either happens or leaves the device as it was. */
  lemma EntryWriteIsAtomic(d: Device, base: nat, i: nat, data: Bytes)
    requires DeviceOk(d) && Aligned(d, base) && |data| == ENTRY_SIZE
    ensures var r := Write(d, base + EntryAt(i), data); !r.1 ==> r.0.bytes == d.bytes
  {
    hide WriteLoop, Splice, WriteBlock, Chunk;
    var off := base + EntryAt(i);
    if d.ops && d.blockSize <= SECTOR {
      EntryInBlock(d, base, i);
    } else if d.ops && off + |data| <= |d.bytes| {
      WriteLoopUnfold(d, off, data);
    }
  }

  lemma EntryInBlock(d: Device, base: nat, i: nat)
    requires 0 < d.blockSize <= SECTOR && d.blockSize % ENTRY_SIZE == 0 && base % d.blockSize == 0
    ensures Chunk(d, base + EntryAt(i), ENTRY_SIZE) == ENTRY_SIZE
  {
    if d.blockSize == 256 {
      assert (base + EntryAt(i)) % 256 == 0;
    } else {
      assert d.blockSize == 512;
      assert (base + EntryAt(i)) % 512 == 256 * (i % 2);
    }
  }

  /** sync_entry changes one slot of the disk table, to what memory holds, or nothing. */
  lemma SyncFacts(fs: Fs, i: nat)
    requires VolumeOk(fs) && i < fs.limit
    ensures var (fs1, ok) := Sync(fs, i);
            && SameOutside(fs.dev, fs1.dev, fs.base + EntryAt(i), fs.base + EntryAt(i + 1))
            && DiskEntry(fs1, i) == (if ok then fs.entries[i] else DiskEntry(fs, i))
            && (forall j :: 0 <= j < MAX_ENTRIES && j != i ==> DiskEntry(fs1, j) == DiskEntry(fs, j))
  {
    hide DecodeEntry, EncodeEntry, Write, EntryOk, DiskEntry, Aligned;
    var (fs1, ok) := Sync(fs, i);
    var at, data := fs.base + EntryAt(i), EncodeEntry(fs.entries[i]);
    WriteOutside(fs.dev, at, data);
    EntryWriteIsAtomic(fs.dev, fs.base, i, data);
    OwnSlot(fs, fs1, i, ok);
    OtherSlots(fs, fs1, i);
  }

  lemma OwnSlot(fs: Fs, fs1: Fs, i: nat, ok: bool)
    requires VolumeOk(fs) && VolumeOk(fs1) && fs1.base == fs.base && i < MAX_ENTRIES
             && |fs1.dev.bytes| == |fs.dev.bytes|
    requires if ok then fs1.dev.bytes[fs.base + EntryAt(i)..fs.base + EntryAt(i) + ENTRY_SIZE]
             == EncodeEntry(fs.entries[i])
             else fs1.dev.bytes == fs.dev.bytes
    ensures DiskEntry(fs1, i) == if ok then fs.entries[i] else DiskEntry(fs, i)
  {
    hide DecodeEntry, EncodeEntry, Aligned;
    EntryRoundTrip(fs.entries[i]);
  }

  lemma OtherSlots(fs: Fs, fs1: Fs, i: nat)
    requires Mountable(fs.dev, fs.base, fs.storage) && Mountable(fs1.dev, fs1.base, fs1.storage) && fs1.base == fs.base
    requires i < MAX_ENTRIES && SameOutside(fs.dev, fs1.dev, fs.base + EntryAt(i), fs.base + EntryAt(i + 1))
    ensures forall j :: 0 <= j < MAX_ENTRIES && j != i ==> DiskEntry(fs1, j) == DiskEntry(fs, j)
  {
    hide DecodeEntry, Aligned;
    forall j | 0 <= j < MAX_ENTRIES && j != i ensures DiskEntry(fs1, j) == DiskEntry(fs, j) {
      SameSlice(fs.dev, fs1.dev, fs.base + EntryAt(i), fs.base + EntryAt(i + 1), fs.base + EntryAt(j), ENTRY_SIZE);
    }
  }

  /** A change of bytes above the table keeps the disk table. */
  lemma DataKeepsTable(fs: Fs, d: Device, lo: nat, hi: nat)
    requires Mountable(fs.dev, fs.base, fs.storage) && SameOutside(fs.dev, d, lo, hi) && lo >= fs.base + DATA_OFFSET
    ensures forall j :: 0 <= j < MAX_ENTRIES ==> DiskEntry(fs.(dev := d), j) == DiskEntry(fs, j)
  {
    hide DecodeEntry;
    forall j | 0 <= j < MAX_ENTRIES ensures DiskEntry(fs.(dev := d), j) == DiskEntry(fs, j) {
      SameSlice(fs.dev, d, lo, hi, fs.base + EntryAt(j), ENTRY_SIZE);
    }
  }

  // One slot changes

  /** `e` could stand in slot `i`: its extent is in range and clear of every other slot's. */
  ghost predicate Fits(fs: Fs, i: nat, e: Entry, nextData: nat)
    requires VolumeOk(fs)
  {
    && ExtentOk(e, nextData)
    && (forall v, j {:trigger Slot(fs, v, j)} :: 0 <= j < fs.limit && j != i ==> Apart(e, Slot(fs, v, j)))
  }

  ghost predicate OthersKept(fs: Fs, fs': Fs, i: nat)
    requires VolumeOk(fs) && VolumeOk(fs')
  {
    && fs'.limit == fs.limit && fs'.storage == fs.storage
    && (forall w, j {:trigger Slot(fs', w, j)} {:trigger Slot(fs, w, j)} ::
        0 <= j < fs.limit && j != i ==> Slot(fs', w, j) == Slot(fs, w, j))
  }

  lemma OneSlotChanged(fs: Fs, fs': Fs, i: nat)
    requires Safe(fs) && VolumeOk(fs') && OthersKept(fs, fs', i) && i < fs.limit
    requires fs.nextData <= fs'.nextData <= fs.storage
    requires Fits(fs, i, Slot(fs', false, i), fs'.nextData) && Fits(fs, i, Slot(fs', true, i), fs'.nextData)
    ensures Safe(fs')
  {
    hide Mountable, EntryOk, DiskEntry;
    hide Slot;
    forall w, v, j, k | 0 <= j < fs.limit && 0 <= k < fs.limit && j != k
        ensures Apart(Slot(fs', w, j), Slot(fs', v, k)) {
      if j == i {
        assert Apart(Slot(fs', w, i), Slot(fs, v, k));
      } else if k == i {
        assert Apart(Slot(fs', v, i), Slot(fs, w, j));
      } else {
        assert Apart(Slot(fs, w, j), Slot(fs, v, k));
      }
    }
  }

  /** Entries whose extent is none, or one the slot already has, fit. */
  lemma SameExtentFits(fs: Fs, i: nat, w: bool, e: Entry)
    requires Safe(fs) && i < fs.limit && ExtentOk(e, fs.nextData)
    requires e.capacity == 0 || (e.offset == Slot(fs, w, i).offset && e.capacity == Slot(fs, w, i).capacity)
    ensures Fits(fs, i, e, fs.nextData)
  {
    hide Mountable, EntryOk, DiskEntry;
    forall v, j | 0 <= j < fs.limit && j != i ensures Apart(e, Slot(fs, v, j)) {
      assert Apart(Slot(fs, w, i), Slot(fs, v, j));
    }
  }

  /** An extent from free space fits, and so does one that grows into it. */
  lemma FreshExtentFits(fs: Fs, i: nat, e: Entry, nextData: nat)
    requires Safe(fs) && i < fs.limit && ExtentOk(e, nextData)
    requires e.offset >= fs.nextData || Grown(fs.entries[i], e, fs.nextData)
    ensures Fits(fs, i, e, nextData)
  {
    hide Mountable, EntryOk, DiskEntry;
    forall v, j | 0 <= j < fs.limit && j != i ensures Apart(e, Slot(fs, v, j)) {
      assert ExtentOk(Slot(fs, v, j), fs.nextData);
      assert Apart(Slot(fs, false, i), Slot(fs, v, j));
    }
  }

  predicate Grown(prior: Entry, e: Entry, nextData: nat)
  {
    prior.capacity != 0 && e.offset == prior.offset && prior.offset + prior.capacity == nextData
  }

  lemma KeepsFits(fs: Fs, i: nat, w: bool, nextData: nat)
    requires Safe(fs) && i < fs.limit && fs.nextData <= nextData
    ensures Fits(fs, i, Slot(fs, w, i), nextData)
  {
    hide Mountable, EntryOk, DiskEntry;
  }

  /** Storing an entry that fits and writing it through keeps extents safe, whether or not the write fails. */
  lemma PutSync(fs: Fs, i: nat, e: Entry)
    requires Safe(fs) && i < fs.limit && Fits(fs, i, e, fs.nextData)
    ensures VolumeOk(Put(fs, i, e))
    ensures var fs1 := Sync(Put(fs, i, e), i).0; Safe(fs1) && OthersKept(fs, fs1, i)
  {
    hide DiskEntry, EncodeEntry, Write, EntryOk;
    var fs0 := Put(fs, i, e);
    var (fs1, ok) := Sync(fs0, i);
    SyncFacts(fs0, i);
    KeepsFits(fs, i, true, fs.nextData);
    assert forall j :: 0 <= j < MAX_ENTRIES ==> DiskEntry(fs0, j) == DiskEntry(fs, j) by { SameDevice(fs, fs0); }
    OneSlotChanged(fs, fs1, i);
  }

  lemma SameDevice(fs: Fs, fs': Fs)
    requires Mountable(fs.dev, fs.base, fs.storage) && fs'.dev == fs.dev && fs'.base == fs.base
    requires fs'.storage == fs.storage
    ensures forall j :: 0 <= j < MAX_ENTRIES ==> DiskEntry(fs', j) == DiskEntry(fs, j)
  {
  }
}
