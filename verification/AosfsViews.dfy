/** AOSFS refines a map from paths to files. */
module AosfsViews {
  import opened Options
  import opened LittleEndian
  import opened AosfsFormat
  import opened Aosfs
  import opened AosfsExtents
  import opened AosfsSteps
  import opened AosfsContents

  /** What a path names: identity, ownership and bytes. */
  datatype File = File(kind: nat, mode: nat, uid: nat, gid: nat, inode: nat, data: Bytes)

  function FileOf(fs: Fs, e: Entry): (r: File)
  {
    File(e.kind, e.mode, e.uid, e.gid, e.inode, Content(fs, e))
  }

  /** The volume as a map from paths. */
  function View(fs: Fs, path: Bytes): (r: Option<File>)
    requires VolumeOk(fs)
  {
    var i := Find(fs, path);
    if i == fs.limit then None else Some(FileOf(fs, fs.entries[i]))
  }

  /** No two live entries have the same path. */
  ghost predicate DistinctPaths(fs: Fs)
    requires VolumeOk(fs)
  {
    forall i, j {:trigger fs.entries[i], fs.entries[j]} ::
        0 <= i < j < fs.limit && fs.entries[i].inUse ==> !Named(fs.entries[j], fs.entries[i].path)
  }

  lemma FindIs(fs: Fs, path: Bytes, i: nat)
    requires VolumeOk(fs) && i <= fs.limit
    requires i < fs.limit ==> Named(fs.entries[i], path)
    requires forall j :: 0 <= j < i ==> !Named(fs.entries[j], path)
    ensures Find(fs, path) == i
  {
  }

  /** A path that slot `i` never names keeps its file. */
  lemma ViewKept(fs: Fs, fs': Fs, i: nat, q: Bytes)
    requires Only(fs, fs', i)
    requires i < fs.limit ==> !Named(fs.entries[i], q) && !Named(fs'.entries[i], q)
    ensures View(fs', q) == View(fs, q)
  {
    hide Safe, DiskEntry, Mountable, EntryOk, Content;
    assert VolumeOk(fs) && VolumeOk(fs');
    var k := Find(fs, q);
    forall j | 0 <= j < fs.limit ensures Named(fs'.entries[j], q) <==> Named(fs.entries[j], q) {
      if j != i {
        assert Slot(fs', false, j) == Slot(fs, false, j);
      }
    }
    FindIs(fs', q, k);
    if k < fs.limit {
      assert k != i;
      assert Slot(fs', false, k) == Slot(fs, false, k);
    }
  }

  /** A path whose entry stays in its slot is found there again. */
  lemma ViewAt(fs: Fs, fs': Fs, p: Bytes)
    requires VolumeOk(fs) && Only(fs, fs', Find(fs, p)) && Find(fs, p) < fs.limit
    requires Named(fs'.entries[Find(fs, p)], p)
    ensures Find(fs', p) == Find(fs, p) && View(fs', p) == Some(FileOf(fs', fs'.entries[Find(fs, p)]))
  {
    hide Safe, DiskEntry, Mountable, EntryOk, Content;
    assert VolumeOk(fs) && VolumeOk(fs');
    var i := Find(fs, p);
    forall j | 0 <= j < i ensures !Named(fs'.entries[j], p) {
      assert Slot(fs', false, j) == Slot(fs, false, j);
    }
    FindIs(fs', p, i);
  }

  ghost predicate OthersSame(fs: Fs, fs': Fs, p: Bytes)
    requires VolumeOk(fs) && VolumeOk(fs')
  {
    forall q :: q != p ==> View(fs', q) == View(fs, q)
  }

  /** The same file but for its bytes, or nothing in both. */
  predicate SameButData(a: Option<File>, b: Option<File>)
  {
    if a.None? then b.None? else b.Some? && b.value == a.value.(data := b.value.data)
  }

  /** An operation that keeps an entry's identity changes at most the bytes of the path it names. */
  lemma IdentityKept(fs: Fs, fs': Fs, p: Bytes)
    requires VolumeOk(fs)
    requires var i := Find(fs, p); Only(fs, fs', i) && (i < fs.limit ==> SameIdentity(fs.entries[i], fs'.entries[i]))
    ensures OthersSame(fs, fs', p)
    ensures View(fs, p).None? ==> View(fs', p).None?
    ensures View(fs, p).Some? ==>
            View(fs', p) == Some(View(fs, p).value.(data := Content(fs', fs'.entries[Find(fs, p)])))
  {
    hide Only, Mountable, EntryOk, Content, View;
    var i := Find(fs, p);
    forall q | q != p ensures View(fs', q) == View(fs, q) {
      ViewKept(fs, fs', i, q);
    }
    FindCases(fs, p);
    if i < fs.limit {
      ViewAt(fs, fs', p);
    } else {
      ViewKept(fs, fs', i, p);
    }
  }

  lemma FindCases(fs: Fs, p: Bytes)
    requires VolumeOk(fs)
    ensures View(fs, p) == if Find(fs, p) == fs.limit then None else Some(FileOf(fs, fs.entries[Find(fs, p)]))
  {
  }

  /** aosfs_write_path refines splicing the map: success at an offset inside the file lays exactly `data` over its
      bytes, through any growth, relocation and sector boundary, and no outcome changes another path. */
  lemma WriteRefinesSplice(fs: Fs, p: Bytes, offset: nat, data: Bytes)
    requires Safe(fs)
    ensures var (fs1, ok) := WriteFile(fs, p, offset, data);
            && Safe(fs1) && OthersSame(fs, fs1, p) && SameButData(View(fs, p), View(fs1, p))
            && (ok ==> View(fs, p).Some? && View(fs, p).value.kind != DIRECTORY)
            && (ok && offset <= |View(fs, p).value.data| ==>
                  View(fs1, p) == Some(View(fs, p).value.(data := Overlay(View(fs, p).value.data, offset, data))))
  {
    hide Only, Mountable, EntryOk, Content, WriteFile, Overlay;
    WriteFileFacts(fs, p, offset, data);
    IdentityKept(fs, WriteFile(fs, p, offset, data).0, p);
  }

  /** aosfs_resize_path cuts the file or pads it with zeros. */
  lemma ResizeRefines(fs: Fs, p: Bytes, size: nat)
    requires Safe(fs)
    ensures var (fs1, ok) := Resize(fs, p, size);
            && Safe(fs1) && OthersSame(fs, fs1, p) && SameButData(View(fs, p), View(fs1, p))
            && (ok ==> View(fs, p).Some?
                       && View(fs1, p) == Some(View(fs, p).value.(data := Resized(View(fs, p).value.data, size))))
  {
    hide Only, Mountable, EntryOk, Content, Resize, Resized;
    ResizeFacts(fs, p, size);
    IdentityKept(fs, Resize(fs, p, size).0, p);
  }

  lemma TruncateRefines(fs: Fs, p: Bytes)
    requires Safe(fs)
    ensures var (fs1, ok) := Truncate(fs, p);
            && Safe(fs1) && OthersSame(fs, fs1, p) && SameButData(View(fs, p), View(fs1, p))
            && (ok ==> View(fs, p).Some? && View(fs1, p) == Some(View(fs, p).value.(data := [])))
  {
    hide Only, Mountable, EntryOk, Content, Truncate;
    TruncateFacts(fs, p);
    IdentityKept(fs, Truncate(fs, p).0, p);
  }

  /** Adding an entry for an absent path. */
  lemma AddRefines(fs: Fs, kind: nat, mode: nat, uid: nat, gid: nat, p: Bytes)
    requires Safe(fs) && uid < U32 && gid < U32 && |p| < PATH_MAX && 0 !in p && kind <= SYMLINK && View(fs, p).None?
    ensures var (fs1, ok) := AddEntry(fs, kind, mode, uid, gid, p);
            && Only(fs, fs1, FreeFrom(fs, 0)) && OthersSame(fs, fs1, p)
            && View(fs1, p) == (if ok then Some(File(kind, mode % MODE_MASK, uid, gid, fs.nextInode, [])) else None)
            && (DistinctPaths(fs) ==> DistinctPaths(fs1))
  {
    hide Only, Mountable, EntryOk, DiskEntry, Safe;
    var i := FreeFrom(fs, 0);
    var (fs1, ok) := AddEntry(fs, kind, mode, uid, gid, p);
    AddEntryOnly(fs, kind, mode, uid, gid, p);
    AddedEntry(fs, kind, mode, uid, gid, p);
    forall q | q != p ensures View(fs1, q) == View(fs, q) {
      ViewKept(fs, fs1, i, q);
    }
    if ok {
      OtherEntries(fs, fs1, i);
      FindIs(fs1, p, i);
      SizeOfContent(fs1, i);
    } else {
      ViewKept(fs, fs1, i, p);
      if i < fs.limit {
        OtherEntries(fs, fs1, i);
      }
    }
  }

  lemma OtherEntries(fs: Fs, fs': Fs, i: nat)
    requires Only(fs, fs', i)
    ensures forall j :: 0 <= j < fs.limit && j != i ==> fs'.entries[j] == fs.entries[j]
  {
    hide Mountable, EntryOk, DiskEntry, Safe;
    assert VolumeOk(fs) && VolumeOk(fs');
    forall j | 0 <= j < fs.limit && j != i ensures fs'.entries[j] == fs.entries[j] {
      assert Slot(fs', false, j) == Slot(fs, false, j);
    }
  }

  lemma AddedEntry(fs: Fs, kind: nat, mode: nat, uid: nat, gid: nat, p: Bytes)
    requires VolumeOk(fs) && uid < U32 && gid < U32 && |p| < PATH_MAX && 0 !in p && kind <= SYMLINK
    ensures var (fs1, ok) := AddEntry(fs, kind, mode, uid, gid, p);
            var i := FreeFrom(fs, 0);
            if ok then i < fs.limit && fs1.entries[i] == NewEntry(kind, mode, uid, gid, fs.nextInode, p)
            else i < fs.limit ==> fs1.entries[i] == EMPTY
  {
    hide Mountable, EntryOk, Sync;
  }

  /** aosfs_create_path_mode: success means the path names a file afterwards, a new empty one if it named nothing. */
  lemma CreateRefines(fs: Fs, p: Bytes, mode: nat, uid: nat, gid: nat)
    requires Safe(fs) && uid < U32 && gid < U32 && 0 !in p
    ensures var (fs1, ok) := Create(fs, p, mode, uid, gid);
            && Safe(fs1) && OthersSame(fs, fs1, p)
            && (!ok || View(fs, p).Some? ==> View(fs1, p) == View(fs, p))
            && (ok && View(fs, p).Some? ==> View(fs, p).value.kind != DIRECTORY)
            && (ok && View(fs, p).None? ==>
                View(fs1, p) == Some(File(REGULAR, mode % MODE_MASK, uid, gid, fs.nextInode, [])))
            && (DistinctPaths(fs) ==> DistinctPaths(fs1))
  {
    hide Only, Mountable, EntryOk, AddEntry, DistinctPaths, DiskEntry, Safe;
    if p != [] && |p| < PATH_MAX && Find(fs, p) == fs.limit {
      AddRefines(fs, REGULAR, mode, uid, gid, p);
    }
  }

  /** aosfs_mkdir_path_mode. */
  lemma MkdirRefines(fs: Fs, p: Bytes, mode: nat, uid: nat, gid: nat)
    requires Safe(fs) && uid < U32 && gid < U32 && 0 !in p
    ensures var (fs1, ok) := Mkdir(fs, p, mode, uid, gid);
            && Safe(fs1) && OthersSame(fs, fs1, p)
            && (!ok ==> View(fs1, p) == View(fs, p))
            && (ok ==>
                View(fs, p).None? && View(fs1, p) == Some(File(DIRECTORY, mode % MODE_MASK, uid, gid, fs.nextInode,
                    [])))
            && (DistinctPaths(fs) ==> DistinctPaths(fs1))
  {
    hide Only, Mountable, EntryOk, AddEntry, DistinctPaths, DiskEntry, Safe;
    if p != [] && |p| < PATH_MAX && Find(fs, p) == fs.limit {
      AddRefines(fs, DIRECTORY, mode, uid, gid, p);
    }
  }

  /** The file of the next slot with the same path, if there is one: failed table writes can leave a path in two
      slots. */
  function Shadowed(fs: Fs, p: Bytes): (v: Option<File>)
    requires VolumeOk(fs) && Find(fs, p) < fs.limit
  {
    var k := FindFrom(fs, p, Find(fs, p) + 1);
    if k == fs.limit then None else Some(FileOf(fs, fs.entries[k]))
  }

  /** Clearing the slot a path was found in. */
  lemma ClearRefines(fs: Fs, p: Bytes)
    requires Safe(fs) && Find(fs, p) < fs.limit
    ensures VolumeOk(Put(fs, Find(fs, p), EMPTY))
    ensures var i := Find(fs, p);
            var fs1 := Sync(Put(fs, i, EMPTY), i).0;
            Only(fs, fs1, i) && OthersSame(fs, fs1, p) && View(fs1, p) == Shadowed(fs, p)
                && (DistinctPaths(fs) ==> DistinctPaths(fs1))
  {
    hide Only, Mountable, EntryOk, DiskEntry, Safe, Sync, Content;
    var i := Find(fs, p);
    EmptyFits(fs, i);
    SyncOnly(fs, i, EMPTY);
    var fs1 := Sync(Put(fs, i, EMPTY), i).0;
    OtherEntries(fs, fs1, i);
    forall q | q != p ensures View(fs1, q) == View(fs, q) {
      ViewKept(fs, fs1, i, q);
    }
    var k := FindFrom(fs, p, i + 1);
    FindIs(fs1, p, k);
    if k < fs.limit {
      SlotContent(fs, fs1, i, k);
    }
  }

  lemma SlotContent(fs: Fs, fs1: Fs, i: nat, k: nat)
    requires Only(fs, fs1, i) && k < fs.limit && k != i
    ensures Content(fs1, fs.entries[k]) == Content(fs, fs.entries[k])
  {
    hide Safe, DiskEntry, Content, EntryOk, Placed;
    assert Slot(fs, false, k) == fs.entries[k];
  }

  lemma NothingShadowed(fs: Fs, p: Bytes)
    requires VolumeOk(fs) && DistinctPaths(fs) && Find(fs, p) < fs.limit
    ensures Shadowed(fs, p).None?
  {
    hide Mountable, EntryOk;
  }

  /** aosfs_unlink_path removes the first entry of a path that names a file, even if the table write then fails; where
      paths are unique the path then names nothing. */
  lemma UnlinkRefines(fs: Fs, p: Bytes)
    requires Safe(fs)
    ensures var (fs1, ok) := Unlink(fs, p);
            var found := p != [] && View(fs, p).Some? && View(fs, p).value.kind != DIRECTORY;
            && Safe(fs1) && OthersSame(fs, fs1, p) && (ok ==> found)
            && View(fs1, p) == (if found then Shadowed(fs, p) else View(fs, p))
            && (DistinctPaths(fs) ==> DistinctPaths(fs1) && (found ==> View(fs1, p).None?))
  {
    hide Only, Mountable, EntryOk, DistinctPaths, DiskEntry, Safe, Sync, Shadowed;
    if Find(fs, p) < fs.limit {
      ClearRefines(fs, p);
      if DistinctPaths(fs) {
        NothingShadowed(fs, p);
      }
    }
  }

  /** aosfs_rmdir_path removes the first entry of a path that names a directory nothing lies directly inside of. */
  lemma RmdirRefines(fs: Fs, p: Bytes)
    requires Safe(fs)
    ensures var (fs1, ok) := Rmdir(fs, p);
            && Safe(fs1) && OthersSame(fs, fs1, p)
            && (View(fs1, p) == View(fs, p) || (View(fs, p).Some? && View(fs1, p) == Shadowed(fs, p)))
            && (ok ==> View(fs, p).Some? && View(fs, p).value.kind == DIRECTORY && View(fs1, p) == Shadowed(fs, p)
                       && forall q :: View(fs, q).Some? ==> !ImmediateChild(p, q))
            && (DistinctPaths(fs) ==> DistinctPaths(fs1) && (ok ==> View(fs1, p).None?))
  {
    hide Only, Mountable, EntryOk, DistinctPaths, DiskEntry, Safe, Sync, Shadowed;
    if Find(fs, p) < fs.limit {
      ClearRefines(fs, p);
      if DistinctPaths(fs) {
        NothingShadowed(fs, p);
      }
    }
    if Rmdir(fs, p).1 {
      forall q | View(fs, q).Some? ensures !ImmediateChild(p, q) {
        assert fs.entries[Find(fs, q)].path == q;
      }
    }
  }

  /** aosfs_read_path returns what the map holds. */
  lemma ReadReturnsView(fs: Fs, p: Bytes, offset: nat, len: nat)
    requires Safe(fs)
    ensures var (_, ok, data) := ReadFile(fs, p, offset, len);
            var v := View(fs, p);
            && (ok ==> v.Some? && v.value.kind != DIRECTORY && offset + len <= |v.value.data|
                       && data == v.value.data[offset..offset + len])
            && (Responsive(fs.dev) && v.Some? && v.value.kind != DIRECTORY && offset + len <= |v.value.data| ==> ok)
  {
    hide Mountable, EntryOk, Content, ReadFile;
    ReadFacts(fs, p, offset, len);
  }
}
