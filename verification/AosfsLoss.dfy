/** Any entry of the new table can be the first that a migration fails to write, so files can be lost. */
module AosfsLoss {
  import opened Blkdev
  import opened AosfsFormat
  import opened Aosfs
  import opened AosfsExtents
  import opened AosfsViews
  import opened AosfsSound
  import opened AosfsMount
  import opened AosfsRemount
  import opened AosfsMigration
  import opened AosfsInterrupted
  import opened BlkdevScripts

  function Scripted(fs: Fs, script: seq<bool>): (r: Fs)
  {
    fs.(dev := With(fs.dev, script))
  }

  lemma HealthyUsable(d: Device)
    requires Healthy(d) && DeviceOk(d)
    ensures Usable(d)
  {
  }

  lemma {:induction false} SyncScript(fs: Fs, i: nat, k: nat) returns (s: seq<bool>)
    requires VolumeOk(fs) && fs.limit == MAX_ENTRIES && Usable(fs.dev) && fs.dev.ops && i <= k < MAX_ENTRIES
    ensures VolumeOk(Scripted(fs, s)) && FirstUnsynced(Scripted(fs, s), i) == k
    decreases k - i
  {
    hide EncodeEntry, EntryOk, Write, Splice, Aligned;
    var at, data := fs.base + EntryAt(i), EncodeEntry(fs.entries[i]);
    if i == k {
      s := [true];
      SwapDevice(fs, With(fs.dev, s));
      WriteFails(fs.dev, at, data);
    } else {
      var fs1 := fs.(dev := fs.dev.(bytes := Splice(fs.dev.bytes, at, data)));
      SwapDevice(fs, fs1.dev);
      var later := SyncScript(fs1, i + 1, k);
      s := WriteScript(fs.dev, at, data, later);
      SwapDevice(fs, With(fs.dev, s));
      assert Sync(Scripted(fs, s), i) == (Scripted(fs1, later), true);
    }
  }

  lemma MigrateOneScript(fs: Fs, i: nat, highest: nat, rest: seq<bool>) returns (s: seq<bool>)
    requires Mountable(fs.dev, fs.base, fs.storage) && EntriesOk(fs.entries) && i < LEGACY_MAX_ENTRIES
    requires Usable(fs.dev) && LEGACY_END <= fs.nextData && MigrateOne(fs, i, highest).1
    ensures var r := MigrateOne(fs, i, highest);
            MigrateOne(Scripted(fs, s), i, highest) == (Scripted(r.0, rest), true, r.2)
  {
    hide Read, EntryOk, DecodeEntry, CopyBytes, Pasted;
    var at := fs.base + EntryAt(i);
    var b := fs.dev.bytes[at..at + ENTRY_SIZE];
    DecodedOk(b);
    var e := DecodeEntry(b);
    var later := rest;
    if e.inUse && e.kind != DIRECTORY {
      var from, to := fs.base + LegacyAt(i), fs.base + fs.nextData;
      later := CopyScript(fs.dev, from, to, e.size, rest);
      CopyPastes(With(fs.dev, later), from, to, e.size);
      CopyPastes(Read(fs.dev, at, ENTRY_SIZE).0, from, to, e.size);
    }
    s := ReadScript(fs.dev, at, ENTRY_SIZE, later);
  }

  lemma {:induction false} LoadAllScript(fs: Fs, i: nat, highest: nat, rest: seq<bool>) returns (s: seq<bool>)
    requires Mountable(fs.dev, fs.base, fs.storage) && EntriesOk(fs.entries) && i <= LEGACY_MAX_ENTRIES
    requires Usable(fs.dev) && LEGACY_END <= fs.nextData
    requires forall j :: i <= j < LEGACY_MAX_ENTRIES ==> fs.entries[j] == EMPTY
    requires LoadAll(fs, i, LEGACY_MAX_ENTRIES, true, highest).1
    ensures var r := LoadAll(fs, i, LEGACY_MAX_ENTRIES, true, highest);
            LoadAll(Scripted(fs, s), i, LEGACY_MAX_ENTRIES, true, highest) == (Scripted(r.0, rest), true, r.2)
    decreases LEGACY_MAX_ENTRIES - i
  {
    hide LoadAll, MigrateOne, EntryOk, DiskEntry, Moved;
    LoadUnfold(fs, i, LEGACY_MAX_ENTRIES, true, highest);
    if i == LEGACY_MAX_ENTRIES {
      s := rest;
    } else {
      MigrateOneFacts(fs, i, highest);
      var (fs1, _, h) := MigrateOne(fs, i, highest);
      var later := LoadAllScript(fs1, i + 1, h, rest);
      s := MigrateOneScript(fs, i, highest, later);
    }
    LoadUnfold(Scripted(fs, s), i, LEGACY_MAX_ENTRIES, true, highest);
  }

  lemma CopiedScript(fs: Fs, rest: seq<bool>) returns (s: seq<bool>)
    requires Mountable(fs.dev, fs.base, fs.storage) && Usable(fs.dev) && Copied(fs).1
    ensures var r := Copied(fs); Copied(Scripted(fs, s)) == (Scripted(r.0, rest), true, r.2)
  {
    hide LoadAll, EntryOk, Read;
    var fs0 := Start(fs, Read(fs.dev, fs.base, SUPER_SIZE).0);
    NoEntriesOk();
    var later := LoadAllScript(fs0, 0, DYNAMIC_INO_BASE - 1, rest);
    s := ReadScript(fs.dev, fs.base, SUPER_SIZE, later);
    assert Start(Scripted(fs, s), With(fs.dev, later)) == Scripted(fs0, later);
  }

  /** For every entry of the new table there are failures of a block device because of which it is the first that is not
      written. */
  lemma StopsAnywhere(fs: Fs, k: nat) returns (s: seq<bool>)
    requires Mountable(fs.dev, fs.base, fs.storage) && Usable(fs.dev) && fs.dev.ops && Copied(fs).1 && k < MAX_ENTRIES
    ensures Copied(Scripted(fs, s)).1 && FirstUnsynced(Rewriting(Scripted(fs, s)), 0) == k
  {
    hide Copied, FirstUnsynced;
    var fs2 := Rewriting(fs);
    var later := SyncScript(fs2, 0, k);
    s := CopiedScript(fs, later);
    assert Rewriting(Scripted(fs, s)) == Scripted(fs2, later);
  }

  /** Every migratable volume on a block device has a file to lose if one of its bytes lies under the new table and
      differs from what is written there: for some failures the migration stops, and the next mount, with no more
      failures, gives another file. */
  lemma MigrationCanLose(fs: Fs, j: nat, x: nat) returns (s: seq<bool>)
    requires CanMount(fs) && LegacySuperValid(SuperOf(fs)) && Healthy(fs.dev) && fs.dev.ops
    requires Migratable(fs.(nextData := LEGACY_END), 0)
    requires j < LEGACY_MAX_ENTRIES && DiskEntry(fs, j).inUse && x < |LegacyFile(fs, j).data|
    requires LegacyAt(j) + x < EntryAt(MAX_ENTRIES - 1) && LegacyFile(fs, j).data[x] != BlankAt(LegacyAt(j) + x)
    ensures var later := Repaired(Mount(Scripted(fs, s)).0);
            !Mount(Scripted(fs, s)).1 && CanMount(later) && Mount(later).1
    ensures var fs3 := Mount(Repaired(Mount(Scripted(fs, s)).0)).0;
            && fs3.entries[j].inUse && fs3.entries[j].path == DiskEntry(fs, j).path
            && FileOf(fs3, fs3.entries[j]) != LegacyFile(fs, j)
  {
    hide Copied, FirstUnsynced, Mount, SuperOf, Migratable, DiskEntry, LegacyFile, LegacyFileAfter, BlankAt, Stopped,
      SuperSame;
    var k := MAX_ENTRIES - 1;
    HealthyUsable(fs.dev);
    CopiedFacts(fs);
    s := StopsAnywhere(fs, k);
    var broken := Scripted(fs, s);
    SameEntry(fs, broken, j);
    SurvivesIff(broken, j, k);
    RewriteStops(broken);
    InterruptedMigration(broken);
  }
}
