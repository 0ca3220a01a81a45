/** ext4 directory records (kernel/ext4.c): blocks tiled by variable-length records, insertion into slack space, and
    lookup by name. */
module Ext4Dirs {
  import opened Options
  import opened LittleEndian

  /** A live directory entry. */
  datatype Item = Item(name: Bytes, ino: nat, kind: byte)

  // Records

  function Ino(b: Bytes): (r: nat)
    requires |b| >= 8
  {
    FromLE(b[0..4])
  }

  function Len(b: Bytes): (r: nat)
    requires |b| >= 8
  {
    FromLE(b[4..6])
  }

  /** A record starts here and ends inside the block. */
  predicate Heads(b: Bytes)
  {
    |b| >= 8 && 8 <= Len(b) <= |b|
  }

  /** dirent_rec_len. */
  function RecLen(nameLen: nat): (r: nat)
    ensures 8 + nameLen <= r < 8 + nameLen + 4 && r % 4 == 0
  {
    (8 + nameLen + 3) / 4 * 4
  }

  function Name(b: Bytes): (r: Bytes)
    requires |b| >= 8 && 8 + b[6] <= |b|
  {
    b[8..8 + b[6]]
  }

  /** The block is tiled: records follow each other to its end, and the name of a live one lies inside it and is a C
      string. */
  predicate Tiled(b: Bytes)
    decreases |b|
  {
    b == [] || (Heads(b) && (Ino(b) != 0 ==> 8 + b[6] <= Len(b) && 0 !in Name(b)) && Tiled(b[Len(b)..]))
  }

  /** The live entries of a tiled block, in order. */
  function Live(b: Bytes): (items: seq<Item>)
    requires Tiled(b)
    decreases |b|
  {
    if b == [] then []
    else (if Ino(b) != 0 then [Item(Name(b), Ino(b), b[7])] else []) + Live(b[Len(b)..])
  }

  // Inserting

  /** The bytes of a record up to the end of its name. */
  function Record(item: Item, len: nat): (r: Bytes)
    requires |item.name| < 256
    ensures |r| == 8 + |item.name|
  {
    LE(item.ino, 4) + LE(len, 2) + [|item.name|, item.kind] + item.name
  }

  /** Space the record at the start of `b` really needs. */
  function Actual(b: Bytes): (r: nat)
    requires |b| >= 8
  {
    if Ino(b) != 0 then RecLen(b[6]) else 8
  }

  /** The record loop of add_dir_entry on one block: a dead record that is large enough is taken over, a record with
      slack is split, and otherwise the search goes on behind it. */
  function AddTo(b: Bytes, item: Item): (r: Option<Bytes>)
    requires 0 < |item.name| < 256
    ensures r.Some? ==> |r.value| == |b|
    decreases |b|
  {
    var needed := RecLen(|item.name|);
    if !Heads(b) then None
    else if Ino(b) == 0 && Len(b) >= needed then Some(Record(item, Len(b)) + b[8 + |item.name|..])
    else if Len(b) >= Actual(b) + needed then Some(Split(b, item))
    else
      var rest := AddTo(b[Len(b)..], item);
      if rest.None? then None else Some(b[..Len(b)] + rest.value)
  }

  /** The first record shrunk to what it needs, the new one in the rest of its space. */
  function Split(b: Bytes, item: Item): (r: Bytes)
    requires Heads(b) && 0 < |item.name| < 256 && Len(b) >= Actual(b) + RecLen(|item.name|)
    ensures |r| == |b|
  {
    var a := Actual(b);
    b[..4] + LE(a, 2) + b[6..a] + Record(item, Len(b) - a) + b[a + 8 + |item.name|..]
  }

  /** add_dir_entry over the blocks of a directory: the first block with room takes the entry. */
  function AddEntry(dir: seq<Bytes>, item: Item): (r: Option<seq<Bytes>>)
    requires 0 < |item.name| < 256
    decreases |dir|
  {
    if dir == [] then None
    else
      var here := AddTo(dir[0], item);
      if here.Some? then Some([here.value] + dir[1..])
      else
        var rest := AddEntry(dir[1..], item);
        if rest.None? then None else Some([dir[0]] + rest.value)
  }

  // Finding

  /** The record loop of find_dir_entry on one block. */
  function FindIn(b: Bytes, name: Bytes): (r: Option<(nat, byte)>)
    decreases |b|
  {
    if !Heads(b) then None
    else if Ino(b) != 0 && b[6] <= Len(b) - 8 && Name(b) == name then Some((Ino(b), b[7]))
    else FindIn(b[Len(b)..], name)
  }

  /** find_dir_entry. */
  function FindEntry(dir: seq<Bytes>, name: Bytes): (r: Option<(nat, byte)>)
    decreases |dir|
  {
    if dir == [] then None
    else
      var here := FindIn(dir[0], name);
      if here.Some? then here else FindEntry(dir[1..], name)
  }

  // A list of entries

  /** The entry a lookup in a list finds. */
  function Lookup(items: seq<Item>, name: Bytes): (r: Option<(nat, byte)>)
  {
    if items == [] then None
    else if items[0].name == name then Some((items[0].ino, items[0].kind))
    else Lookup(items[1..], name)
  }

  /** `after` is `before` with one item put in somewhere. */
  ghost predicate OneAdded(before: seq<Item>, after: seq<Item>, item: Item)
  {
    exists i :: 0 <= i <= |before| && after == before[..i] + [item] + before[i..]
  }

  lemma AddedAt(before: seq<Item>, i: nat, item: Item)
    requires i <= |before|
    ensures OneAdded(before, before[..i] + [item] + before[i..], item)
  {
  }

  lemma AddedBehind(front: seq<Item>, before: seq<Item>, after: seq<Item>, item: Item)
    requires OneAdded(before, after, item)
    ensures OneAdded(front + before, front + after, item)
  {
    var i :| 0 <= i <= |before| && after == before[..i] + [item] + before[i..];
    var all := front + before;
    assert all[..|front| + i] == front + before[..i] && all[|front| + i..] == before[i..];
    assert front + after == all[..|front| + i] + [item] + all[|front| + i..];
  }

  lemma AddedBefore(before: seq<Item>, after: seq<Item>, back: seq<Item>, item: Item)
    requires OneAdded(before, after, item)
    ensures OneAdded(before + back, after + back, item)
  {
    var i :| 0 <= i <= |before| && after == before[..i] + [item] + before[i..];
    var all := before + back;
    assert all[..i] == before[..i] && all[i..] == before[i..] + back;
    assert after + back == all[..i] + [item] + all[i..];
  }

  lemma {:induction false} LookupAppend(a: seq<Item>, b: seq<Item>, name: Bytes)
    ensures Lookup(a + b, name) == if Lookup(a, name).Some? then Lookup(a, name) else Lookup(b, name)
  {
    if a == [] {
      assert a + b == b;
    } else {
      assert (a + b)[1..] == a[1..] + b;
      LookupAppend(a[1..], b, name);
    }
  }

  /** Adding an entry under a new name makes that name resolve to it and leaves every other name as it was. */
  lemma AddedLookup(before: seq<Item>, after: seq<Item>, item: Item, name: Bytes)
    requires OneAdded(before, after, item)
    ensures name != item.name ==> Lookup(after, name) == Lookup(before, name)
    ensures name == item.name && Lookup(before, name).None? ==> Lookup(after, name) == Some((item.ino, item.kind))
  {
    var i :| 0 <= i <= |before| && after == before[..i] + [item] + before[i..];
    assert before == before[..i] + before[i..];
    LookupAppend(before[..i], before[i..], name);
    LookupAppend(before[..i], [item] + before[i..], name);
    assert after == before[..i] + ([item] + before[i..]);
    assert ([item] + before[i..])[1..] == before[i..];
  }

  // Blocks

  /** A lookup in a tiled block is a lookup among its live entries. */
  lemma {:induction false} FindInIs(b: Bytes, name: Bytes)
    requires Tiled(b)
    ensures FindIn(b, name) == Lookup(Live(b), name)
    decreases |b|
  {
    if b != [] {
      var rest := Live(b[Len(b)..]);
      FindInIs(b[Len(b)..], name);
      if Ino(b) != 0 {
        var one := [Item(Name(b), Ino(b), b[7])];
        assert (one + rest)[1..] == rest;
      } else {
        assert Live(b) == rest;
      }
    }
  }

  predicate ItemOk(item: Item)
  {
    0 < |item.name| < 256 && 0 !in item.name && 0 < item.ino < U32
  }

  /** A block that starts with a written record. */
  lemma RecordHeads(item: Item, len: nat, tail: Bytes)
    requires ItemOk(item) && 8 + |item.name| <= len < 65536 && len <= 8 + |item.name| + |tail|
    ensures var b := Record(item, len) + tail;
            && |b| >= 8 && Ino(b) == item.ino && Len(b) == len && b[6] == |item.name| && b[7] == item.kind && Heads(b)
                && Name(b) == item.name
  {
    hide LE, FromLE, Bound;
    var b := Record(item, len) + tail;
    Bounds();
    LERoundTrip(item.ino, 4);
    LERoundTrip(len, 2);
    assert b[0..4] == LE(item.ino, 4) && b[4..6] == LE(len, 2);
    assert b[8..8 + |item.name|] == item.name;
  }

  /** The live entry of the first record, if it is live. */
  function First(b: Bytes): (r: seq<Item>)
    requires Heads(b) && (Ino(b) != 0 ==> 8 + b[6] <= Len(b))
  {
    if Ino(b) != 0 then [Item(Name(b), Ino(b), b[7])] else []
  }

  /** A record before a tiled block gives a tiled block. */
  lemma TiledCons(b: Bytes)
    requires Heads(b) && (Ino(b) != 0 ==> 8 + b[6] <= Len(b) && 0 !in Name(b)) && Tiled(b[Len(b)..])
    ensures Tiled(b) && Live(b) == First(b) + Live(b[Len(b)..])
  {
    hide FromLE;
  }

  lemma TiledRest(b: Bytes)
    requires Tiled(b) && b != []
    ensures Heads(b) && (Ino(b) != 0 ==> 8 + b[6] <= Len(b) && 0 !in Name(b)) && Tiled(b[Len(b)..])
            && Live(b) == First(b) + Live(b[Len(b)..])
  {
    hide FromLE;
  }

  lemma TakeOver(b: Bytes, item: Item)
    requires Tiled(b) && Heads(b) && ItemOk(item) && Ino(b) == 0 && Len(b) >= RecLen(|item.name|)
    ensures var r := Record(item, Len(b)) + b[8 + |item.name|..];
            Tiled(r) && Live(r) == [item] + Live(b) && Live(b) == Live(b[Len(b)..])
  {
    hide LE, FromLE, Bound, Record;
    var r := Record(item, Len(b)) + b[8 + |item.name|..];
    LenBound(b);
    RecordHeads(item, Len(b), b[8 + |item.name|..]);
    assert r[Len(b)..] == b[Len(b)..];
  }

  lemma LenBound(b: Bytes)
    requires |b| >= 8
    ensures Len(b) < 65536
  {
    hide FromLE, Bound;
    Bounds();
  }

  /** The shrunk record in front. */
  lemma SplitFront(b: Bytes, item: Item)
    requires Tiled(b) && Heads(b) && ItemOk(item) && Ino(b) != 0 && Len(b) >= Actual(b) + RecLen(|item.name|)
    ensures var r, a := Split(b, item), Actual(b);
            && Heads(r) && Ino(r) == Ino(b) && Len(r) == a && r[6] == b[6] && r[7] == b[7] && Name(r) == Name(b)
            && r[a..] == Record(item, Len(b) - a) + b[a + 8 + |item.name|..]
  {
    hide LE, FromLE, Bound, Record;
    var r, a := Split(b, item), Actual(b);
    Bounds();
    LenBound(b);
    LERoundTrip(a, 2);
    assert r[0..4] == b[0..4] && r[4..6] == LE(a, 2);
    assert r[6..a] == b[6..a];
    assert r[6] == r[6..a][0] == b[6] && r[7] == r[6..a][1] == b[7];
    assert r[8..8 + b[6]] == r[6..a][2..2 + b[6]] == b[6..a][2..2 + b[6]] == b[8..8 + b[6]];
  }

  lemma SplitTiles(b: Bytes, item: Item)
    requires Tiled(b) && Heads(b) && ItemOk(item) && Ino(b) != 0 && Len(b) >= Actual(b) + RecLen(|item.name|)
    ensures var r := Split(b, item);
            Tiled(r) && Live(r) == [Item(Name(b), Ino(b), b[7]), item] + Live(b[Len(b)..])
  {
    hide LE, FromLE, Bound, Record, Split, Tiled, Live, Ino, Len;
    var r, a := Split(b, item), Actual(b);
    var tail := b[a + 8 + |item.name|..];
    var second := Record(item, Len(b) - a) + tail;
    LenBound(b);
    TiledRest(b);
    SplitFront(b, item);
    RecordHeads(item, Len(b) - a, tail);
    assert second[Len(b) - a..] == b[Len(b)..];
    TiledCons(second);
    TiledCons(r);
  }

  /** Insertion into a tiled block keeps it tiled and adds exactly one live entry. */
  lemma {:induction false} AddToBlock(b: Bytes, item: Item)
    requires Tiled(b) && ItemOk(item) && AddTo(b, item).Some?
    ensures var r := AddTo(b, item).value; Tiled(r) && OneAdded(Live(b), Live(r), item)
    decreases |b|
  {
    hide LE, FromLE, Bound, Record, Split, Tiled, Live, Ino, Len, OneAdded, Name;
    var needed := RecLen(|item.name|);
    TiledRest(b);
    if Ino(b) == 0 && Len(b) >= needed {
      TakeOver(b, item);
      AddedAt(Live(b), 0, item);
      assert Live(b)[..0] + [item] + Live(b)[0..] == [item] + Live(b);
    } else if Len(b) >= Actual(b) + needed {
      SplitTiles(b, item);
      var one, rest := [Item(Name(b), Ino(b), b[7])], Live(b[Len(b)..]);
      AddedAt(one + rest, 1, item);
      assert (one + rest)[..1] + [item] + (one + rest)[1..] == [Item(Name(b), Ino(b), b[7]), item] + rest;
    } else {
      var rest := b[Len(b)..];
      AddToBlock(rest, item);
      var added := AddTo(rest, item).value;
      SameFront(b, added);
      AddedBehind(First(b), Live(rest), Live(added), item);
    }
  }

  lemma SameFront(b: Bytes, added: Bytes)
    requires Tiled(b) && Heads(b) && Tiled(added) && |added| == |b| - Len(b)
    ensures var r := b[..Len(b)] + added;
            Tiled(r) && Live(r) == (if Ino(b) != 0 then [Item(Name(b), Ino(b), b[7])] else []) + Live(added)
  {
    hide FromLE, Tiled, Live;
    var r := b[..Len(b)] + added;
    TiledRest(b);
    assert r[0..4] == b[0..4] && r[4..6] == b[4..6] && r[6] == b[6] && r[7] == b[7];
    assert r[Len(b)..] == added;
    if Ino(b) != 0 {
      assert r[8..8 + b[6]] == b[8..8 + b[6]];
    }
    TiledCons(r);
  }

  // Directories

  predicate AllTiled(dir: seq<Bytes>)
  {
    forall i :: 0 <= i < |dir| ==> Tiled(dir[i])
  }

  function AllLive(dir: seq<Bytes>): (r: seq<Item>)
    requires AllTiled(dir)
  {
    if dir == [] then [] else Live(dir[0]) + AllLive(dir[1..])
  }

  lemma {:induction false} FindIs(dir: seq<Bytes>, name: Bytes)
    requires AllTiled(dir)
    ensures FindEntry(dir, name) == Lookup(AllLive(dir), name)
  {
    if dir != [] {
      FindInIs(dir[0], name);
      FindIs(dir[1..], name);
      LookupAppend(Live(dir[0]), AllLive(dir[1..]), name);
    }
  }

  /** Directory insert: on blocks tiled by valid records, a successful add_dir_entry preserves the tiling and adds
      exactly one live entry, all others staying in order. */
  lemma {:induction false} AddKeepsTiling(dir: seq<Bytes>, item: Item)
    requires AllTiled(dir) && ItemOk(item) && AddEntry(dir, item).Some?
    ensures var r := AddEntry(dir, item).value;
            AllTiled(r) && |r| == |dir| && OneAdded(AllLive(dir), AllLive(r), item)
  {
    hide Tiled, Live, AddTo;
    var here := AddTo(dir[0], item);
    if here.Some? {
      AddToBlock(dir[0], item);
      var r := [here.value] + dir[1..];
      assert r[1..] == dir[1..];
      AddedBefore(Live(dir[0]), Live(here.value), AllLive(dir[1..]), item);
    } else {
      AddKeepsTiling(dir[1..], item);
      var rest := AddEntry(dir[1..], item).value;
      assert ([dir[0]] + rest)[1..] == rest;
      AddedBehind(Live(dir[0]), AllLive(dir[1..]), AllLive(rest), item);
    }
  }

  /** After inserting a name that was absent, looking it up gives the new inode, and every other name resolves as
      before. */
  lemma AddThenFind(dir: seq<Bytes>, item: Item, name: Bytes)
    requires AllTiled(dir) && ItemOk(item) && AddEntry(dir, item).Some?
    ensures var r := AddEntry(dir, item).value;
            && (name != item.name ==> FindEntry(r, name) == FindEntry(dir, name))
            && (name == item.name && FindEntry(dir, name).None? ==> FindEntry(r, name) == Some((item.ino, item.kind)))
  {
    hide AddEntry, AllLive, FindEntry;
    AddKeepsTiling(dir, item);
    var r := AddEntry(dir, item).value;
    FindIs(dir, name);
    FindIs(r, name);
    AddedLookup(AllLive(dir), AllLive(r), item, name);
  }

  // When there is room

  /** The bytes each record of a block could give to a new one. */
  function Slacks(b: Bytes): (r: seq<int>)
    decreases |b|
  {
    if !Heads(b) then [] else [if Ino(b) == 0 then Len(b) else Len(b) - Actual(b)] + Slacks(b[Len(b)..])
  }

  predicate HasSlack(b: Bytes, needed: nat)
  {
    exists k :: 0 <= k < |Slacks(b)| && Slacks(b)[k] >= needed
  }

  lemma {:induction false} BlockHasRoomIff(b: Bytes, item: Item)
    requires 0 < |item.name| < 256
    ensures AddTo(b, item).Some? <==> HasSlack(b, RecLen(|item.name|))
    decreases |b|
  {
    hide Ino, Len, RecLen, Record, Split, HasSlack;
    SlackUnfold(b, RecLen(|item.name|));
    if Heads(b) {
      BlockHasRoomIff(b[Len(b)..], item);
    }
  }

  lemma SlackUnfold(b: Bytes, needed: nat)
    ensures HasSlack(b, needed) <==>
              Heads(b) && ((if Ino(b) == 0 then Len(b) else Len(b) - Actual(b)) >= needed
                  || HasSlack(b[Len(b)..], needed))
  {
    hide Ino, Len, Actual;
    if Heads(b) {
      var all, rest := Slacks(b), Slacks(b[Len(b)..]);
      assert all[0] == if Ino(b) == 0 then Len(b) else Len(b) - Actual(b);
      if HasSlack(b[Len(b)..], needed) {
        var k :| 0 <= k < |rest| && rest[k] >= needed;
        assert all[k + 1] == rest[k];
      }
      if HasSlack(b, needed) {
        var k :| 0 <= k < |all| && all[k] >= needed;
        assert k > 0 ==> rest[k - 1] == all[k];
      }
    }
  }

  /** add_dir_entry succeeds exactly when some record of some block has the room the new one needs. */
  lemma {:induction false} AddSucceedsIff(dir: seq<Bytes>, item: Item)
    requires 0 < |item.name| < 256
    ensures AddEntry(dir, item).Some? <==> exists i :: 0 <= i < |dir| && HasSlack(dir[i], RecLen(|item.name|))
    decreases |dir|
  {
    hide AddTo, HasSlack, RecLen;
    if dir != [] {
      BlockHasRoomIff(dir[0], item);
      AddSucceedsIff(dir[1..], item);
      assert forall i :: 0 <= i < |dir| - 1 ==> dir[1..][i] == dir[i + 1];
      assert forall i :: 1 <= i < |dir| ==> dir[i] == dir[1..][i - 1];
    }
  }
}
