/** add_dir_entry and find_dir_entry on a block buffer: a moving position, and records rewritten in place. */
module Ext4Blocks {
  import opened Options
  import opened LittleEndian
  import opened Ext4Dirs

  function Over(s: Bytes, at: nat, data: Bytes): (r: Bytes)
    requires at + |data| <= |s|
    ensures |r| == |s|
  {
    s[..at] + data + s[at + |data|..]
  }

  method Store(buf: array<byte>, at: nat, data: Bytes)
    requires at + |data| <= buf.Length
    modifies buf
    ensures buf[..] == Over(old(buf[..]), at, data)
  {
    var i := 0;
    while i < |data|
      invariant 0 <= i <= |data|
      invariant forall k :: 0 <= k < buf.Length ==> buf[k] == if at <= k < at + i then data[k - at] else old(buf[k])
    {
      buf[at + i] := data[i];
      i := i + 1;
    }
  }

  /** What the search does from `pos` on decides what it does to the whole block. */
  ghost predicate SameSearch(s: Bytes, pos: nat, item: Item)
    requires pos <= |s| && 0 < |item.name| < 256
  {
    var all, here := AddTo(s, item), AddTo(s[pos..], item);
    all == if here.None? then None else Some(s[..pos] + here.value)
  }

  lemma NextRecord(s: Bytes, pos: nat, item: Item)
    requires pos <= |s| && 0 < |item.name| < 256 && SameSearch(s, pos, item)
    requires var b := s[pos..];
             Heads(b) && !(Ino(b) == 0 && Len(b) >= RecLen(|item.name|)) && Len(b) < Actual(b) + RecLen(|item.name|)
    ensures SameSearch(s, pos + Len(s[pos..]), item)
  {
    hide FromLE, Ino, Len;
    var b := s[pos..];
    var n := Len(b);
    assert b[n..] == s[pos + n..];
    assert s[..pos] + b[..n] == s[..pos + n];
    var rest := AddTo(b[n..], item);
    if rest.Some? {
      assert s[..pos] + (b[..n] + rest.value) == s[..pos + n] + rest.value;
    }
  }

  /** Takes over the dead record at `pos`. */
  method TakeOverAt(buf: array<byte>, pos: nat, item: Item)
    requires pos <= buf.Length && 0 < |item.name| < 256
    requires var b := buf[pos..]; Heads(b) && Ino(b) == 0 && Len(b) >= RecLen(|item.name|)
    modifies buf
    ensures var s := old(buf[..]);
            buf[..] == s[..pos] + (Record(item, Len(s[pos..])) + s[pos..][8 + |item.name|..])
  {
    hide Ino, Len, Record;
    ghost var s := buf[..];
    var b := buf[pos..];
    assert b == s[pos..];
    Store(buf, pos, Record(item, Len(b)));
  }

  /** Splits the record at `pos`. */
  method SplitAt(buf: array<byte>, pos: nat, item: Item)
    requires pos <= buf.Length && 0 < |item.name| < 256
    requires var b := buf[pos..]; Heads(b) && Len(b) >= Actual(b) + RecLen(|item.name|)
    modifies buf
    ensures var s := old(buf[..]); buf[..] == s[..pos] + Split(s[pos..], item)
  {
    hide Ino, Len, Record, LE, Over, Split;
    ghost var s := buf[..];
    var b := buf[pos..];
    assert b == s[pos..];
    var actual := Actual(b);
    Store(buf, pos + 4, LE(actual, 2));
    ghost var mid := buf[..];
    Store(buf, pos + actual, Record(item, Len(b) - actual));
    SplitStores(s, mid, buf[..], pos, item);
  }

  /** The record loop of add_dir_entry. */
  method AddInBlock(buf: array<byte>, item: Item) returns (ok: bool)
    requires 0 < |item.name| < 256
    modifies buf
    ensures var r := AddTo(old(buf[..]), item);
            ok == r.Some? && buf[..] == if ok then r.value else old(buf[..])
  {
    hide AddTo, Ino, Len, Record, Split, Actual, RecLen;
    ghost var s := buf[..];
    var needed := RecLen(|item.name|);
    var pos: nat := 0;
    FromStart(s, item);
    while pos + 8 <= buf.Length
      invariant pos <= buf.Length && buf[..] == s && SameSearch(s, pos, item)
    {
      var b := buf[pos..];
      assert b == s[pos..];
      AddUnfold(b, item);
      var recLen := Len(b);
      if recLen < 8 || pos + recLen > buf.Length { return false; }
      if Ino(b) == 0 && recLen >= needed {
        TakeOverAt(buf, pos, item);
        return true;
      }
      if recLen >= Actual(b) + needed {
        SplitAt(buf, pos, item);
        return true;
      }
      NextRecord(s, pos, item);
      pos := pos + recLen;
    }
    AddUnfold(s[pos..], item);
    ok := false;
  }

  lemma FromStart(s: Bytes, item: Item)
    requires 0 < |item.name| < 256
    ensures SameSearch(s, 0, item)
  {
    assert s[0..] == s;
    var here := AddTo(s, item);
    if here.Some? {
      assert s[..0] + here.value == here.value;
    }
  }

  lemma AddUnfold(b: Bytes, item: Item)
    requires 0 < |item.name| < 256
    ensures !Heads(b) ==> AddTo(b, item).None?
    ensures Heads(b) && Ino(b) == 0 && Len(b) >= RecLen(|item.name|) ==>
            AddTo(b, item) == Some(Record(item, Len(b)) + b[8 + |item.name|..])
    ensures Heads(b) && !(Ino(b) == 0 && Len(b) >= RecLen(|item.name|)) && Len(b) >= Actual(b) + RecLen(|item.name|) ==>
              AddTo(b, item) == Some(Split(b, item))
  {
    hide Ino, Len, Record, Split;
  }

  lemma SplitStores(s: Bytes, mid: Bytes, r: Bytes, pos: nat, item: Item)
    requires pos <= |s| && 0 < |item.name| < 256 && Heads(s[pos..])
    requires Len(s[pos..]) >= Actual(s[pos..]) + RecLen(|item.name|)
    requires var b := s[pos..];
             && mid == Over(s, pos + 4, LE(Actual(b), 2))
             && r == Over(mid, pos + Actual(b), Record(item, Len(b) - Actual(b)))
    ensures r == s[..pos] + Split(s[pos..], item)
  {
    hide Ino, Len, Record, LE;
    var b := s[pos..];
    var a := Actual(b);
    var t := s[..pos] + Split(b, item);
    assert |r| == |t|;
    forall k | 0 <= k < |r| ensures r[k] == t[k] {
    }
  }

  /** The record loop of find_dir_entry. */
  method FindInBlock(buf: array<byte>, name: Bytes) returns (r: Option<(nat, byte)>)
    ensures r == FindIn(buf[..], name)
  {
    hide FindIn, Ino, Len;
    ghost var s := buf[..];
    var pos: nat := 0;
    assert s[0..] == s;
    while pos + 8 <= buf.Length
      invariant pos <= buf.Length && FindIn(s, name) == FindIn(s[pos..], name)
    {
      var b := buf[pos..];
      assert b == s[pos..];
      FindUnfold(b, name);
      var recLen := Len(b);
      if recLen < 8 || pos + recLen > buf.Length { return None; }
      if Ino(b) != 0 && b[6] <= recLen - 8 && Name(b) == name { return Some((Ino(b), b[7])); }
      assert b[recLen..] == s[pos + recLen..];
      pos := pos + recLen;
    }
    FindUnfold(s[pos..], name);
    r := None;
  }

  lemma FindUnfold(b: Bytes, name: Bytes)
    ensures FindIn(b, name) ==
              if !Heads(b) then None
              else if Ino(b) != 0 && b[6] <= Len(b) - 8 && Name(b) == name then Some((Ino(b), b[7]))
              else FindIn(b[Len(b)..], name)
  {
    hide Ino, Len;
  }

  /** The data blocks of one directory, read into a buffer and written back. */
  class Directory {
    var blocks: seq<Bytes>

    constructor (blocks: seq<Bytes>)
      ensures this.blocks == blocks
    {
      this.blocks := blocks;
    }

    /** add_dir_entry: the first block with room takes the entry; a name without a valid length is refused. */
    method AddDirEntry(item: Item) returns (ok: bool)
      modifies this
      ensures ok <==> 0 < |item.name| < 256 && AddEntry(old(blocks), item).Some?
      ensures blocks == if ok then AddEntry(old(blocks), item).value else old(blocks)
    {
      hide AddTo;
      if |item.name| == 0 || |item.name| > 255 { return false; }
      var i := 0;
      assert blocks[0..] == blocks;
      ghost var all := AddEntry(blocks, item);
      assert all.Some? ==> blocks[..0] + all.value == all.value;
      while i < |blocks|
        invariant 0 <= i <= |blocks| && blocks == old(blocks)
                  && AddEntry(blocks, item) == Behind(blocks[..i], AddEntry(blocks[i..], item))
      {
        var buf := Buffer(blocks[i]);
        var here := AddInBlock(buf, item);
        AddEntryUnfold(blocks[i..], item);
        if here {
          assert blocks[i := buf[..]] == blocks[..i] + ([buf[..]] + blocks[i..][1..]);
          blocks := blocks[i := buf[..]];
          return true;
        }
        BehindMore(blocks, i, AddEntry(blocks[i + 1..], item));
        i := i + 1;
      }
      ok := false;
    }

    /** find_dir_entry. */
    method FindDirEntry(name: Bytes) returns (r: Option<(nat, byte)>)
      ensures r == FindEntry(blocks, name)
    {
      hide FindIn;
      var i := 0;
      assert blocks[0..] == blocks;
      while i < |blocks|
        invariant 0 <= i <= |blocks| && FindEntry(blocks, name) == FindEntry(blocks[i..], name)
      {
        var buf := Buffer(blocks[i]);
        var here := FindInBlock(buf, name);
        assert blocks[i..][1..] == blocks[i + 1..];
        if here.Some? { return here; }
        i := i + 1;
      }
      r := None;
    }
  }

  /** A block copied into a buffer of its own. */
  method Buffer(b: Bytes) returns (buf: array<byte>)
    ensures fresh(buf) && buf[..] == b
  {
    buf := new byte[|b|](i requires 0 <= i < |b| => b[i]);
  }

  /** The outcome for a directory whose blocks `done` had no room. */
  ghost function Behind(done: seq<Bytes>, rest: Option<seq<Bytes>>): (r: Option<seq<Bytes>>)
  {
    if rest.None? then None else Some(done + rest.value)
  }

  lemma BehindMore(blocks: seq<Bytes>, i: nat, rest: Option<seq<Bytes>>)
    requires i < |blocks|
    ensures Behind(blocks[..i], Behind([blocks[i]], rest)) == Behind(blocks[..i + 1], rest)
  {
    if rest.Some? {
      assert blocks[..i] + ([blocks[i]] + rest.value) == blocks[..i + 1] + rest.value;
    }
  }

  lemma AddEntryUnfold(dir: seq<Bytes>, item: Item)
    requires 0 < |item.name| < 256 && dir != []
    ensures var here := AddTo(dir[0], item);
            AddEntry(dir, item) == if here.Some? then Some([here.value] + dir[1..])
                else Behind([dir[0]], AddEntry(dir[1..], item))
  {
    hide AddTo;
  }
}
