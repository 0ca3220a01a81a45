/** Failures can come at any call of a device: for every operation that succeeds on a quiet device and every script of
    later outcomes there is a script under which the operation succeeds and leaves just those to come. */
module BlkdevScripts {
  import opened LittleEndian
  import opened Blkdev
  import opened Aosfs

  function With(d: Device, script: seq<bool>): (r: Device)
  {
    d.(faults := script)
  }

  /** A device that can be read, and written if it is to be. */
  predicate Usable(d: Device)
  {
    DeviceOk(d) && (d.ops ==> d.blockSize <= SECTOR) && d.writable
  }

  lemma TickFalse(d: Device, rest: seq<bool>)
    ensures Tick(With(d, [false] + rest)) == (With(d, rest), true)
  {
    assert ([false] + rest)[1..] == rest;
  }

  lemma ReadBlockScript(d: Device, off: nat, n: nat, rest: seq<bool>)
    requires DeviceOk(d) && d.ops && off + n <= |d.bytes| && n > 0 && off % d.blockSize + n <= d.blockSize
    ensures ReadBlock(With(d, [false] + rest), off, n) == (With(d, rest), true, d.bytes[off..off + n])
  {
    TickFalse(d, rest);
  }

  lemma {:induction false} ReadLoopScript(d: Device, off: nat, len: nat, rest: seq<bool>) returns (s: seq<bool>)
    requires Usable(d) && d.ops && off + len <= |d.bytes|
    ensures ReadLoop(With(d, s), off, len) == (With(d, rest), true, d.bytes[off..off + len])
    decreases len
  {
    hide ReadLoop, ReadBlock, Chunk;
    if len == 0 {
      s := rest;
      ReadLoopUnfold(With(d, rest), off, 0);
    } else {
      var chunk := Chunk(d, off, len);
      var later := ReadLoopScript(d, off + chunk, len - chunk, rest);
      s := [false] + later;
      ReadBlockScript(d, off, chunk, later);
      ReadLoopUnfold(With(d, s), off, len);
      SameChunk(d, With(d, s), off, len);
      assert d.bytes[off..off + chunk] + d.bytes[off + chunk..off + len] == d.bytes[off..off + len];
    }
  }

  lemma SameChunk(d: Device, d': Device, off: nat, len: nat)
    requires d.blockSize > 0 && d'.blockSize == d.blockSize
    ensures Chunk(d', off, len) == Chunk(d, off, len)
  {
  }

  lemma ReadScript(d: Device, off: nat, len: nat, rest: seq<bool>) returns (s: seq<bool>)
    requires Usable(d) && off + len <= |d.bytes|
    ensures Read(With(d, s), off, len) == (With(d, rest), true, d.bytes[off..off + len])
  {
    hide ReadLoop;
    if d.ops {
      s := ReadLoopScript(d, off, len, rest);
    } else {
      s := rest;
    }
  }

  lemma WriteBlockScript(d: Device, off: nat, piece: Bytes, rest: seq<bool>)
    requires DeviceOk(d) && d.ops && off + |piece| <= |d.bytes| && |piece| > 0
    requires off % d.blockSize + |piece| <= d.blockSize
    ensures WriteBlock(With(d, [false] + ([false] + rest)), off, piece)
            == (With(d, rest).(bytes := Splice(d.bytes, off, piece)), true)
  {
    hide Splice;
    TickFalse(d, [false] + rest);
    TickFalse(d, rest);
  }

  lemma {:induction false} WriteLoopScript(d: Device, off: nat, data: Bytes, rest: seq<bool>) returns (s: seq<bool>)
    requires Usable(d) && d.ops && off + |data| <= |d.bytes|
    ensures var r := WriteLoop(With(d, s), off, data);
            r.0 == With(d, rest).(bytes := Splice(d.bytes, off, data)) && r.1
    decreases |data|
  {
    hide WriteLoop, WriteBlock, Chunk, Splice;
    if data == [] {
      s := rest;
      WriteLoopUnfold(With(d, rest), off, data);
      SpliceNothing(d.bytes, off, data);
      assert data[..0] == data;
    } else {
      var chunk := Chunk(d, off, |data|);
      var d1 := d.(bytes := Splice(d.bytes, off, data[..chunk]));
      var later := WriteLoopScript(d1, off + chunk, data[chunk..], rest);
      s := [false] + ([false] + later);
      WriteBlockScript(d, off, data[..chunk], later);
      WriteLoopUnfold(With(d, s), off, data);
      SameChunk(d, With(d, s), off, |data|);
      SpliceAll(d.bytes, off, data, chunk);
    }
  }

  lemma SpliceAll(bytes: Bytes, off: nat, data: Bytes, chunk: nat)
    requires chunk <= |data| && off + |data| <= |bytes|
    ensures Splice(Splice(bytes, off, data[..chunk]), off + chunk, data[chunk..]) == Splice(bytes, off, data)
  {
    SpliceTwice(bytes, off, data, chunk, |data| - chunk);
    assert data[chunk..][..|data| - chunk] == data[chunk..] && data[..|data|] == data;
  }

  lemma WriteScript(d: Device, off: nat, data: Bytes, rest: seq<bool>) returns (s: seq<bool>)
    requires Usable(d) && off + |data| <= |d.bytes|
    ensures var r := Write(With(d, s), off, data);
            r.0 == With(d, rest).(bytes := Splice(d.bytes, off, data)) && r.1
  {
    hide WriteLoop, Splice;
    if d.ops {
      s := WriteLoopScript(d, off, data, rest);
    } else {
      s := rest;
    }
  }

  /** A write can fail at its first call. */
  lemma WriteFails(d: Device, off: nat, data: Bytes)
    requires DeviceOk(d) && d.ops && off + |data| <= |d.bytes| && data != []
    ensures !Write(With(d, [true]), off, data).1
  {
    hide Splice;
    var d0 := With(d, [true]);
    WriteLoopUnfold(d0, off, data);
    if d.writable && d.blockSize <= SECTOR {
      assert !WriteBlock(d0, off, data[..Chunk(d0, off, |data|)]).1;
    }
  }

  lemma CopyChunkScript(d: Device, from: nat, to: nat, len: nat, rest: seq<bool>) returns (s: seq<bool>)
    requires Usable(d) && from + len <= |d.bytes| && to + len <= |d.bytes|
    ensures CopyChunk(With(d, s), from, to, len)
            == (With(d.(bytes := Splice(d.bytes, to, d.bytes[from..from + len])), rest), true)
  {
    hide Read, Write, Splice;
    var later := WriteScript(d, to, d.bytes[from..from + len], rest);
    s := ReadScript(d, from, len, later);
  }

  lemma {:induction false} CopyScript(d: Device, from: nat, to: nat, len: nat, rest: seq<bool>) returns (s: seq<bool>)
    requires Usable(d) && from + len <= |d.bytes| && to + len <= |d.bytes|
    ensures var (d1, ok) := CopyBytes(With(d, s), from, to, len); ok && d1.faults == rest
    decreases len
  {
    hide CopyChunk, Splice;
    if len == 0 {
      s := rest;
    } else {
      var chunk := if len > 4096 then 4096 else len;
      var d1 := d.(bytes := Splice(d.bytes, to, d.bytes[from..from + chunk]));
      var later := CopyScript(d1, from + chunk, to + chunk, len - chunk, rest);
      s := CopyChunkScript(d, from, to, chunk, later);
    }
  }

  /** `n` bytes copied through the 4096-byte buffer. */
  function Pasted(bytes: Bytes, from: nat, to: nat, len: nat): (r: Bytes)
    requires from + len <= |bytes| && to + len <= |bytes|
    ensures |r| == |bytes|
    decreases len
  {
    if len == 0 then bytes
    else
      var chunk := if len > 4096 then 4096 else len;
      Pasted(Splice(bytes, to, bytes[from..from + chunk]), from + chunk, to + chunk, len - chunk)
  }

  /** What a successful copy writes does not depend on the script. */
  lemma {:induction false} CopyPastes(d: Device, from: nat, to: nat, len: nat)
    requires DeviceOk(d) && from + len <= |d.bytes| && to + len <= |d.bytes| && CopyBytes(d, from, to, len).1
    ensures CopyBytes(d, from, to, len).0.bytes == Pasted(d.bytes, from, to, len)
    decreases len
  {
    hide Read, Write, Splice;
    if len > 0 {
      var chunk := if len > 4096 then 4096 else len;
      var piece := d.bytes[from..from + chunk];
      assert piece[..chunk] == piece;
      CopyPastes(CopyChunk(d, from, to, chunk).0, from + chunk, to + chunk, len - chunk);
    }
  }
}
