/** The block layer (kernel/blkdev.c): byte-addressed reads and writes over a device that moves whole
    blocks and may fail at any block. */
module Blkdev {
  import opened LittleEndian

  const SECTOR: nat := 512

  /** A device. With `ops` it is driven block by block through callbacks; `faults` is the script of their
      outcomes, one entry per call (true: that call fails), and no call fails once it is used up. */
  datatype Device = Device(bytes: Bytes, blockSize: nat, ops: bool, writable: bool, faults: seq<bool>)

  /** Registered devices have a block size, and callbacks see whole blocks. */
  predicate DeviceOk(d: Device)
  {
    d.blockSize > 0 && (d.ops ==> |d.bytes| % d.blockSize == 0)
  }

  /** `bytes` with `data` laid over it at `off`. */
  function Splice(bytes: Bytes, off: nat, data: Bytes): (r: Bytes)
    requires off + |data| <= |bytes|
    ensures |r| == |bytes|
    ensures forall k :: 0 <= k < |bytes| ==> r[k] == if off <= k < off + |data| then data[k - off] else bytes[k]
  {
    bytes[..off] + data + bytes[off + |data|..]
  }

  /** The outcome of the next callback. */
  function Tick(d: Device): (r: (Device, bool))
    ensures r.0 == d.(faults := r.0.faults) && |r.0.faults| <= |d.faults|
  {
    if d.faults == [] then (d, true) else (d.(faults := d.faults[1..]), !d.faults[0])
  }

  predicate NoFaults(d: Device)
  {
    forall i :: 0 <= i < |d.faults| ==> !d.faults[i]
  }

  /** Bytes from `off` to the end of its block, at most `len`. */
  function Chunk(d: Device, off: nat, len: nat): (c: nat)
    requires d.blockSize > 0
    ensures c <= len && (len > 0 ==> c > 0)
    ensures off % d.blockSize + c <= d.blockSize
  {
    var room := d.blockSize - off % d.blockSize;
    if room > len then len else room
  }

  lemma BlockInRange(bs: nat, off: nat, size: nat)
    requires bs > 0 && off < size && size % bs == 0
    ensures off / bs * bs <= off && off / bs * bs + bs <= size && off / bs * bs + off % bs == off
  {
    var q, n := off / bs, size / bs;
    assert off == q * bs + off % bs && size == n * bs;
    if q >= n {
      MulMono(n, q, bs);
    }
    MulMono(q + 1, n, bs);
  }

  lemma MulMono(a: nat, b: nat, c: nat)
    ensures a <= b ==> a * c <= b * c
  {
  }

  lemma SliceOfSlice(bytes: Bytes, start: nat, len: nat, at: nat, n: nat)
    requires start + len <= |bytes| && at + n <= len
    ensures bytes[start..start + len][at..at + n] == bytes[start + at..start + at + n]
  {
    var a, b := bytes[start..start + len][at..at + n], bytes[start + at..start + at + n];
    forall k | 0 <= k < n ensures a[k] == b[k] {
      assert a[k] == bytes[start..start + len][at + k];
    }
    assert |a| == |b|;
    assert a == b;
  }

  /** `n` bytes at `off`, out of one whole block. */
  function ReadBlock(d: Device, off: nat, n: nat): (r: (Device, bool, Bytes))
    requires DeviceOk(d) && d.ops && off + n <= |d.bytes| && n > 0 && off % d.blockSize + n <= d.blockSize
    ensures r.0 == d.(faults := r.0.faults)
    ensures r.1 ==> r.2 == d.bytes[off..off + n]
    ensures NoFaults(d) ==> NoFaults(r.0) && r.1
  {
    var (d1, ok) := Tick(d);
    if !ok then (d1, false, [])
    else
      BlockInRange(d.blockSize, off, |d.bytes|);
      var start := off / d.blockSize * d.blockSize;
      var sector := d.bytes[start..start + d.blockSize];
      SliceOfSlice(d.bytes, start, d.blockSize, off % d.blockSize, n);
      (d1, true, sector[off % d.blockSize..off % d.blockSize + n])
  }

  /** The block loop of blkdev_read. */
  function ReadLoop(d: Device, off: nat, len: nat): (r: (Device, bool, Bytes))
    requires DeviceOk(d) && d.ops && off + len <= |d.bytes|
    ensures r.0 == d.(faults := r.0.faults)
    ensures r.1 ==> r.2 == d.bytes[off..off + len]
    ensures NoFaults(d) ==> NoFaults(r.0) && (r.1 <==> len == 0 || d.blockSize <= SECTOR)
    decreases len
  {
    if len == 0 then (d, true, [])
    else if d.blockSize > SECTOR then (d, false, [])
    else
      var chunk := Chunk(d, off, len);
      var (d1, ok, piece) := ReadBlock(d, off, chunk);
      if !ok then (d1, false, [])
      else
        var (d2, ok2, rest) := ReadLoop(d1, off + chunk, len - chunk);
        (d2, ok2, piece + rest)
  }

  /** One read-modify-write of the block that holds `off`. */
  function WriteBlock(d: Device, off: nat, piece: Bytes): (r: (Device, bool))
    requires DeviceOk(d) && d.ops && off + |piece| <= |d.bytes| && |piece| > 0
    requires off % d.blockSize + |piece| <= d.blockSize
    ensures r.0 == d.(faults := r.0.faults, bytes := r.0.bytes)
    ensures r.0.bytes == if r.1 then Splice(d.bytes, off, piece) else d.bytes
    ensures NoFaults(d) ==> NoFaults(r.0) && r.1
  {
    var (d1, okRead) := Tick(d);
    if !okRead then (d1, false)
    else
      BlockInRange(d.blockSize, off, |d.bytes|);
      var start := off / d.blockSize * d.blockSize;
      var sector := Splice(d.bytes[start..start + d.blockSize], off % d.blockSize, piece);
      var (d2, okWrite) := Tick(d1);
      if !okWrite then (d2, false)
      else
        assert Splice(d.bytes, start, sector) == Splice(d.bytes, off, piece);
        (d2.(bytes := Splice(d.bytes, start, sector)), true)
  }

  /** The block loop of blkdev_write: how many bytes reached the device, and whether that is all of them. */
  function WriteLoop(d: Device, off: nat, data: Bytes): (r: (Device, bool, nat))
    requires DeviceOk(d) && d.ops && off + |data| <= |d.bytes|
    ensures r.0 == d.(faults := r.0.faults, bytes := r.0.bytes) && |r.0.bytes| == |d.bytes|
    decreases |data|
  {
    if data == [] then (d, true, 0)
    else if d.blockSize > SECTOR then (d, false, 0)
    else
      var chunk := Chunk(d, off, |data|);
      var (d1, ok) := WriteBlock(d, off, data[..chunk]);
      if !ok then (d1, false, 0)
      else
        var (d2, ok2, n) := WriteLoop(d1, off + chunk, data[chunk..]);
        (d2, ok2, chunk + n)
  }

  /** What reached the device is a prefix of the data, laid over the old bytes; a failure that touches a
      single block leaves the device as it was. */
  ghost predicate Spliced(d: Device, off: nat, data: Bytes, r: (Device, bool, nat))
    requires off + |data| <= |d.bytes| && d.blockSize > 0
  {
    && r.2 <= |data| && (r.1 ==> r.2 == |data|)
    && r.0.bytes == Splice(d.bytes, off, data[..r.2])
    && (!r.1 && Chunk(d, off, |data|) == |data| ==> r.2 == 0)
    && (NoFaults(d) ==> NoFaults(r.0) && (r.1 <==> data == [] || d.blockSize <= SECTOR))
  }

  lemma {:induction false} WriteLoopSplices(d: Device, off: nat, data: Bytes)
    requires DeviceOk(d) && d.ops && off + |data| <= |d.bytes|
    ensures Spliced(d, off, data, WriteLoop(d, off, data))
    decreases |data|
  {
    hide WriteLoop, WriteBlock, Splice, Chunk;
    WriteLoopUnfold(d, off, data);
    SpliceNothing(d.bytes, off, data);
    if data != [] && d.blockSize <= SECTOR {
      var chunk := Chunk(d, off, |data|);
      var (d1, ok) := WriteBlock(d, off, data[..chunk]);
      if ok {
        var rest := WriteLoop(d1, off + chunk, data[chunk..]);
        WriteLoopUnfold(d1, off + chunk, data[chunk..]);
        WriteLoopSplices(d1, off + chunk, data[chunk..]);
        SplicedMore(d, d1, off, data, chunk, rest);
      }
    }
  }

  lemma SplicedMore(d: Device, d1: Device, off: nat, data: Bytes, chunk: nat, rest: (Device, bool, nat))
    requires off + |data| <= |d.bytes| && d.blockSize > 0 && 0 < chunk <= |data|
    requires d1 == d.(faults := d1.faults, bytes := d1.bytes)
    requires chunk == Chunk(d, off, |data|) && d.blockSize <= SECTOR
    requires d1.bytes == Splice(d.bytes, off, data[..chunk]) && (NoFaults(d) ==> NoFaults(d1))
    requires Spliced(d1, off + chunk, data[chunk..], rest) && (chunk == |data| ==> rest.1)
    ensures Spliced(d, off, data, (rest.0, rest.1, chunk + rest.2))
  {
    SpliceTwice(d.bytes, off, data, chunk, rest.2);
  }

  lemma SpliceTwice(bytes: Bytes, off: nat, data: Bytes, chunk: nat, n: nat)
    requires chunk <= |data| && n <= |data| - chunk && off + |data| <= |bytes|
    ensures Splice(Splice(bytes, off, data[..chunk]), off + chunk, data[chunk..][..n])
            == Splice(bytes, off, data[..chunk + n])
  {
  }

  /** blkdev_read. */
  function Read(d: Device, off: nat, len: nat): (r: (Device, bool, Bytes))
    requires DeviceOk(d)
    ensures r.0 == d.(faults := r.0.faults)
    ensures r.1 ==> off + len <= |d.bytes| && r.2 == d.bytes[off..off + len]
    ensures NoFaults(d) ==>
            NoFaults(r.0) && (r.1 <==> off + len <= |d.bytes| && (d.ops && len > 0 ==> d.blockSize <= SECTOR))
  {
    if off > |d.bytes| || len > |d.bytes| - off then (d, false, [])
    else if d.ops then ReadLoop(d, off, len)
    else (d, true, d.bytes[off..off + len])
  }

  /** blkdev_write; the last component counts the bytes that reached the device. */
  function Write(d: Device, off: nat, data: Bytes): (r: (Device, bool, nat))
    requires DeviceOk(d)
    ensures r.0 == d.(faults := r.0.faults, bytes := r.0.bytes)
    ensures r.2 <= |data| && (r.1 ==> r.2 == |data| && d.writable && off + |data| <= |d.bytes|)
    ensures if off + |data| <= |d.bytes| then r.0.bytes == Splice(d.bytes, off, data[..(r.2)]) else r.0.bytes == d.bytes
    ensures !r.1 && Chunk(d, off, |data|) == |data| ==> r.0.bytes == d.bytes
    ensures NoFaults(d) ==>
              && NoFaults(r.0)
              && (r.1 <==> d.writable && off + |data| <= |d.bytes| && (d.ops && |data| > 0 ==> d.blockSize <= SECTOR))
  {
    SpliceNothing(d.bytes, off, data);
    if !d.writable || off > |d.bytes| || |data| > |d.bytes| - off then (d, false, 0)
    else if d.ops then WriteLoopSplices(d, off, data); WriteLoop(d, off, data)
    else (d.(bytes := Splice(d.bytes, off, data)), true, |data|)
  }

  lemma SpliceNothing(bytes: Bytes, off: nat, data: Bytes)
    ensures off + |data| <= |bytes| ==> Splice(bytes, off, data[..0]) == bytes
  {
  }

  lemma ReadLoopUnfold(d: Device, off: nat, len: nat)
    requires DeviceOk(d) && d.ops && off + len <= |d.bytes|
    ensures len == 0 ==> ReadLoop(d, off, len) == (d, true, [])
    ensures len > 0 && d.blockSize > SECTOR ==> !ReadLoop(d, off, len).1 && ReadLoop(d, off, len).0 == d
    ensures len > 0 && d.blockSize <= SECTOR ==>
              var chunk := Chunk(d, off, len);
              var (d1, ok, piece) := ReadBlock(d, off, chunk);
              if !ok then ReadLoop(d, off, len) == (d1, false, [])
              else var rest := ReadLoop(d1, off + chunk, len - chunk);
                  ReadLoop(d, off, len) == (rest.0, rest.1, piece + rest.2)
  {
    hide ReadBlock, Chunk;
  }

  lemma WriteLoopUnfold(d: Device, off: nat, data: Bytes)
    requires DeviceOk(d) && d.ops && off + |data| <= |d.bytes|
    ensures data == [] ==> WriteLoop(d, off, data) == (d, true, 0)
    ensures data != [] && d.blockSize > SECTOR ==> WriteLoop(d, off, data) == (d, false, 0)
    ensures data != [] && d.blockSize <= SECTOR ==>
              var chunk := Chunk(d, off, |data|);
              var (d1, ok) := WriteBlock(d, off, data[..chunk]);
              if !ok then WriteLoop(d, off, data) == (d1, false, 0)
              else
                var rest := WriteLoop(d1, off + chunk, data[chunk..]);
                WriteLoop(d, off, data) == (rest.0, rest.1, chunk + rest.2)
  {
    hide WriteBlock, Chunk, Splice;
  }

  /** The device as kernel/blkdev.c drives it: loops that advance offset, length and buffer position while
      editing a sector buffer. */
  class BlockDevice {
    var dev: Device

    constructor (d: Device)
      ensures dev == d
    {
      dev := d;
    }

    /** The read_blocks callback for one block. */
    method ReadOne(start: nat) returns (ok: bool, sector: Bytes)
      requires start + dev.blockSize <= |dev.bytes|
      modifies this
      ensures (dev, ok) == Tick(old(dev))
      ensures ok ==> sector == dev.bytes[start..start + dev.blockSize]
    {
      var t := Tick(dev);
      dev, ok, sector := t.0, t.1, [];
      if ok { sector := dev.bytes[start..start + dev.blockSize]; }
    }

    /** The write_blocks callback for one block. */
    method WriteOne(start: nat, sector: Bytes) returns (ok: bool)
      requires |sector| == dev.blockSize && start + dev.blockSize <= |dev.bytes|
      modifies this
      ensures ok == Tick(old(dev)).1
      ensures var d := Tick(old(dev)).0; dev == if ok then d.(bytes := Splice(d.bytes, start, sector)) else d
    {
      var t := Tick(dev);
      dev, ok := t.0, t.1;
      if ok { dev := dev.(bytes := Splice(dev.bytes, start, sector)); }
    }

    /** The body of the loop of blkdev_read. */
    method ReadPiece(off: nat, n: nat) returns (ok: bool, piece: Bytes)
      requires DeviceOk(dev) && dev.ops && off + n <= |dev.bytes| && n > 0 && off % dev.blockSize + n <= dev.blockSize
      modifies this
      ensures (dev, ok, piece) == ReadBlock(old(dev), off, n)
    {
      BlockInRange(dev.blockSize, off, |dev.bytes|);
      var at := off % dev.blockSize;
      var sector;
      ok, sector := ReadOne(off / dev.blockSize * dev.blockSize);
      piece := if ok then sector[at..at + n] else [];
    }

    /** The body of the loop of blkdev_write. */
    method WritePiece(off: nat, piece: Bytes) returns (ok: bool)
      requires DeviceOk(dev) && dev.ops && off + |piece| <= |dev.bytes| && |piece| > 0
      requires off % dev.blockSize + |piece| <= dev.blockSize
      modifies this
      ensures (dev, ok) == WriteBlock(old(dev), off, piece)
    {
      BlockInRange(dev.blockSize, off, |dev.bytes|);
      var start := off / dev.blockSize * dev.blockSize;
      var sector;
      ok, sector := ReadOne(start);
      if !ok { return; }
      sector := Splice(sector, off % dev.blockSize, piece);
      ok := WriteOne(start, sector);
    }

    /** blkdev_read. */
    method ReadBytes(offset: nat, length: nat) returns (ok: bool, buffer: Bytes)
      requires DeviceOk(dev)
      modifies this
      ensures var r := Read(old(dev), offset, length); dev == r.0 && ok == r.1 && (ok ==> buffer == r.2)
    {
      hide ReadLoop, ReadBlock, Chunk;
      buffer := [];
      if offset > |dev.bytes| || length > |dev.bytes| - offset { return false, []; }
      if !dev.ops { return true, dev.bytes[offset..offset + length]; }
      var off: nat, len: nat := offset, length;
      ghost var whole := ReadLoop(dev, offset, length);
      while len > 0
        invariant DeviceOk(dev) && dev.ops && off + len <= |dev.bytes|
        invariant var rest := ReadLoop(dev, off, len);
                  whole.0 == rest.0 && whole.1 == rest.1 && (whole.1 ==> whole.2 == buffer + rest.2)
        decreases len
      {
        ReadLoopUnfold(dev, off, len);
        if dev.blockSize > SECTOR { return false, []; }
        var chunk := Chunk(dev, off, len);
        var piece;
        ok, piece := ReadPiece(off, chunk);
        if !ok { return false, []; }
        buffer := buffer + piece;
        off, len := off + chunk, len - chunk;
      }
      ReadLoopUnfold(dev, off, 0);
      ok := true;
    }

    /** blkdev_write. */
    method WriteBytes(offset: nat, data: Bytes) returns (ok: bool)
      requires DeviceOk(dev)
      modifies this
      ensures var r := Write(old(dev), offset, data); dev == r.0 && ok == r.1
    {
      hide WriteLoop, WriteBlock, Chunk;
      if !dev.writable || offset > |dev.bytes| || |data| > |dev.bytes| - offset { return false; }
      if !dev.ops {
        dev := dev.(bytes := Splice(dev.bytes, offset, data));
        return true;
      }
      var off: nat, input := offset, data;
      ghost var whole := WriteLoop(dev, offset, data);
      while |input| > 0
        invariant DeviceOk(dev) && dev.ops && off + |input| <= |dev.bytes|
        invariant var rest := WriteLoop(dev, off, input); whole.0 == rest.0 && whole.1 == rest.1
        decreases |input|
      {
        WriteLoopUnfold(dev, off, input);
        if dev.blockSize > SECTOR { return false; }
        var chunk := Chunk(dev, off, |input|);
        ok := WritePiece(off, input[..chunk]);
        if !ok { return false; }
        off, input := off + chunk, input[chunk..];
      }
      WriteLoopUnfold(dev, off, input);
      ok := true;
    }
  }
}
