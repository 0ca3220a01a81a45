/** SHA-256 as kernel/credentials.c computes it, and as section 5.1.1 and section 6.2 of FIPS 180-4 define it. */
module Sha256 {
  import opened LittleEndian

  const BLOCK: nat := 64

  /** Eight 32-bit words. */
  type Words = s: seq<bv32> | |s| == 8 witness [0, 0, 0, 0, 0, 0, 0, 0]

  type Block = b: Bytes | |b| == BLOCK witness seq(BLOCK, _ => 0)

  const INITIAL: Words := [
    0x6a09e667, 0xbb67ae85, 0x3c6ef372, 0xa54ff53a, 0x510e527f, 0x9b05688c, 0x1f83d9ab, 0x5be0cd19
  ]

  /** Row `r` of the table sha256_k. */
  function KRow(r: nat): (row: seq<bv32>)
    requires r < 8
    ensures |row| == 8
  {
    match r
    case 0 => [0x428a2f98, 0x71374491, 0xb5c0fbcf, 0xe9b5dba5, 0x3956c25b, 0x59f111f1, 0x923f82a4, 0xab1c5ed5]
    case 1 => [0xd807aa98, 0x12835b01, 0x243185be, 0x550c7dc3, 0x72be5d74, 0x80deb1fe, 0x9bdc06a7, 0xc19bf174]
    case 2 => [0xe49b69c1, 0xefbe4786, 0x0fc19dc6, 0x240ca1cc, 0x2de92c6f, 0x4a7484aa, 0x5cb0a9dc, 0x76f988da]
    case 3 => [0x983e5152, 0xa831c66d, 0xb00327c8, 0xbf597fc7, 0xc6e00bf3, 0xd5a79147, 0x06ca6351, 0x14292967]
    case 4 => [0x27b70a85, 0x2e1b2138, 0x4d2c6dfc, 0x53380d13, 0x650a7354, 0x766a0abb, 0x81c2c92e, 0x92722c85]
    case 5 => [0xa2bfe8a1, 0xa81a664b, 0xc24b8b70, 0xc76c51a3, 0xd192e819, 0xd6990624, 0xf40e3585, 0x106aa070]
    case 6 => [0x19a4c116, 0x1e376c08, 0x2748774c, 0x34b0bcb5, 0x391c0cb3, 0x4ed8aa4a, 0x5b9cca4f, 0x682e6ff3]
    case _ => [0x748f82ee, 0x78a5636f, 0x84c87814, 0x8cc70208, 0x90befffa, 0xa4506ceb, 0xbef9a3f7, 0xc67178f2]
  }

  function K(): (k: seq<bv32>)
    ensures |k| == 64
  {
    seq(64, i requires 0 <= i < 64 => KRow(i / 8)[i % 8])
  }

  // Big-endian numbers

  function BE(n: nat, k: nat): (b: Bytes)
    ensures |b| == k
  {
    if k == 0 then [] else BE(n / 256, k - 1) + [n % 256]
  }

  function LoadWord(b: Bytes, i: nat): (r: bv32)
    requires 4 * i + 4 <= |b|
  {
    FromBytes(b[4 * i], b[4 * i + 1], b[4 * i + 2], b[4 * i + 3]) as bv32
  }

  function FromBytes(a: nat, b: nat, c: nat, d: nat): (n: nat)
    requires a < 256 && b < 256 && c < 256 && d < 256
    ensures n < U32
  {
    ((a * 256 + b) * 256 + c) * 256 + d
  }

  // The compression function

  function Rotr(x: bv32, n: bv32): (r: bv32)
    requires 0 < n < 32
  {
    (x >> n) | (x << (32 - n))
  }

  function SmallSigma0(x: bv32): (r: bv32)
  {
    Rotr(x, 7) ^ Rotr(x, 18) ^ (x >> 3)
  }

  function SmallSigma1(x: bv32): (r: bv32)
  {
    Rotr(x, 17) ^ Rotr(x, 19) ^ (x >> 10)
  }

  function BigSigma0(x: bv32): (r: bv32)
  {
    Rotr(x, 2) ^ Rotr(x, 13) ^ Rotr(x, 22)
  }

  function BigSigma1(x: bv32): (r: bv32)
  {
    Rotr(x, 6) ^ Rotr(x, 11) ^ Rotr(x, 25)
  }

  function Choose(e: bv32, f: bv32, g: bv32): (r: bv32)
  {
    (e & f) ^ (!e & g)
  }

  function Majority(a: bv32, b: bv32, c: bv32): (r: bv32)
  {
    (a & b) ^ (a & c) ^ (b & c)
  }

  /** The schedule word that follows the words w. */
  function NextWord(block: Block, w: seq<bv32>): (r: bv32)
    requires |w| < 64
  {
    var i := |w|;
    if i < 16 then LoadWord(block, i) else w[i - 16] + SmallSigma0(w[i - 15]) + w[i - 7] + SmallSigma1(w[i - 2])
  }

  /** The first `n` words of the message schedule. */
  function Schedule(block: Block, n: nat): (w: seq<bv32>)
    requires n <= 64
    ensures |w| == n
  {
    if n == 0 then []
    else
      var w := Schedule(block, n - 1);
      w + [NextWord(block, w)]
  }

  function Round(s: Words, k: bv32, w: bv32): (r: Words)
  {
    var t1 := s[7] + BigSigma1(s[4]) + Choose(s[4], s[5], s[6]) + k + w;
    var t2 := BigSigma0(s[0]) + Majority(s[0], s[1], s[2]);
    [t1 + t2, s[0], s[1], s[2], s[3] + t1, s[4], s[5], s[6]]
  }

  function Rounds(s: Words, w: seq<bv32>, n: nat): (r: Words)
    requires |w| == 64 && n <= 64
  {
    if n == 0 then s else Round(Rounds(s, w, n - 1), K()[n - 1], w[n - 1])
  }

  function AddWords(a: Words, b: Words): (r: Words)
  {
    [a[0] + b[0], a[1] + b[1], a[2] + b[2], a[3] + b[3], a[4] + b[4], a[5] + b[5], a[6] + b[6], a[7] + b[7]]
  }

  /** One application of the compression function. */
  function Compress(s: Words, block: Block): (r: Words)
  {
    AddWords(s, Rounds(s, Schedule(block, 64), 64))
  }

  // One-shot hashing

  /** Compresses whole blocks in order. */
  function Absorb(s: Words, m: Bytes): (r: Words)
    requires |m| % BLOCK == 0
    decreases |m|
  {
    if m == [] then s else Absorb(Compress(s, m[..BLOCK]), m[BLOCK..])
  }

  function Zeros(n: nat): (b: Bytes)
    ensures |b| == n
  {
    seq(n, _ => 0)
  }

  /** How many zero bytes section 5.1.1 of FIPS 180-4 puts between the end marker and the length. */
  function PadZeros(n: nat): (k: nat)
    ensures k < BLOCK && (n + 1 + k) % BLOCK == 56 && (n + 1 + k + 8) % BLOCK == 0
  {
    if n % BLOCK < 56 then 55 - n % BLOCK else 119 - n % BLOCK
  }

  /** The padded message. The length field holds the bit length modulo 2^64. */
  function Pad(m: Bytes): (p: Bytes)
    ensures |p| % BLOCK == 0
  {
    m + Padding(|m|)
  }

  /** What follows a message of `n` bytes. */
  function Padding(n: nat): (p: Bytes)
    ensures |p| == PadZeros(n) + 9
  {
    [0x80] + Zeros(PadZeros(n)) + BE(n * 8 % U64, 8)
  }

  function Serialized(s: seq<bv32>): (d: Bytes)
    ensures |d| == 4 * |s|
  {
    if s == [] then [] else BE(s[0] as int, 4) + Serialized(s[1..])
  }

  function Output(s: Words): (d: Bytes)
    ensures |d| == 32
  {
    Serialized(s)
  }

  function Hash(m: Bytes): (d: Bytes)
    ensures |d| == 32
  {
    Output(Absorb(INITIAL, Pad(m)))
  }

  // Hashing in pieces

  /** struct sha256_ctx: `block` is the part of a block that has been collected. */
  datatype Context = Context(state: Words, total: nat, block: Bytes)

  const FRESH: Context := Context(INITIAL, 0, [])

  predicate ContextOk(c: Context)
  {
    |c.block| < BLOCK && c.total < U64
  }

  /** One byte into the block buffer. */
  function Feed(c: Context, b: byte): (r: Context)
    requires |c.block| < BLOCK
    ensures |r.block| < BLOCK && r.total == c.total
  {
    var block := c.block + [b];
    if |block| == BLOCK then c.(state := Compress(c.state, block), block := []) else c.(block := block)
  }

  function FeedAll(c: Context, data: Bytes): (r: Context)
    requires |c.block| < BLOCK
    ensures |r.block| < BLOCK && r.total == c.total
    decreases |data|
  {
    if data == [] then c else FeedAll(Feed(c, data[0]), data[1..])
  }

  /** sha256_update. */
  function Update(c: Context, data: Bytes): (r: Context)
    requires ContextOk(c)
    ensures ContextOk(r)
  {
    FeedAll(c.(total := (c.total + |data|) % U64), data)
  }

  /** sha256_final: end marker, zeros (through a whole extra block if the length no longer fits), length. */
  function Final(c: Context): (d: Bytes)
    requires ContextOk(c)
    ensures |d| == 32
  {
    var marked := c.block + [0x80];
    var length := BE(c.total * 8 % U64, 8);
    if |marked| > 56 then
      var s := Compress(c.state, marked + Zeros(64 - |marked|));
      Output(Compress(s, Zeros(56) + length))
    else Output(Compress(c.state, marked + Zeros(56 - |marked|) + length))
  }

  /** The context after hashing `m`: whole blocks compressed, the rest collected. */
  ghost predicate Holds(c: Context, m: Bytes)
  {
    var whole := |m| / BLOCK * BLOCK;
    && ContextOk(c) && c.total == |m| % U64 && c.block == m[whole..] && c.state == Absorb(INITIAL, m[..whole])
  }

  lemma {:induction false} AbsorbAppend(s: Words, a: Bytes, b: Bytes)
    requires |a| % BLOCK == 0 && |b| % BLOCK == 0
    ensures Absorb(s, a + b) == Absorb(Absorb(s, a), b)
    decreases |a|
  {
    hide Compress;
    if a == [] {
      assert a + b == b;
    } else {
      assert (a + b)[..BLOCK] == a[..BLOCK] && (a + b)[BLOCK..] == a[BLOCK..] + b;
      AbsorbAppend(Compress(s, a[..BLOCK]), a[BLOCK..], b);
    }
  }

  lemma AbsorbOne(s: Words, block: Block)
    ensures Absorb(s, block) == Compress(s, block)
  {
    assert block[..BLOCK] == block && block[BLOCK..] == [];
  }

  /** What the buffer and the state are after `m`, the byte count aside. */
  ghost predicate Collected(c: Context, m: Bytes)
  {
    var whole := |m| / BLOCK * BLOCK;
    |c.block| < BLOCK && c.block == m[whole..] && c.state == Absorb(INITIAL, m[..whole])
  }

  lemma FeedHolds(c: Context, m: Bytes, b: byte)
    requires Collected(c, m)
    ensures Collected(Feed(c, b), m + [b])
  {
    hide Compress, Absorb;
    var whole, n := |m| / BLOCK * BLOCK, m + [b];
    var block := c.block + [b];
    assert n[whole..] == block && n[..whole] == m[..whole];
    if |block| == BLOCK {
      assert |n| == whole + BLOCK;
      assert n[..|n|] == n == m[..whole] + block;
      AbsorbAppend(INITIAL, m[..whole], block);
      AbsorbOne(c.state, block);
      assert n[|n|..] == [];
    }
  }

  lemma {:induction false} FeedAllHolds(c: Context, m: Bytes, data: Bytes)
    requires Collected(c, m)
    ensures Collected(FeedAll(c, data), m + data)
    decreases |data|
  {
    hide Feed, Collected;
    if data == [] {
      assert m + data == m;
    } else {
      FeedHolds(c, m, data[0]);
      FeedSmall(c, m, data[0]);
      FeedAllHolds(Feed(c, data[0]), m + [data[0]], data[1..]);
      assert m + [data[0]] + data[1..] == m + data;
    }
  }

  lemma FeedSmall(c: Context, m: Bytes, b: byte)
    requires Collected(c, m)
    ensures |c.block| < BLOCK
  {
  }

  lemma UpdateHolds(c: Context, m: Bytes, data: Bytes)
    requires Holds(c, m)
    ensures Holds(Update(c, data), m + data)
  {
    hide Absorb, FeedAll;
    FeedAllHolds(c.(total := (c.total + |data|) % U64), m, data);
    ModAdd(|m|, |data|);
  }

  lemma ModAdd(a: nat, b: nat)
    ensures (a % U64 + b) % U64 == (a + b) % U64
  {
  }

  lemma FreshHolds()
    ensures Holds(FRESH, [])
  {
  }

  lemma BitLength(n: nat)
    ensures n % U64 * 8 % U64 == n * 8 % U64
  {
    var q, r := n / U64, n % U64;
    assert n * 8 == 8 * q * U64 + r * 8;
    ModShift(8 * q, r * 8);
  }

  lemma {:induction false} ModShift(k: nat, x: nat)
    ensures (k * U64 + x) % U64 == x % U64
    decreases k
  {
    if k > 0 {
      ModShift(k - 1, x);
      assert k * U64 + x == (k - 1) * U64 + x + U64;
    }
  }

  /** Padding inside the buffer is the padding of the whole message. */
  lemma FinalIsPadded(c: Context, m: Bytes)
    requires Holds(c, m)
    ensures Final(c) == Hash(m)
  {
    hide Compress, Absorb, Output, BE;
    var whole := |m| / BLOCK * BLOCK;
    var marked, length := c.block + [0x80], BE(c.total * 8 % U64, 8);
    BitLength(|m|);
    assert m == m[..whole] + c.block;
    assert |c.block| == |m| % BLOCK;
    if |marked| > 56 {
      var b1, b2 := marked + Zeros(64 - |marked|), Zeros(56) + length;
      assert Zeros(PadZeros(|m|)) == Zeros(64 - |marked|) + Zeros(56);
      assert Pad(m) == m[..whole] + (b1 + b2);
      AbsorbAppend(INITIAL, m[..whole], b1 + b2);
      AbsorbAppend(c.state, b1, b2);
      AbsorbOne(c.state, b1);
      AbsorbOne(Compress(c.state, b1), b2);
    } else {
      var b := marked + Zeros(56 - |marked|) + length;
      assert PadZeros(|m|) == 56 - |marked|;
      assert Pad(m) == m[..whole] + b;
      AbsorbAppend(INITIAL, m[..whole], b);
      AbsorbOne(c.state, b);
    }
  }

  function UpdateAll(c: Context, parts: seq<Bytes>): (r: Context)
    requires ContextOk(c)
    ensures ContextOk(r)
    decreases |parts|
  {
    if parts == [] then c else UpdateAll(Update(c, parts[0]), parts[1..])
  }

  function Concat(parts: seq<Bytes>): (r: Bytes)
  {
    if parts == [] then [] else parts[0] + Concat(parts[1..])
  }

  lemma {:induction false} UpdateAllHolds(c: Context, m: Bytes, parts: seq<Bytes>)
    requires Holds(c, m)
    ensures Holds(UpdateAll(c, parts), m + Concat(parts))
    decreases |parts|
  {
    hide Holds, Update;
    HoldsOk(c, m);
    if parts == [] {
      assert m + Concat(parts) == m;
    } else {
      UpdateHolds(c, m, parts[0]);
      UpdateAllHolds(Update(c, parts[0]), m + parts[0], parts[1..]);
      assert m + parts[0] + Concat(parts[1..]) == m + Concat(parts);
    }
  }

  lemma HoldsOk(c: Context, m: Bytes)
    requires Holds(c, m)
    ensures ContextOk(c)
  {
  }

  /** Chunked hashing equals one-shot hashing: however a message is cut, init, updates and final give the hash of the
      whole padded message. */
  lemma ChunkedIsOneShot(parts: seq<Bytes>)
    ensures Final(UpdateAll(FRESH, parts)) == Hash(Concat(parts))
  {
    hide Holds, UpdateAll, Final, Hash;
    FreshHolds();
    UpdateAllHolds(FRESH, [], parts);
    assert [] + Concat(parts) == Concat(parts);
    FinalIsPadded(UpdateAll(FRESH, parts), Concat(parts));
  }
}
