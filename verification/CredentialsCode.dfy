/** Bytes and 8-bit words. */
module ByteWords {
  lemma ByteBack(a: int)
    requires 0 <= a < 256
    ensures (a as bv8) as int == a
  {
  }
}

/** The comparison of digests, without an early exit. */
module ConstantTime {
  import opened ByteWords
  import opened LittleEndian

  /** constant_time_equal: no early exit, every difference collected. */
  method ConstantTimeEqual(a: Bytes, b: Bytes) returns (equal: bool)
    requires |a| == |b|
    ensures equal <==> a == b
  {
    var difference: bv8 := 0;
    var i := 0;
    while i < |a|
      invariant 0 <= i <= |a| && (difference == 0 <==> a[..i] == b[..i])
    {
      var x, y := a[i] as bv8, b[i] as bv8;
      Collect(difference, x, y);
      SameByte(a[i], b[i]);
      assert a[..i + 1] == a[..i] + [a[i]] && b[..i + 1] == b[..i] + [b[i]];
      difference := difference | (x ^ y);
      i := i + 1;
    }
    assert a[..|a|] == a && b[..|b|] == b;
    equal := difference == 0;
  }

  lemma Collect(d: bv8, x: bv8, y: bv8)
    ensures d | (x ^ y) == 0 <==> d == 0 && x == y
  {
  }

  lemma SameByte(a: byte, b: byte)
    ensures a as bv8 == b as bv8 <==> a == b
  {
    ByteBack(a);
    ByteBack(b);
  }
}

/** The loops of kernel/credentials.c: the hash context, HMAC and PBKDF2 over reused buffers, and record parsing. */
module CredentialsCode {
  import opened Options
  import opened LittleEndian
  import opened Sha256
  import opened Credentials
  import opened ConstantTime

  /** The message schedule loop of sha256_transform. */
  method Expand(block: Block) returns (words: seq<bv32>)
    ensures words == Schedule(block, 64)
  {
    hide NextWord;
    words := [];
    for i := 0 to 64
      invariant words == Schedule(block, i)
    {
      words := words + [NextWord(block, words)];
    }
  }

  /** The round loop of sha256_transform. */
  method Mix(start: Words, words: seq<bv32>) returns (s: Words)
    requires |words| == 64
    ensures s == Rounds(start, words, 64)
  {
    hide Round, K;
    s := start;
    for i := 0 to 64
      invariant s == Rounds(start, words, i)
    {
      s := Round(s, K()[i], words[i]);
    }
  }

  /** struct sha256_ctx. */
  class HashContext {
    var state: Words
    var total: nat
    const block: array<byte>
    var blockLen: nat

    ghost predicate Valid()
      reads this, block
    {
      block.Length == BLOCK && blockLen < BLOCK && total < U64
    }

    function View(): (r: Context)
      reads this, block
      requires blockLen <= block.Length
    {
      Context(state, total, block[..blockLen])
    }

    /** sha256_init. */
    constructor ()
      ensures Valid() && fresh(block) && View() == FRESH
    {
      block := new byte[BLOCK](_ => 0);
      state, total, blockLen := INITIAL, 0, 0;
    }

    /** sha256_transform: message schedule, 64 rounds, feed-forward. */
    method Transform()
      requires block.Length == BLOCK
      modifies this`state
      ensures state == Compress(old(state), block[..])
    {
      hide Schedule, Rounds, AddWords;
      var words := Expand(block[..]);
      var mixed := Mix(state, words);
      state := AddWords(state, mixed);
    }

    /** One byte of sha256_update. */
    method FeedByte(b: byte)
      requires Valid()
      modifies this, block
      ensures Valid() && View() == Feed(old(View()), b)
    {
      hide Compress;
      ghost var before := block[..blockLen];
      block[blockLen] := b;
      blockLen := blockLen + 1;
      assert block[..blockLen] == before + [b];
      if blockLen == BLOCK {
        assert block[..] == block[..blockLen];
        Transform();
        blockLen := 0;
      }
    }

    /** sha256_update. */
    method UpdateWith(data: Bytes)
      requires Valid()
      modifies this, block
      ensures Valid() && View() == Update(old(View()), data)
    {
      hide Feed;
      total := (total + |data|) % U64;
      ghost var start := View();
      var i := 0;
      assert data[0..] == data;
      while i < |data|
        invariant 0 <= i <= |data| && Valid() && FeedAll(start, data) == FeedAll(View(), data[i..])
      {
        assert data[i..][1..] == data[i + 1..];
        FeedByte(data[i]);
        i := i + 1;
      }
    }

    /** Zeros from the end of the collected bytes up to `end`. */
    method FillZeros(end: nat)
      requires block.Length == BLOCK && blockLen <= end <= BLOCK
      modifies this`blockLen, block
      ensures blockLen == end && block[..end] == old(block[..blockLen]) + Zeros(end - old(blockLen))
    {
      ghost var before := block[..blockLen];
      while blockLen < end
        invariant old(blockLen) <= blockLen <= end && block[..blockLen] == before + Zeros(blockLen - old(blockLen))
      {
        block[blockLen] := 0;
        assert block[..blockLen + 1] == block[..blockLen] + [0];
        blockLen := blockLen + 1;
      }
    }

    /** The eight length bytes at the end of the block. */
    method StoreLength(length: Bytes)
      requires block.Length == BLOCK && |length| == 8
      modifies block
      ensures block[..] == old(block[..56]) + length
    {
      var i := 0;
      while i < 8
        invariant 0 <= i <= 8 && block[..56] == old(block[..56]) && block[56..56 + i] == length[..i]
      {
        block[56 + i] := length[i];
        assert block[56..56 + i + 1] == block[56..56 + i] + [length[i]];
        i := i + 1;
      }
      assert block[..] == block[..56] + block[56..56 + 8];
    }

    /** sha256_final. */
    method Finish(out: array<byte>)
      requires Valid() && out.Length >= HASH_SIZE && out != block
      modifies this, block, out
      ensures out[..HASH_SIZE] == Final(old(View())) && out[HASH_SIZE..] == old(out[HASH_SIZE..])
    {
      hide Compress, Output, BE;
      var length := BE(total * 8 % U64, 8);
      ghost var marked := block[..blockLen] + [0x80];
      block[blockLen] := 0x80;
      blockLen := blockLen + 1;
      assert block[..blockLen] == marked;
      if blockLen > 56 {
        FillZeros(64);
        assert block[..] == block[..64];
        Transform();
        blockLen := 0;
        assert block[..0] == [];
        FillZeros(56);
        assert block[..56] == [] + Zeros(56) == Zeros(56);
      } else {
        FillZeros(56);
      }
      StoreLength(length);
      Transform();
      WriteOut(Output(state), out);
    }
  }

  method WriteOut(data: Bytes, out: array<byte>)
    requires |data| <= out.Length
    modifies out
    ensures out[..|data|] == data && out[|data|..] == old(out[|data|..])
  {
    var i := 0;
    while i < |data|
      invariant 0 <= i <= |data| && out[..i] == data[..i] && out[|data|..] == old(out[|data|..])
    {
      out[i] := data[i];
      assert out[..i + 1] == out[..i] + [data[i]];
      i := i + 1;
    }
    assert out[..|data|] == data;
  }

  /** hmac_sha256. The message may be the very buffer that takes the result. */
  method HmacInto(key: Bytes, first: array<byte>, second: Bytes, out: array<byte>)
    requires out.Length == HASH_SIZE
    modifies out
    ensures out[..] == Hmac(key, old(first[..]) + second)
  {
    hide Final, Update, Hash, Masked;
    var keyBlock := new byte[BLOCK](_ => 0);
    assert keyBlock[..] == Zeros(BLOCK);
    if |key| > BLOCK {
      var ctx := new HashContext();
      ctx.UpdateWith(key);
      ctx.Finish(keyBlock);
      assert [key][1..] == [];
      assert UpdateAll(FRESH, [key]) == Update(FRESH, key);
      assert keyBlock[..] == keyBlock[..HASH_SIZE] + keyBlock[HASH_SIZE..];
    } else {
      WriteOut(key, keyBlock);
      assert keyBlock[..] == keyBlock[..|key|] + keyBlock[|key|..];
    }
    ghost var k := if |key| > BLOCK then Final(UpdateAll(FRESH, [key])) else key;
    assert keyBlock[..] == k + Zeros(BLOCK - |k|);
    var message := first[..];
    var parts := if second == [] then [message] else [message, second];
    var inner := HashParts([Masked(keyBlock[..], 0x36)] + parts);
    var result := HashParts([Masked(keyBlock[..], 0x5c), inner]);
    WriteOut(result, out);
    assert out[..] == out[..HASH_SIZE];
    PassesAreHmac(key, parts);
    if second == [] {
      ConcatOne(message);
      assert message + second == message;
    } else {
      ConcatTwo(message, second);
    }
  }

  /** Init, one update per part, final. */
  method HashParts(parts: seq<Bytes>) returns (digest: Bytes)
    ensures digest == Final(UpdateAll(FRESH, parts)) && |digest| == HASH_SIZE
  {
    hide Final, Update;
    var ctx := new HashContext();
    var i := 0;
    assert parts[0..] == parts;
    while i < |parts|
      invariant 0 <= i <= |parts| && ctx.Valid() && fresh(ctx) && fresh(ctx.block)
      invariant UpdateAll(FRESH, parts) == UpdateAll(ctx.View(), parts[i..])
    {
      assert parts[i..][1..] == parts[i + 1..];
      ctx.UpdateWith(parts[i]);
      i := i + 1;
    }
    var out := new byte[HASH_SIZE](_ => 0);
    ctx.Finish(out);
    digest := out[..HASH_SIZE];
  }

  /** pbkdf2_sha256: each round overwrites `value` with the HMAC of itself. */
  method Pbkdf2Into(password: Bytes, salt: Bytes, iterations: nat, out: array<byte>)
    requires iterations > 0 && out.Length == HASH_SIZE
    modifies out
    ensures out[..] == Pbkdf2(password, salt, iterations)
  {
    hide Hmac;
    var seed := new byte[|salt|](i requires 0 <= i < |salt| => salt[i]);
    assert seed[..] == salt;
    var value := new byte[HASH_SIZE](_ => 0);
    HmacInto(password, seed, [0, 0, 0, 1], value);
    WriteOut(value[..], out);
    assert out[..] == out[..HASH_SIZE];
    var round := 1;
    while round < iterations
      invariant 1 <= round <= iterations
      invariant value[..] == Chain(password, salt, round) && out[..] == Pbkdf2(password, salt, round)
    {
      NextRound(password, salt, round, value, out);
      round := round + 1;
    }
  }

  /** One pass of the loop of pbkdf2_sha256. */
  method NextRound(password: Bytes, ghost salt: Bytes, ghost round: nat, value: array<byte>, out: array<byte>)
    requires round > 0 && value != out && value.Length == out.Length == HASH_SIZE
    requires value[..] == Chain(password, salt, round) && out[..] == Pbkdf2(password, salt, round)
    modifies value, out
    ensures value[..] == Chain(password, salt, round + 1) && out[..] == Pbkdf2(password, salt, round + 1)
  {
    hide Hmac, XorAll;
    ghost var text := value[..];
    HmacInto(password, value, [], value);
    assert text + [] == text;
    XorInto(out, value[..]);
  }

  method XorInto(out: array<byte>, value: Bytes)
    requires out.Length == |value|
    modifies out
    ensures out[..] == XorAll(old(out[..]), value)
  {
    var i := 0;
    while i < out.Length
      invariant 0 <= i <= out.Length
      invariant forall k :: 0 <= k < i ==> out[k] == Xor(old(out[k]), value[k])
      invariant forall k :: i <= k < out.Length ==> out[k] == old(out[k])
    {
      out[i] := Xor(out[i], value[i]);
      i := i + 1;
    }
  }

  /** hex_to_bytes. */
  method HexToBytes(t: Text) returns (r: Option<Bytes>)
    requires |t| % 2 == 0
    ensures r == FromHex(t)
  {
    hide ParseHexDigit;
    var out: Bytes := [];
    var rest := t;
    if FromHex(t).Some? { assert [] + FromHex(t).value == FromHex(t).value; }
    while rest != []
      invariant |rest| % 2 == 0 && FromHex(t) == Prefixed(out, FromHex(rest))
      decreases |rest|
    {
      var high, low := ParseHexDigit(rest[0]), ParseHexDigit(rest[1]);
      if high.None? || low.None? { return None; }
      var value: byte := high.value * 16 + low.value;
      PrefixedMore(out, value, FromHex(rest[2..]));
      out := out + [value];
      rest := rest[2..];
    }
    assert out + [] == out;
    r := Some(out);
  }

  ghost function Prefixed(done: Bytes, rest: Option<Bytes>): (r: Option<Bytes>)
  {
    if rest.None? then None else Some(done + rest.value)
  }

  lemma PrefixedMore(done: Bytes, b: byte, rest: Option<Bytes>)
    ensures Prefixed(done, Prefixed([b], rest)) == Prefixed(done + [b], rest)
  {
    if rest.Some? {
      assert done + ([b] + rest.value) == done + [b] + rest.value;
    }
  }

  /** verify_pbkdf2. */
  method VerifyRecord(password: Bytes, t: Text) returns (ok: bool)
    ensures ok == Verify(password, t)
  {
    hide Pbkdf2, FromHex;
    if !(PREFIX <= t) { return false; }
    var rest := t[|PREFIX|..];
    if rest == [] || !('1' <= rest[0] <= '9') { return false; }
    var cursor := rest;
    var iterations: nat := 0;
    while cursor != [] && IsDigit(cursor[0])
      invariant ParseDigits(rest, 0) == ParseDigits(cursor, iterations)
      decreases |cursor|
    {
      if iterations > MAX_ITERATIONS { return false; }
      iterations := iterations * 10 + (cursor[0] as int - '0' as int);
      cursor := cursor[1..];
    }
    if iterations == 0 || iterations > MAX_ITERATIONS { return false; }
    if |cursor| != 98 || cursor[0] != '$' || cursor[33] != '$' { return false; }
    var salt := HexToBytes(cursor[1..33]);
    var expected := HexToBytes(cursor[34..]);
    if salt.None? || expected.None? { return false; }
    var actual := new byte[HASH_SIZE](_ => 0);
    Pbkdf2Into(password, salt.value, iterations, actual);
    ok := ConstantTimeEqual(expected.value, actual[..]);
  }

  /** bytes_to_hex. */
  method BytesToHex(b: Bytes) returns (t: Text)
    ensures t == ToHex(b)
  {
    hide HexDigit;
    t := [];
    var rest := b;
    assert [] + ToHex(b) == ToHex(b);
    while rest != []
      invariant ToHex(b) == t + ToHex(rest)
      decreases |rest|
    {
      var pair := [HexDigit(rest[0] / 16), HexDigit(rest[0] % 16)];
      assert t + (pair + ToHex(rest[1..])) == t + pair + ToHex(rest[1..]);
      t := t + pair;
      rest := rest[1..];
    }
    assert t + [] == t;
  }

  /** The digit loop of append_decimal, last digit first; ten characters suffice. */
  method DecimalText(n: nat) returns (t: Text)
    requires n < U32
    ensures t == Decimal(n) && |t| <= 10
  {
    hide Digit;
    t := [Digit(n % 10)];
    var value: nat := n / 10;
    if n < 10 { assert [] + t == t; }
    while value != 0
      invariant Decimal(n) == (if value == 0 then [] else Decimal(value)) + t
    {
      var digit := [Digit(value % 10)];
      assert value < 10 ==> Decimal(value) == [] + digit;
      assert value >= 10 ==> Decimal(value / 10) + digit + t == Decimal(value / 10) + (digit + t);
      t := digit + t;
      value := value / 10;
    }
    assert [] + t == t;
    assert Tens(4) == 10000 && Tens(8) == 10000 * Tens(4) && Tens(10) == 100 * Tens(8);
    DecimalLength(n, 10);
  }

  /** A character buffer that append_text fills, always closed by a zero. */
  class TextBuffer {
    const out: array<char>
    var used: nat

    ghost predicate Valid()
      reads this, out
    {
      used < out.Length && out[used] == '\0'
    }

    constructor (out: array<char>)
      requires out.Length > 0 && out[0] == '\0'
      ensures Valid() && this.out == out && used == 0
    {
      this.out := out;
      used := 0;
    }

    /** append_text: all of the text or nothing. */
    method Append(t: Text) returns (ok: bool)
      requires Valid()
      modifies this`used, out
      ensures Valid() && ok == (old(used) + |t| + 1 <= out.Length)
      ensures out[..used] == old(out[..used]) + (if ok then t else [])
    {
      if used + |t| + 1 > out.Length {
        assert out[..used] == old(out[..used]) + [];
        return false;
      }
      var i := 0;
      while i < |t|
        invariant 0 <= i <= |t| && used == old(used) && out[..used + i] == old(out[..used]) + t[..i]
      {
        out[used + i] := t[i];
        assert out[..used + i + 1] == out[..used + i] + [t[i]];
        i := i + 1;
      }
      used := used + |t|;
      out[used] := '\0';
      assert out[..used] == old(out[..used]) + t;
      ok := true;
    }
  }

  /** One append after another, stopping at the first that does not fit. */
  method AppendAll(buffer: TextBuffer, pieces: seq<Text>) returns (ok: bool)
    requires buffer.Valid()
    modifies buffer`used, buffer.out
    ensures buffer.Valid() && ok == (old(buffer.used) + |Joined(pieces)| + 1 <= buffer.out.Length)
    ensures ok ==> buffer.out[..buffer.used] == old(buffer.out[..buffer.used]) + Joined(pieces)
    decreases |pieces|
  {
    if pieces == [] {
      assert buffer.out[..buffer.used] + [] == buffer.out[..buffer.used];
      return true;
    }
    ghost var before := buffer.out[..buffer.used];
    ok := buffer.Append(pieces[0]);
    if ok {
      assert |buffer.out[..buffer.used]| == buffer.used;
      ok := AppendAll(buffer, pieces[1..]);
      assert before + pieces[0] + Joined(pieces[1..]) == before + Joined(pieces);
    }
  }

  function Joined(pieces: seq<Text>): (r: Text)
  {
    if pieces == [] then [] else pieces[0] + Joined(pieces[1..])
  }

  lemma JoinedRecord(a: Text, b: Text, c: Text, d: Text)
    ensures Joined([a, b, DOLLAR, c, DOLLAR, d]) == a + b + DOLLAR + c + DOLLAR + d
  {
    assert [d][1..] == [] && [DOLLAR, d][1..] == [d] && [c, DOLLAR, d][1..] == [DOLLAR, d];
    assert Joined([d]) == d && Joined([DOLLAR, d]) == DOLLAR + d;
    assert [DOLLAR, c, DOLLAR, d][1..] == [c, DOLLAR, d];
    assert Joined([DOLLAR, c, DOLLAR, d]) == DOLLAR + (c + (DOLLAR + d));
    assert [b, DOLLAR, c, DOLLAR, d][1..] == [DOLLAR, c, DOLLAR, d];
    assert [a, b, DOLLAR, c, DOLLAR, d][1..] == [b, DOLLAR, c, DOLLAR, d];
    assert a + (b + (DOLLAR + (c + (DOLLAR + d)))) == a + b + DOLLAR + c + DOLLAR + d;
  }

  /** credentials_format_password_hash. */
  method FormatRecord(password: Bytes, salt: Bytes, iterations: nat, out: array<char>) returns (ok: bool)
    requires |salt| == SALT_SIZE && iterations < U32
    modifies out
    ensures ok == Format(password, salt, iterations, out.Length).Some?
    ensures ok ==> var t := Format(password, salt, iterations, out.Length).value;
                   |t| < out.Length && out[..|t|] == t && out[|t|] == '\0'
  {
    hide Pbkdf2, ToHex, Decimal, Joined;
    if iterations == 0 || out.Length == 0 { return false; }
    out[0] := '\0';
    var digest := new byte[HASH_SIZE](_ => 0);
    Pbkdf2Into(password, salt, iterations, digest);
    var count := DecimalText(iterations);
    var saltHex := BytesToHex(salt);
    var digestHex := BytesToHex(digest[..]);
    JoinedRecord(PREFIX, count, saltHex, digestHex);
    var buffer := new TextBuffer(out);
    ok := AppendAll(buffer, [PREFIX, count, DOLLAR, saltHex, DOLLAR, digestHex]);
    if ok {
      ghost var t := Joined([PREFIX, count, DOLLAR, saltHex, DOLLAR, digestHex]);
      assert out[..buffer.used] == t;
      assert |out[..buffer.used]| == buffer.used;
    }
  }
}
