/** Password records (kernel/credentials.c): HMAC as section 2 of RFC 2104 defines it, PBKDF2 as section 5.2 of RFC 8018
    does, and the text form "$aos-pbkdf2-sha256$iterations$salt$digest". */
module Credentials {
  import opened Options
  import opened LittleEndian
  import opened Sha256

  type Text = seq<char>

  const SALT_SIZE: nat := 16
  const HASH_SIZE: nat := 32
  const MAX_ITERATIONS: nat := 1_000_000

  // HMAC

  function Xor(a: byte, b: byte): (r: byte)
  {
    ((a as bv8) ^ (b as bv8)) as byte
  }

  function XorAll(a: Bytes, b: Bytes): (r: Bytes)
    requires |a| == |b|
    ensures |r| == |a|
  {
    seq(|a|, i requires 0 <= i < |a| => Xor(a[i], b[i]))
  }

  function Masked(key: Bytes, mask: byte): (r: Bytes)
    ensures |r| == |key|
  {
    seq(|key|, i requires 0 <= i < |key| => Xor(key[i], mask))
  }

  /** The key, hashed if it is longer than a block, with zeros up to a block. */
  function KeyBlock(key: Bytes): (r: Bytes)
    ensures |r| == BLOCK
  {
    var k := if |key| > BLOCK then Hash(key) else key;
    k + Zeros(BLOCK - |k|)
  }

  function Hmac(key: Bytes, text: Bytes): (d: Bytes)
    ensures |d| == HASH_SIZE
  {
    var k := KeyBlock(key);
    Hash(Masked(k, 0x5c) + Hash(Masked(k, 0x36) + text))
  }

  /** hmac_sha256: two streaming passes over pads, message parts and inner digest. */
  function HmacPasses(key: Bytes, parts: seq<Bytes>): (d: Bytes)
    ensures |d| == HASH_SIZE
  {
    var block := if |key| > BLOCK then Final(UpdateAll(FRESH, [key])) else key;
    var k := block + Zeros(BLOCK - |block|);
    var inner := Final(UpdateAll(FRESH, [Masked(k, 0x36)] + parts));
    Final(UpdateAll(FRESH, [Masked(k, 0x5c), inner]))
  }

  /** The streaming computation is HMAC of the message parts joined. */
  lemma PassesAreHmac(key: Bytes, parts: seq<Bytes>)
    ensures HmacPasses(key, parts) == Hmac(key, Concat(parts))
  {
    hide Hash, Final, UpdateAll, Masked;
    ChunkedIsOneShot([key]);
    ConcatOne(key);
    var k := KeyBlock(key);
    ChunkedIsOneShot([Masked(k, 0x36)] + parts);
    assert ([Masked(k, 0x36)] + parts)[1..] == parts;
    var inner := Hash(Masked(k, 0x36) + Concat(parts));
    ChunkedIsOneShot([Masked(k, 0x5c), inner]);
    ConcatTwo(Masked(k, 0x5c), inner);
  }

  lemma ConcatOne(a: Bytes)
    ensures Concat([a]) == a
  {
    assert [a][1..] == [] && Concat([a][1..]) == [];
  }

  lemma ConcatTwo(a: Bytes, b: Bytes)
    ensures Concat([a, b]) == a + b
  {
    assert [a, b][1..] == [b];
    ConcatOne(b);
  }

  // PBKDF2

  /** The `n`-th value of the chain. */
  function Chain(password: Bytes, salt: Bytes, n: nat): (d: Bytes)
    requires n > 0
    ensures |d| == HASH_SIZE
  {
    if n == 1 then Hmac(password, salt + [0, 0, 0, 1]) else Hmac(password, Chain(password, salt, n - 1))
  }

  /** The first block of derived key after `n` iterations. */
  function Pbkdf2(password: Bytes, salt: Bytes, n: nat): (d: Bytes)
    requires n > 0
    ensures |d| == HASH_SIZE
  {
    if n == 1 then Chain(password, salt, 1) else XorAll(Pbkdf2(password, salt, n - 1), Chain(password, salt, n))
  }

  // Hexadecimal

  function HexDigit(n: nat): (c: char)
    requires n < 16
  {
    if n < 10 then ('0' as int + n) as char else ('a' as int + n - 10) as char
  }

  function ParseHexDigit(c: char): (r: Option<nat>)
    ensures r.Some? ==> r.value < 16
  {
    if '0' <= c <= '9' then Some(c as int - '0' as int)
    else if 'a' <= c <= 'f' then Some(c as int - 'a' as int + 10)
    else if 'A' <= c <= 'F' then Some(c as int - 'A' as int + 10)
    else None
  }

  function ToHex(b: Bytes): (t: Text)
    ensures |t| == 2 * |b|
  {
    if b == [] then [] else [HexDigit(b[0] / 16), HexDigit(b[0] % 16)] + ToHex(b[1..])
  }

  /** hex_to_bytes on text of even length. */
  function FromHex(t: Text): (r: Option<Bytes>)
    requires |t| % 2 == 0
    ensures r.Some? ==> |r.value| == |t| / 2
    decreases |t|
  {
    if t == [] then Some([])
    else
      var high, low := ParseHexDigit(t[0]), ParseHexDigit(t[1]);
      if high.None? || low.None? then None
      else
        var rest := FromHex(t[2..]);
        if rest.None? then None else Some([high.value * 16 + low.value] + rest.value)
  }

  lemma {:induction false} HexRoundTrip(b: Bytes)
    ensures FromHex(ToHex(b)) == Some(b)
  {
    if b != [] {
      HexRoundTrip(b[1..]);
      assert ToHex(b)[2..] == ToHex(b[1..]);
      assert b == [b[0]] + b[1..];
    }
  }

  /** Lower case of the letters that can occur in hexadecimal text. */
  function LowerChar(c: char): (r: char)
  {
    if 'A' <= c <= 'F' then (c as int - 'A' as int + 'a' as int) as char else c
  }

  function Lower(t: Text): (r: Text)
    ensures |r| == |t|
  {
    if t == [] then [] else [LowerChar(t[0])] + Lower(t[1..])
  }

  lemma {:induction false} LowerAppend(a: Text, b: Text)
    ensures Lower(a + b) == Lower(a) + Lower(b)
  {
    if a == [] {
      assert a + b == b;
    } else {
      assert (a + b)[1..] == a[1..] + b;
      LowerAppend(a[1..], b);
    }
  }

  /** Text that parses as hexadecimal is the hexadecimal form of what it parses to, but for the case of letters. */
  lemma {:induction false} HexUnique(t: Text)
    requires |t| % 2 == 0 && FromHex(t).Some?
    ensures Lower(t) == ToHex(FromHex(t).value)
    decreases |t|
  {
    if t != [] {
      HexUnique(t[2..]);
      assert t == [t[0], t[1]] + t[2..];
      LowerAppend([t[0], t[1]], t[2..]);
      assert [t[0], t[1]][1..] == [t[1]] && [t[1]][1..] == [];
      var b := FromHex(t).value;
      assert b[1..] == FromHex(t[2..]).value;
    }
  }

  // Decimal

  function Digit(n: nat): (r: char)
    requires n < 10
  {
    ('0' as int + n) as char
  }

  predicate IsDigit(c: char)
  {
    '0' <= c <= '9'
  }

  function Decimal(n: nat): (t: Text)
    ensures |t| > 0
  {
    if n < 10 then [Digit(n)] else Decimal(n / 10) + [Digit(n % 10)]
  }

  /** The digit loop of verify_pbkdf2: the number so far is checked before each digit. */
  function ParseDigits(t: Text, acc: nat): (r: Option<(nat, Text)>)
    decreases |t|
  {
    if t == [] || !IsDigit(t[0]) then Some((acc, t))
    else if acc > MAX_ITERATIONS then None
    else ParseDigits(t[1..], acc * 10 + (t[0] as int - '0' as int))
  }

  lemma {:induction false} ParsesDecimal(n: nat, rest: Text)
    ensures ParseDigits(Decimal(n) + rest, 0) == if n / 10 > MAX_ITERATIONS then None else ParseDigits(rest, n)
    decreases n
  {
    if n < 10 {
      assert (Decimal(n) + rest)[1..] == rest;
    } else {
      var more := [Digit(n % 10)] + rest;
      ParsesDecimal(n / 10, more);
      assert Decimal(n) + rest == Decimal(n / 10) + more;
      assert more[1..] == rest;
    }
  }

  lemma {:induction false} DigitsUnique(t: Text, acc: nat)
    requires acc > 0 && ParseDigits(t, acc).Some?
    ensures var (n, rest) := ParseDigits(t, acc).value; n > 0 && Decimal(n) + rest == Decimal(acc) + t
    decreases |t|
  {
    if t != [] && IsDigit(t[0]) {
      var d := t[0] as int - '0' as int;
      DigitsUnique(t[1..], acc * 10 + d);
      assert Decimal(acc * 10 + d) == Decimal(acc) + [t[0]];
      assert Decimal(acc) + [t[0]] + t[1..] == Decimal(acc) + t;
    }
  }

  lemma {:induction false} DecimalHead(n: nat)
    requires n > 0
    ensures '1' <= Decimal(n)[0] <= '9'
  {
    if n >= 10 {
      DecimalHead(n / 10);
    }
  }

  // Records

  const PREFIX: Text := "$aos-pbkdf2-sha256$"
  const DOLLAR: Text := "$"

  datatype Record = Record(iterations: nat, salt: Bytes, digest: Bytes)

  predicate RecordOk(r: Record)
  {
    r.iterations > 0 && |r.salt| == SALT_SIZE && |r.digest| == HASH_SIZE
  }

  function Encode(r: Record): (t: Text)
  {
    PREFIX + Decimal(r.iterations) + DOLLAR + ToHex(r.salt) + DOLLAR + ToHex(r.digest)
  }

  /** credentials_format_password_hash into a buffer of `size` bytes. */
  function Format(password: Bytes, salt: Bytes, iterations: nat, size: nat): (r: Option<Text>)
    requires |salt| == SALT_SIZE
  {
    if iterations == 0 then None
    else
      var t := Encode(Record(iterations, salt, Pbkdf2(password, salt, iterations)));
      if |t| + 1 > size then None else Some(t)
  }

  /** The text after the iteration count: "$salt$digest" and nothing more. */
  function ParseTail(t: Text): (r: Option<(Bytes, Bytes)>)
  {
    if |t| != 2 + 2 * SALT_SIZE + 2 * HASH_SIZE || t[0] != '$' || t[1 + 2 * SALT_SIZE] != '$' then None
    else
      var salt, digest := FromHex(t[1..1 + 2 * SALT_SIZE]), FromHex(t[2 + 2 * SALT_SIZE..]);
      if salt.None? || digest.None? then None else Some((salt.value, digest.value))
  }

  /** What verify_pbkdf2 reads from a record. */
  function Parse(t: Text): (r: Option<Record>)
  {
    if !(PREFIX <= t) then None
    else
      var rest := t[|PREFIX|..];
      if rest == [] || !('1' <= rest[0] <= '9') then None
      else
        var n := ParseDigits(rest, 0);
        if n.None? || n.value.0 == 0 || n.value.0 > MAX_ITERATIONS then None
        else
          var tail := ParseTail(n.value.1);
          if tail.None? then None else Some(Record(n.value.0, tail.value.0, tail.value.1))
  }

  /** verify_pbkdf2. */
  predicate Verify(password: Bytes, t: Text)
  {
    var r := Parse(t);
    r.Some? && r.value.iterations > 0 && r.value.digest == Pbkdf2(password, r.value.salt, r.value.iterations)
  }

  function Tail(r: Record): (result: Text)
  {
    DOLLAR + ToHex(r.salt) + DOLLAR + ToHex(r.digest)
  }

  lemma TailRoundTrip(r: Record)
    requires RecordOk(r)
    ensures ParseTail(Tail(r)) == Some((r.salt, r.digest))
  {
    hide ToHex, FromHex;
    var t := Tail(r);
    assert t[1..1 + 2 * SALT_SIZE] == ToHex(r.salt) && t[2 + 2 * SALT_SIZE..] == ToHex(r.digest);
    HexRoundTrip(r.salt);
    HexRoundTrip(r.digest);
  }

  /** Records parse back exactly while their iteration count is within the limit. */
  lemma RecordRoundTrip(r: Record)
    requires RecordOk(r)
    ensures Parse(Encode(r)) == if r.iterations <= MAX_ITERATIONS then Some(r) else None
  {
    hide ToHex, Decimal, ParseTail;
    var t, digits, tail := Encode(r), Decimal(r.iterations), Tail(r);
    assert t == PREFIX + (digits + tail);
    var rest := t[|PREFIX|..];
    assert rest == digits + tail;
    DecimalHead(r.iterations);
    assert rest[0] == digits[0];
    ParsesDecimal(r.iterations, tail);
    assert tail[0] == '$';
    TailRoundTrip(r);
  }

  /** A well-formed record is accepted exactly when its digest is the PBKDF2 value. */
  lemma AcceptedIffDigest(password: Bytes, r: Record)
    requires RecordOk(r) && r.iterations <= MAX_ITERATIONS
    ensures Verify(password, Encode(r)) <==> r.digest == Pbkdf2(password, r.salt, r.iterations)
  {
    hide Parse, Encode, Pbkdf2;
    RecordRoundTrip(r);
  }

  /** Password record round trip: a password verifies against the record formatted for it exactly when the iteration
      count is within 1 to 1000000; larger counts are written but not accepted. */
  lemma FormattedVerifies(password: Bytes, salt: Bytes, iterations: nat, size: nat)
    requires |salt| == SALT_SIZE && Format(password, salt, iterations, size).Some?
    ensures Verify(password, Format(password, salt, iterations, size).value) <==> iterations <= MAX_ITERATIONS
  {
    hide Parse, Encode, Pbkdf2;
    RecordRoundTrip(Record(iterations, salt, Pbkdf2(password, salt, iterations)));
  }

  lemma {:induction false} DecimalLength(n: nat, k: nat)
    requires k > 0 && n < Tens(k)
    ensures |Decimal(n)| <= k
    decreases k
  {
    if n >= 10 {
      assert k > 1;
      DecimalLength(n / 10, k - 1);
    }
  }

  function Tens(k: nat): (r: nat)
    ensures r > 0
  {
    if k == 0 then 1 else 10 * Tens(k - 1)
  }

  /** A buffer of 160 bytes always suffices. */
  lemma BufferSuffices(password: Bytes, salt: Bytes, iterations: nat)
    requires |salt| == SALT_SIZE && 0 < iterations < U32
    ensures Format(password, salt, iterations, 160).Some?
  {
    hide Decimal, ToHex, Pbkdf2;
    assert Tens(4) == 10000 && Tens(8) == 10000 * Tens(4) && Tens(10) == 100 * Tens(8);
    DecimalLength(iterations, 10);
  }

  /** `t` is the record, but for the case of the hexadecimal letters in its last 98 characters. */
  predicate Written(t: Text, r: Record)
  {
    && RecordOk(r) && r.iterations <= MAX_ITERATIONS
    && |t| >= 98 && t[..|t| - 98] + Lower(t[|t| - 98..]) == Encode(r)
  }

  lemma ParsedIsWritten(t: Text)
    requires Parse(t).Some?
    ensures Written(t, Parse(t).value)
  {
    hide ToHex, FromHex, Lower, Decimal, ParseDigits, ParseTail;
    var rest := t[|PREFIX|..];
    var (n, tail) := ParseDigits(rest, 0).value;
    DigitsWritten(rest);
    assert t == PREFIX + Decimal(n) + tail;
    TailUnique(tail);
    assert t[|t| - 98..] == tail && t[..|t| - 98] == PREFIX + Decimal(n);
  }

  lemma DigitsWritten(t: Text)
    requires t != [] && '1' <= t[0] <= '9' && ParseDigits(t, 0).Some?
    ensures t == Decimal(ParseDigits(t, 0).value.0) + ParseDigits(t, 0).value.1
  {
    hide Decimal, ParseDigits;
    FirstDigit(t);
    DigitsUnique(t[1..], t[0] as int - '0' as int);
    OneDigit(t[0]);
    assert [t[0]] + t[1..] == t;
  }

  /** Nothing else is accepted: an accepted text is the record it parses to, with the digest of the password. */
  lemma AcceptedIsRecord(password: Bytes, t: Text)
    requires Verify(password, t)
    ensures exists r :: Written(t, r) && r.digest == Pbkdf2(password, r.salt, r.iterations)
  {
    hide Pbkdf2, Parse, Encode;
    ParsedIsWritten(t);
  }

  lemma OneDigit(c: char)
    requires IsDigit(c)
    ensures Decimal(c as int - '0' as int) == [c]
  {
  }

  lemma FirstDigit(t: Text)
    requires t != [] && IsDigit(t[0])
    ensures ParseDigits(t, 0) == ParseDigits(t[1..], t[0] as int - '0' as int)
  {
  }

  lemma TailUnique(t: Text)
    requires ParseTail(t).Some?
    ensures var (salt, digest) := ParseTail(t).value;
            |t| == 98 && |salt| == SALT_SIZE && |digest| == HASH_SIZE
                && Lower(t) == DOLLAR + ToHex(salt) + DOLLAR + ToHex(digest)
  {
    hide ToHex, FromHex, Lower;
    var a, b := t[1..1 + 2 * SALT_SIZE], t[2 + 2 * SALT_SIZE..];
    HexUnique(a);
    HexUnique(b);
    assert t == DOLLAR + a + DOLLAR + b;
    LowerAppend(DOLLAR + a + DOLLAR, b);
    LowerAppend(DOLLAR + a, DOLLAR);
    LowerAppend(DOLLAR, a);
    LowerDollar();
  }

  lemma LowerDollar()
    ensures Lower(DOLLAR) == DOLLAR
  {
    assert DOLLAR[1..] == [] && Lower(DOLLAR[1..]) == [];
  }
}
