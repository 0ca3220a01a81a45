/** PBKDF2 as section 5.2 of RFC 8018 writes it for one block: the exclusive or of a chain U_1, U_2, .. in which U_1 is
    the HMAC of the salt and the block number 1, and every later value is the HMAC of the one before. */
module Pbkdf2Standard {
  import opened LittleEndian
  import opened Sha256
  import opened Credentials

  predicate IsChain(us: seq<Bytes>, password: Bytes, salt: Bytes)
  {
    && us != [] && us[0] == Hmac(password, salt + BE(1, 4))
    && forall k :: 0 < k < |us| ==> us[k] == Hmac(password, us[k - 1])
  }

  /** The exclusive or of byte `i` of all values. */
  function Column(us: seq<Bytes>, i: nat): (b: byte)
    requires forall k :: 0 <= k < |us| ==> i < |us[k]|
  {
    if us == [] then 0 else Xor(Column(us[..|us| - 1], i), us[|us| - 1][i])
  }

  lemma BlockNumber()
    ensures BE(1, 4) == [0, 0, 0, 1]
  {
    assert BE(0, 1) == [0];
    assert BE(0, 2) == [0, 0];
    assert BE(0, 3) == [0, 0, 0];
  }

  lemma XorZero(b: byte)
    ensures Xor(0, b) == b
  {
  }

  /** The truth table of exclusive or, in four bits. */
  lemma XorTable()
    ensures Xor(12, 10) == 6
  {
  }

  lemma {:induction false} ChainAt(us: seq<Bytes>, password: Bytes, salt: Bytes, k: nat)
    requires IsChain(us, password, salt) && k < |us|
    ensures us[k] == Chain(password, salt, k + 1)
    decreases k
  {
    hide Hmac;
    BlockNumber();
    if k > 0 {
      ChainAt(us, password, salt, k - 1);
    }
  }

  /** What the kernel derives after |us| iterations is that exclusive or. */
  lemma {:induction false} DerivedIsXor(us: seq<Bytes>, password: Bytes, salt: Bytes, i: nat)
    requires IsChain(us, password, salt) && i < HASH_SIZE
    ensures forall k :: 0 <= k < |us| ==> |us[k]| == HASH_SIZE
    ensures Pbkdf2(password, salt, |us|)[i] == Column(us, i)
    decreases |us|
  {
    hide Hmac;
    var n := |us|;
    forall k | 0 <= k < n ensures |us[k]| == HASH_SIZE {
      ChainAt(us, password, salt, k);
    }
    ChainAt(us, password, salt, n - 1);
    if n == 1 {
      XorZero(us[0][i]);
      assert us[..0] == [];
    } else {
      DerivedIsXor(us[..n - 1], password, salt, i);
    }
  }
}
