/** The fixed rules of AOSFS in plain numbers: which superblocks a mount accepts, which names the command directory
    keeps to itself, and how extents grow. */
module AosfsRules {
  import opened LittleEndian
  import opened AosfsFormat
  import opened Aosfs

  /** The superblocks of version 4, with a table of 2000 or 1024 entries and files of up to 1 GiB or 64 MiB, and those
      of version 3, with 64 slots of 8 KiB from 64 KiB on; no superblock is both. */
  lemma AcceptedSuperblocks(s: Superblock)
    ensures SuperValid(s) <==>
              && (s.maxEntries == 2000 || s.maxEntries == 1024)
              && (s.fileCapacity == 1073741824 || s.fileCapacity == 67108864)
              && s == Superblock(0x46534F41, 0x3153, 4, s.blockSize, s.maxEntries, 128, s.fileCapacity, 4096, 524288)
    ensures LegacySuperValid(s) <==> s == Superblock(0x46534F41, 0x3153, 3, s.blockSize, 64, 128, 8192, 4096, 65536)
    ensures !(SuperValid(s) && LegacySuperValid(s))
  {
  }

  /** "commands/" followed by one more component, and nothing else, is reserved. */
  lemma ReservedNames(p: Bytes)
    ensures CommandsLeaf(p) <==>
              exists leaf: Bytes ::
                  leaf != [] && SLASH !in leaf && p == [99, 111, 109, 109, 97, 110, 100, 115, 47] + leaf
  {
    var prefix: Bytes := [99, 111, 109, 109, 97, 110, 100, 115, 47];
    PrefixText(prefix);
    if CommandsLeaf(p) {
      SameText(p[..9], prefix);
      assert p == prefix + p[9..];
    }
    if exists leaf: Bytes :: leaf != [] && SLASH !in leaf && p == prefix + leaf {
      var leaf: Bytes :| leaf != [] && SLASH !in leaf && p == prefix + leaf;
      assert p[..9] == prefix && p[9..] == leaf;
    }
  }

  lemma PrefixText(p: Bytes)
    requires p == [99, 111, 109, 109, 97, 110, 100, 115, 47]
    ensures Text(p) == "commands/"
  {
    assert Text(p) == ['c', 'o', 'm', 'm', 'a', 'n', 'd', 's', '/'];
  }

  lemma SameText(p: Bytes, q: Bytes)
    requires Text(p) == Text(q)
    ensures p == q
  {
    assert |p| == |Text(p)| == |q|;
    forall k | 0 <= k < |p| ensures p[k] == q[k] {
      assert Text(p)[k] == p[k] as char && Text(q)[k] == q[k] as char;
    }
  }

  function Twice(n: nat, times: nat): (r: nat)
  {
    if times == 0 then n else 2 * Twice(n, times - 1)
  }

  /** An extent starts at 64 KiB and doubles until it is large enough, or stops at the largest file size. */
  lemma CapacityDoubles(capacity: nat, required: nat) returns (times: nat)
    requires required <= 1073741824
    ensures var start := if capacity < 65536 then 65536 else capacity;
            var c := NewCapacity(capacity, required);
            && (forall k :: 0 <= k < times ==> Twice(start, k) < required)
            && (c == Twice(start, times) >= required
                || (c == 1073741824 && 536870912 < Twice(start, times) < required))
  {
    times := DoublingStops(if capacity < 65536 then 65536 else capacity, required);
  }

  lemma {:induction false} DoublingStops(capacity: nat, required: nat) returns (times: nat)
    requires 0 < capacity
    ensures (forall k :: 0 <= k < times ==> Twice(capacity, k) < required)
    ensures var c := Doubled(capacity, required);
            || c == Twice(capacity, times) >= required
            || (c == 1073741824 && 536870912 < Twice(capacity, times) < required)
    decreases if capacity <= MAX_FILE_SIZE then MAX_FILE_SIZE - capacity else 0
  {
    if capacity >= required || capacity > MAX_FILE_SIZE / 2 {
      times := 0;
    } else {
      var later := DoublingStops(capacity * 2, required);
      times := later + 1;
      forall k | 0 <= k <= times ensures k > 0 ==> Twice(capacity, k) == Twice(capacity * 2, k - 1) {
        if k > 0 {
          TwiceShift(capacity, k - 1);
        }
      }
    }
  }

  lemma {:induction false} TwiceShift(n: nat, k: nat)
    ensures Twice(n * 2, k) == Twice(n, k + 1)
  {
    if k > 0 {
      TwiceShift(n, k - 1);
    }
  }
}
