/** When a write to a FAT32 file succeeds: exactly when there are free clusters for the part of it beyond the chain. */
module Fat32Room {
  import opened LittleEndian
  import opened Fat32

  /** Number of free entries from `c` on. */
  function FreeFrom(fat: seq<nat>, c: nat): (r: nat)
    requires c <= |fat|
    decreases |fat| - c
  {
    if c == |fat| then 0 else (if fat[c] == 0 then 1 else 0) + FreeFrom(fat, c + 1)
  }

  function FreeClusters(v: Volume): (r: nat)
    requires Geometry(v)
  {
    FreeFrom(v.fats[0], 2)
  }

  function Weight(value: nat): (r: nat)
  {
    if value == 0 then 1 else 0
  }

  lemma {:induction false} FreeUpdate(fat: seq<nat>, from: nat, c: nat, value: nat)
    requires from <= |fat| && c < |fat|
    ensures FreeFrom(fat[c := value], from) + (if from <= c then Weight(fat[c]) else 0)
            == FreeFrom(fat, from) + (if from <= c then Weight(value) else 0)
    decreases |fat| - from
  {
    if from < |fat| {
      FreeUpdate(fat, from + 1, c, value);
    }
  }

  /** Free clusters from `c` on exist exactly when the search finds one. */
  lemma {:induction false} SearchFinds(v: Volume, c: nat)
    requires Geometry(v) && 2 <= c <= |v.clusters|
    ensures FindFree(v, c) < |v.clusters| <==> FreeFrom(v.fats[0], c) > 0
    decreases |v.clusters| - c
  {
    if c < |v.clusters| && v.fats[0][c] != 0 {
      SearchFinds(v, c + 1);
    }
  }

  function Last(chain: seq<nat>): (r: nat)
  {
    if chain == [] then 0 else chain[|chain| - 1]
  }

  lemma AllocateSucceedsIff(v: Volume, chains: seq<seq<nat>>, f: nat)
    requires WellFormed(v, chains) && f < |chains| && Last(chains[f]) < |v.clusters|
    ensures var r := Allocate(v, Last(chains[f]));
            && (r.Some? <==> FreeClusters(v) > 0)
            && (r.Some? ==> FreeClusters(r.value.0) == FreeClusters(v) - 1)
  {
    SearchFinds(v, 2);
    var c, last := FindFree(v, 2), Last(chains[f]);
    if c < |v.clusters| {
      if chains[f] != [] {
        ChainedNotFree(v, chains, f, |chains[f]| - 1);
        FreeUpdate(v.fats[0], 2, last, c);
        FreeUpdate(v.fats[0][last := c], 2, c, EOC);
      } else {
        FreeUpdate(v.fats[0], 2, c, EOC);
      }
    }
  }

  /** How much a chain of `len` clusters lacks for `n`. */
  function Lacking(len: nat, n: nat): (r: nat)
  {
    if n > len then n - len else 0
  }

  lemma {:induction false} WalkSucceedsIff(v: Volume, chains: seq<seq<nat>>, f: nat, i: nat, steps: nat)
    requires WellFormed(v, chains) && f < |chains| && i < |chains[f]| && 0 < chains[f][i] < |v.clusters|
    ensures var r, lacking := Walk(v, chains[f][i], steps), Lacking(|chains[f]|, i + steps + 1);
            (r.Some? <==> lacking <= FreeClusters(v)) && (r.Some? ==>
                FreeClusters(r.value.0) == FreeClusters(v) - lacking)
    decreases steps
  {
    hide WellFormed, Allocate, FreeFrom, FreeClusters;
    ChainInRange(v, chains, f, i);
    if steps > 0 {
      if i == |chains[f]| - 1 {
        AllocateSucceedsIff(v, chains, f);
        if Allocate(v, chains[f][i]).Some? {
          AllocateExtends(v, chains, f);
          var (v1, c) := Allocate(v, chains[f][i]).value;
          WalkSucceedsIff(v1, chains[f := chains[f] + [c]], f, i + 1, steps - 1);
        }
      } else {
        ChainInRange(v, chains, f, i + 1);
        WalkSucceedsIff(v, chains, f, i + 1, steps - 1);
      }
    }
  }

  /** fat32_get_cluster_for_offset succeeds exactly when the clusters the chain lacks are free, and takes just those. */
  lemma ClusterForSucceedsIff(v: Volume, chains: seq<seq<nat>>, f: nat, index: nat)
    requires WellFormed(v, chains) && f < |chains| && First(chains[f]) < |v.clusters|
    ensures var r, lacking := ClusterFor(v, First(chains[f]), index), Lacking(|chains[f]|, index + 1);
            (r.Some? <==> lacking <= FreeClusters(v)) && (r.Some? ==>
                FreeClusters(r.value.0) == FreeClusters(v) - lacking)
  {
    hide WellFormed, Allocate, Walk, FreeFrom, FreeClusters;
    if chains[f] == [] {
      AllocateSucceedsIff(v, chains, f);
      if Allocate(v, 0).Some? {
        AllocateExtends(v, chains, f);
        var (v1, c) := Allocate(v, 0).value;
        WalkSucceedsIff(v1, chains[f := chains[f] + [c]], f, 0, index);
      }
    } else {
      ChainInRange(v, chains, f, 0);
      WalkSucceedsIff(v, chains, f, 0, index);
    }
  }

  lemma WriteOneSucceedsIff(v: Volume, chains: seq<seq<nat>>, f: nat, pos: nat, piece: Bytes)
          returns (chains': seq<seq<nat>>)
    requires WellFormed(v, chains) && f < |chains| && First(chains[f]) < |v.clusters| && piece != []
    requires pos % v.size + |piece| <= v.size
    ensures var r, lacking := WriteOne(v, First(chains[f]), pos, piece), Lacking(|chains[f]|, pos / v.size + 1);
            && (r.Some? <==> lacking <= FreeClusters(v))
            && (r.Some? ==>
                FreeClusters(r.value.0) == FreeClusters(v) - lacking && WellFormed(r.value.0, chains')
                    && |chains'| == |chains|
                            && r.value.1 == First(chains'[f]) && |chains'[f]| == |chains[f]| + lacking)
  {
    hide WellFormed, ClusterFor, FreeFrom;
    var index := pos / v.size;
    ClusterForSucceedsIff(v, chains, f, index);
    chains' := chains;
    if ClusterFor(v, First(chains[f]), index).Some? {
      var (v1, first, c) := ClusterFor(v, First(chains[f]), index).value;
      chains' := ClusterForExtends(v, chains, f, index);
      ChainInRange(v1, chains', f, index);
      WriteKeepsForm(v1, chains', c, pos % v.size, piece);
    }
  }

  /** Clusters that hold the first `end` bytes of a file. */
  function ClustersFor(end: nat, size: nat): (r: nat)
    requires size > 0
  {
    if end == 0 then 0 else (end - 1) / size + 1
  }

  /** The write loop succeeds exactly when the clusters its end needs beyond the chain are free. */
  lemma {:induction false} WriteSucceedsIff(v: Volume, chains: seq<seq<nat>>, f: nat, pos: nat, data: Bytes)
    requires WellFormed(v, chains) && f < |chains| && First(chains[f]) < |v.clusters| && data != []
    ensures var r, lacking := WriteLoop(v, First(chains[f]), pos, data),
            Lacking(|chains[f]|, ClustersFor(pos + |data|, v.size));
            (r.Some? <==> lacking <= FreeClusters(v)) && (r.Some? ==>
                FreeClusters(r.value.0) == FreeClusters(v) - lacking)
    decreases |data|
  {
    hide WellFormed, WriteLoop, WriteOne, FreeFrom, FreeClusters, ClustersFor, Chunk;
    WriteLoopUnfold(v, First(chains[f]), pos, data);
    var chunk := Chunk(v.size, pos, |data|);
    var chains1 := WriteOneSucceedsIff(v, chains, f, pos, data[..chunk]);
    var one := WriteOne(v, First(chains[f]), pos, data[..chunk]);
    LastCluster(v.size, pos, |data|);
    if one.Some? {
      var (v1, first1) := one.value;
      WriteLoopUnfold(v1, first1, pos + chunk, data[chunk..]);
      if chunk < |data| {
        WriteSucceedsIff(v1, chains1, f, pos + chunk, data[chunk..]);
      }
    }
  }

  /** The clusters a chunk reaches, and those of the whole. */
  lemma LastCluster(size: nat, pos: nat, len: nat)
    requires size > 0 && len > 0
    ensures ClustersFor(pos + len, size) >= pos / size + 1
    ensures Chunk(size, pos, len) == len ==> ClustersFor(pos + len, size) == pos / size + 1
  {
    var q, r, n := pos / size, pos % size, pos + len - 1;
    assert pos == q * size + r;
    QuotientAtLeast(n, size, q);
    if Chunk(size, pos, len) == len {
      QuotientIs(n, size, q, r + len - 1);
    }
  }

  lemma QuotientAtLeast(n: nat, size: nat, q: nat)
    requires size > 0 && n >= q * size
    ensures n / size >= q
  {
    var k := n / size;
    Monotone(k + 1, q, size);
  }

  lemma Monotone(a: nat, b: nat, size: nat)
    ensures a <= b ==> a * size <= b * size
  {
    if a <= b {
      assert b * size == a * size + (b - a) * size;
    }
  }

  lemma QuotientIs(n: nat, size: nat, q: nat, r: nat)
    requires size > 0 && n == q * size + r && r < size
    ensures n / size == q
  {
    QuotientAtLeast(n, size, q);
    Monotone(q + 1, n / size, size);
  }
}
