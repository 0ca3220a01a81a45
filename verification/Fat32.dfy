/** FAT32 cluster chains (kernel/fat32.c): the allocation table with its copies, and reading and writing a file through
    its chain. The table is a sequence of 28-bit entries and the data area a sequence of clusters, both indexed by
    cluster number; clusters 0 and 1 are never used. */
module Fat32 {
  import opened Options
  import opened LittleEndian

  const BAD: nat := 0x0FFF_FFF7
  const EOC: nat := 0x0FFF_FFFF

  datatype Volume = Volume(fats: seq<seq<nat>>, clusters: seq<Bytes>, size: nat)

  predicate IsEoc(value: nat)
  {
    value >= 0x0FFF_FFF8
  }

  /** Valid geometry: every table covers the data area, and every cluster has the cluster size. */
  predicate Geometry(v: Volume)
  {
    && |v.fats| > 0 && v.size > 0 && 2 <= |v.clusters| <= BAD
    && (forall t :: 0 <= t < |v.fats| ==> |v.fats[t]| == |v.clusters|)
    && (forall c :: 2 <= c < |v.clusters| ==> |v.clusters[c]| == v.size)
  }

  // The table

  /** fat32_set_cluster: the entry changes in every copy. */
  function SetCluster(v: Volume, c: nat, value: nat): (r: Volume)
    requires Geometry(v) && c < |v.clusters|
    ensures Geometry(r) && r.clusters == v.clusters && r.size == v.size && |r.fats| == |v.fats|
    ensures forall t :: 0 <= t < |v.fats| ==> r.fats[t] == v.fats[t][c := value]
  {
    v.(fats := seq(|v.fats|, t requires 0 <= t < |v.fats| => v.fats[t][c := value]))
  }

  /** fat32_find_free_cluster from `c` on, or the number of clusters. */
  function FindFree(v: Volume, c: nat): (r: nat)
    requires Geometry(v) && 2 <= c <= |v.clusters|
    ensures c <= r <= |v.clusters| && (r < |v.clusters| ==> v.fats[0][r] == 0)
    ensures forall k :: c <= k < r ==> v.fats[0][k] != 0
    decreases |v.clusters| - c
  {
    if c == |v.clusters| || v.fats[0][c] == 0 then c else FindFree(v, c + 1)
  }

  function Zeros(n: nat): (r: Bytes)
    ensures |r| == n && forall k :: 0 <= k < n ==> r[k] == 0
  {
    seq(n, _ => 0)
  }

  function ZeroCluster(v: Volume, c: nat): (r: Volume)
    requires Geometry(v) && 2 <= c < |v.clusters|
    ensures Geometry(r)
  {
    v.(clusters := v.clusters[c := Zeros(v.size)])
  }

  /** Allocates a cluster: linked after `last`, or on its own when `last` is 0. */
  function Allocate(v: Volume, last: nat): (r: Option<(Volume, nat)>)
    requires Geometry(v) && last < |v.clusters|
    ensures r.Some? ==> Geometry(r.value.0) && 2 <= r.value.1 < |v.clusters| == |r.value.0.clusters|
  {
    var c := FindFree(v, 2);
    if c == |v.clusters| then None
    else
      var v1 := if last == 0 then v else SetCluster(v, last, c);
      Some((ZeroCluster(SetCluster(v1, c, EOC), c), c))
  }

  /** The walk of fat32_get_cluster_for_offset from cluster `c`, `steps` links on, allocating past the end. */
  function Walk(v: Volume, c: nat, steps: nat): (r: Option<(Volume, nat)>)
    requires Geometry(v) && 0 < c < |v.clusters|
    ensures r.Some? ==>
            Geometry(r.value.0) && 0 < r.value.1 < |v.clusters| == |r.value.0.clusters| && r.value.0.size == v.size
    decreases steps
  {
    if steps == 0 then Some((v, c))
    else
      var next := v.fats[0][c];
      if next == BAD then None
      else if IsEoc(next) then
        var a := Allocate(v, c);
        if a.None? then None else Walk(a.value.0, a.value.1, steps - 1)
      else if next == 0 || next >= |v.clusters| then None
      else Walk(v, next, steps - 1)
  }

  /** fat32_get_cluster_for_offset with allocation: the new first cluster and the cluster at `index`. */
  function ClusterFor(v: Volume, first: nat, index: nat): (r: Option<(Volume, nat, nat)>)
    requires Geometry(v) && first < |v.clusters|
    ensures r.Some? ==>
            Geometry(r.value.0) && 0 < r.value.1 < |v.clusters| == |r.value.0.clusters| && 0 < r.value.2 < |v.clusters|
                && r.value.0.size == v.size
  {
    if first == 0 then
      var a := Allocate(v, 0);
      if a.None? then None
      else
        var w := Walk(a.value.0, a.value.1, index);
        if w.None? then None else Some((w.value.0, a.value.1, w.value.1))
    else
      var w := Walk(v, first, index);
      if w.None? then None else Some((w.value.0, first, w.value.1))
  }

  // Chains

  /** The table links `chain` and ends it. */
  predicate Linked(v: Volume, chain: seq<nat>)
    requires Geometry(v)
  {
    && (forall i :: 0 <= i < |chain| ==> 2 <= chain[i] < |v.clusters|)
    && (forall i :: 0 <= i < |chain| - 1 ==> v.fats[0][chain[i]] == chain[i + 1])
    && (chain != [] ==> v.fats[0][chain[|chain| - 1]] >= 0x0FFF_FFF8)
  }

  function First(chain: seq<nat>): (r: nat)
  {
    if chain == [] then 0 else chain[0]
  }

  /** The chains of all files: each is linked and ended, and no cluster occurs twice in all of them together, so they
      are acyclic and disjoint; and all copies of the table are equal. */
  ghost predicate WellFormed(v: Volume, chains: seq<seq<nat>>)
    ensures WellFormed(v, chains) ==> Geometry(v)
  {
    && Geometry(v) && (forall t :: 0 <= t < |v.fats| ==> v.fats[t] == v.fats[0])
    && (forall f :: 0 <= f < |chains| ==> Linked(v, chains[f]))
    && (forall f, i, g, j {:trigger chains[f][i], chains[g][j]} ::
          0 <= f < |chains| && 0 <= i < |chains[f]| && 0 <= g < |chains| && 0 <= j < |chains[g]| ==>
            (chains[f][i] == chains[g][j] ==> f == g && i == j))
  }

  /** Clusters of chains are not free. */
  lemma ChainedNotFree(v: Volume, chains: seq<seq<nat>>, f: nat, i: nat)
    requires WellFormed(v, chains) && f < |chains| && i < |chains[f]|
    ensures v.fats[0][chains[f][i]] != 0
  {
    var chain := chains[f];
    assert Linked(v, chain);
    assert i < |chain| - 1 ==> v.fats[0][chain[i]] == chain[i + 1];
  }

  /** Allocating at the end of chain `f` adds one fresh, zeroed cluster to it and touches no other. */
  lemma AllocateExtends(v: Volume, chains: seq<seq<nat>>, f: nat)
    requires WellFormed(v, chains) && f < |chains|
    requires var chain := chains[f]; Allocate(v, if chain == [] then 0 else chain[|chain| - 1]).Some?
    ensures var chain := chains[f];
            var (v1, c) := Allocate(v, if chain == [] then 0 else chain[|chain| - 1]).value;
            && WellFormed(v1, chains[f := chain + [c]]) && v1.size == v.size
            && v1.clusters == v.clusters[c := Zeros(v.size)] && v.fats[0][c] == 0
            && (forall k :: 0 <= k < |v.clusters| && v1.fats[0][k] == 0 ==> v.fats[0][k] == 0)
            && forall g, j {:trigger chains[g][j]} :: 0 <= g < |chains| && 0 <= j < |chains[g]| ==> chains[g][j] != c
  {
    var chain := chains[f];
    var last := if chain == [] then 0 else chain[|chain| - 1];
    assert Linked(v, chain);
    var (v1, c) := Allocate(v, last).value;
    forall g, j | 0 <= g < |chains| && 0 <= j < |chains[g]| ensures chains[g][j] != c {
      ChainedNotFree(v, chains, g, j);
    }
    var chains' := chains[f := chain + [c]];
    AllocatedLinks(v, v1, chains, f, c);
    forall g | 0 <= g < |chains'| ensures Linked(v1, chains'[g]) {
      if g != f {
        KeptLinks(v, v1, chains, f, g, c);
      }
    }
    FreshDistinct(chains, f, c);
  }

  lemma AllocatedLinks(v: Volume, v1: Volume, chains: seq<seq<nat>>, f: nat, c: nat)
    requires WellFormed(v, chains) && f < |chains| && Geometry(v1) && |v1.clusters| == |v.clusters|
    requires 2 <= c < |v.clusters|
    requires forall j :: 0 <= j < |chains[f]| ==> chains[f][j] != c
    requires v1.fats[0] == (if chains[f] == [] then v.fats[0] else v.fats[0][chains[f][|chains[f]| - 1] := c])[c := EOC]
    ensures Linked(v1, chains[f] + [c])
  {
    var chain, all := chains[f], chains[f] + [c];
    assert Linked(v, chain);
    forall i | 0 <= i < |all| - 1 ensures v1.fats[0][all[i]] == all[i + 1] {
      if i < |chain| - 1 {
        assert chains[f][i] != chains[f][|chain| - 1];
      }
    }
  }

  lemma KeptLinks(v: Volume, v1: Volume, chains: seq<seq<nat>>, f: nat, g: nat, c: nat)
    requires WellFormed(v, chains) && f < |chains| && g < |chains| && g != f && Geometry(v1)
    requires |v1.clusters| == |v.clusters| && 2 <= c < |v.clusters|
    requires forall j :: 0 <= j < |chains[g]| ==> chains[g][j] != c
    requires v1.fats[0] == (if chains[f] == [] then v.fats[0] else v.fats[0][chains[f][|chains[f]| - 1] := c])[c := EOC]
    ensures Linked(v1, chains[g])
  {
    assert Linked(v, chains[g]);
    forall i | 0 <= i < |chains[g]| ensures v1.fats[0][chains[g][i]] == v.fats[0][chains[g][i]] {
      if chains[f] != [] {
        assert chains[g][i] != chains[f][|chains[f]| - 1];
      }
    }
  }

  lemma FreshDistinct(chains: seq<seq<nat>>, f: nat, c: nat)
    requires f < |chains|
    requires forall f, i, g, j {:trigger chains[f][i], chains[g][j]} ::
               0 <= f < |chains| && 0 <= i < |chains[f]| && 0 <= g < |chains| && 0 <= j < |chains[g]| ==>
                 (chains[f][i] == chains[g][j] ==> f == g && i == j)
    requires forall g, j {:trigger chains[g][j]} :: 0 <= g < |chains| && 0 <= j < |chains[g]| ==> chains[g][j] != c
    ensures var chains' := chains[f := chains[f] + [c]];
            forall f, i, g, j {:trigger chains'[f][i], chains'[g][j]} ::
              0 <= f < |chains'| && 0 <= i < |chains'[f]| && 0 <= g < |chains'| && 0 <= j < |chains'[g]| ==>
                (chains'[f][i] == chains'[g][j] ==> f == g && i == j)
  {
    var chains' := chains[f := chains[f] + [c]];
    forall a, i, g, j | 0 <= a < |chains'| && 0 <= i < |chains'[a]| && 0 <= g < |chains'| && 0 <= j < |chains'[g]|
        && chains'[a][i] == chains'[g][j]
      ensures a == g && i == j
    {
      var newA, newG := a == f && i == |chains[f]|, g == f && j == |chains[f]|;
      if !newA && !newG {
        assert chains'[a][i] == chains[a][i] && chains'[g][j] == chains[g][j];
      } else if newA && !newG {
        assert chains'[g][j] == chains[g][j];
      } else if !newA {
        assert chains'[a][i] == chains[a][i];
      }
    }
  }

  // Extending a chain

  /** Chain `f` has grown by fresh zeroed clusters; nothing else in any chain has changed. */
  ghost predicate Extended(v: Volume, chains: seq<seq<nat>>, v': Volume, chains': seq<seq<nat>>, f: nat)
  {
    && f < |chains| == |chains'| && chains' == chains[f := chains'[f]] && chains[f] <= chains'[f]
    && WellFormed(v, chains) && WellFormed(v', chains') && v'.size == v.size && |v'.clusters| == |v.clusters|
    && (forall g, j {:trigger chains[g][j]} :: 0 <= g < |chains| && 0 <= j < |chains[g]| ==>
          chains[g][j] < |v.clusters| && v'.clusters[chains[g][j]] == v.clusters[chains[g][j]])
    && (forall j ::
        |chains[f]| <= j < |chains'[f]| ==>
            chains'[f][j] < |v'.clusters| && v'.clusters[chains'[f][j]] == Zeros(v.size))
    && OnlyFree(v, chains, v', chains', f)
  }

  /** Added clusters were free, and none became free. */
  ghost predicate OnlyFree(v: Volume, chains: seq<seq<nat>>, v': Volume, chains': seq<seq<nat>>, f: nat)
    requires Geometry(v) && Geometry(v') && |v'.clusters| == |v.clusters| && f < |chains| && f < |chains'|
  {
    && (forall j :: |chains[f]| <= j < |chains'[f]| ==> chains'[f][j] < |v.clusters| && v.fats[0][chains'[f][j]] == 0)
    && (forall c :: 0 <= c < |v.clusters| && v'.fats[0][c] == 0 ==> v.fats[0][c] == 0)
  }

  lemma OnlyFreeTrans(v: Volume, chains: seq<seq<nat>>, v1: Volume, chains1: seq<seq<nat>>, v2: Volume,
          chains2: seq<seq<nat>>, f: nat)
    requires Geometry(v) && Geometry(v1) && Geometry(v2) && |v2.clusters| == |v1.clusters| == |v.clusters|
    requires f < |chains| && f < |chains1| && f < |chains2| && chains1[f] <= chains2[f]
    requires OnlyFree(v, chains, v1, chains1, f) && OnlyFree(v1, chains1, v2, chains2, f)
    ensures OnlyFree(v, chains, v2, chains2, f)
  {
    forall j | |chains[f]| <= j < |chains2[f]| ensures chains2[f][j] < |v.clusters| && v.fats[0][chains2[f][j]] == 0 {
      if j < |chains1[f]| {
        assert chains2[f][j] == chains1[f][j];
      }
    }
  }

  lemma ExtendedRefl(v: Volume, chains: seq<seq<nat>>, f: nat)
    requires WellFormed(v, chains) && f < |chains|
    ensures Extended(v, chains, v, chains, f)
  {
    forall g, j | 0 <= g < |chains| && 0 <= j < |chains[g]| ensures chains[g][j] < |v.clusters| {
      assert Linked(v, chains[g]);
    }
  }

  lemma ExtendedTrans(v: Volume, chains: seq<seq<nat>>, v1: Volume, chains1: seq<seq<nat>>, v2: Volume,
          chains2: seq<seq<nat>>, f: nat)
    requires Extended(v, chains, v1, chains1, f) && Extended(v1, chains1, v2, chains2, f)
    ensures Extended(v, chains, v2, chains2, f)
  {
    hide WellFormed, Zeros, OnlyFree;
    OnlyFreeTrans(v, chains, v1, chains1, v2, chains2, f);
    assert chains[f := chains1[f]][f := chains2[f]] == chains[f := chains2[f]];
    forall g, j | 0 <= g < |chains| && 0 <= j < |chains[g]|
        ensures v2.clusters[chains[g][j]] == v.clusters[chains[g][j]] {
      assert chains1[g][j] == chains[g][j];
    }
    forall j | |chains[f]| <= j < |chains2[f]|
        ensures chains2[f][j] < |v2.clusters| && v2.clusters[chains2[f][j]] == Zeros(v.size) {
      if j < |chains1[f]| {
        assert chains2[f][j] == chains1[f][j];
      }
    }
  }

  lemma AllocateIsExtended(v: Volume, chains: seq<seq<nat>>, f: nat)
    requires WellFormed(v, chains) && f < |chains|
    requires var chain := chains[f]; Allocate(v, if chain == [] then 0 else chain[|chain| - 1]).Some?
    ensures var chain := chains[f];
            var (v1, c) := Allocate(v, if chain == [] then 0 else chain[|chain| - 1]).value;
            Extended(v, chains, v1, chains[f := chain + [c]], f)
  {
    hide Allocate, WellFormed;
    AllocateExtends(v, chains, f);
    forall g, j | 0 <= g < |chains| && 0 <= j < |chains[g]| ensures chains[g][j] < |v.clusters| {
      ChainInRange(v, chains, g, j);
    }
  }

  lemma ChainInRange(v: Volume, chains: seq<seq<nat>>, g: nat, j: nat)
    requires WellFormed(v, chains) && g < |chains| && j < |chains[g]|
    ensures 2 <= chains[g][j] < |v.clusters| && |v.clusters[chains[g][j]]| == v.size
    ensures v.fats[0][chains[g][j]] == if j < |chains[g]| - 1 then chains[g][j + 1] else v.fats[0][chains[g][j]]
    ensures j == |chains[g]| - 1 <==> IsEoc(v.fats[0][chains[g][j]])
  {
    var chain := chains[g];
    assert Linked(v, chain);
    assert j < |chain| - 1 ==> v.fats[0][chain[j]] == chain[j + 1];
  }

  /** Walking along chain `f`, extending it where it ends. */
  lemma {:induction false} WalkExtends(v: Volume, chains: seq<seq<nat>>, f: nat, i: nat, steps: nat)
          returns (chains': seq<seq<nat>>)
    requires WellFormed(v, chains) && f < |chains| && i < |chains[f]| && chains[f][i] < |v.clusters| && 0 < chains[f][i]
    requires Walk(v, chains[f][i], steps).Some?
    ensures var (v1, c) := Walk(v, chains[f][i], steps).value;
            && Extended(v, chains, v1, chains', f) && i + steps < |chains'[f]| && c == chains'[f][i + steps]
            && |chains'[f]| == if i + steps < |chains[f]| then |chains[f]| else i + steps + 1
    decreases steps
  {
    hide WellFormed, Extended, Allocate;
    ChainInRange(v, chains, f, i);
    if steps == 0 {
      ExtendedRefl(v, chains, f);
      chains' := chains;
    } else if i == |chains[f]| - 1 {
      AllocateIsExtended(v, chains, f);
      AllocateExtends(v, chains, f);
      var (v1, c) := Allocate(v, chains[f][i]).value;
      var chains1 := chains[f := chains[f] + [c]];
      chains' := WalkExtends(v1, chains1, f, i + 1, steps - 1);
      ExtendedTrans(v, chains, v1, chains1, Walk(v1, c, steps - 1).value.0, chains', f);
    } else {
      ChainInRange(v, chains, f, i + 1);
      chains' := WalkExtends(v, chains, f, i + 1, steps - 1);
    }
  }

  /** fat32_get_cluster_for_offset reaches cluster `index` of the chain, extended by fresh clusters only if it was
      shorter. */
  lemma ClusterForExtends(v: Volume, chains: seq<seq<nat>>, f: nat, index: nat) returns (chains': seq<seq<nat>>)
    requires WellFormed(v, chains) && f < |chains| && First(chains[f]) < |v.clusters|
    requires ClusterFor(v, First(chains[f]), index).Some?
    ensures var (v1, first, c) := ClusterFor(v, First(chains[f]), index).value;
            && Extended(v, chains, v1, chains', f) && index < |chains'[f]| && c == chains'[f][index]
                && first == First(chains'[f])
            && |chains'[f]| == if index < |chains[f]| then |chains[f]| else index + 1
  {
    hide WellFormed, Allocate, Walk;
    if chains[f] == [] {
      AllocateIsExtended(v, chains, f);
      AllocateExtends(v, chains, f);
      var (v1, c) := Allocate(v, 0).value;
      var chains1 := chains[f := chains[f] + [c]];
      chains' := WalkExtends(v1, chains1, f, 0, index);
      ExtendedTrans(v, chains, v1, chains1, Walk(v1, c, index).value.0, chains', f);
    } else {
      ChainInRange(v, chains, f, 0);
      chains' := WalkExtends(v, chains, f, 0, index);
    }
  }

  // Contents

  function ClusterAt(v: Volume, c: nat): (r: Bytes)
  {
    if c < |v.clusters| then v.clusters[c] else []
  }

  /** The bytes of a chain's clusters, in order. */
  function Flat(v: Volume, chain: seq<nat>): (r: Bytes)
  {
    if chain == [] then [] else ClusterAt(v, chain[0]) + Flat(v, chain[1..])
  }

  /** Where cluster `i` of a file starts. */
  function Start(i: nat, size: nat): (r: nat)
  {
    if i == 0 then 0 else size + Start(i - 1, size)
  }

  lemma {:induction false} StartIs(i: nat, size: nat)
    ensures Start(i, size) == i * size
  {
    if i > 0 {
      StartIs(i - 1, size);
      assert i * size == size + (i - 1) * size;
    }
  }

  /** Position, cluster index and offset within the cluster belong together. */
  lemma Locate(pos: nat, size: nat)
    requires size > 0
    ensures pos == Start(pos / size, size) + pos % size && pos % size < size
  {
    StartIs(pos / size, size);
  }

  lemma {:induction false} FlatSize(v: Volume, chain: seq<nat>)
    requires forall i :: 0 <= i < |chain| ==> |ClusterAt(v, chain[i])| == v.size
    ensures |Flat(v, chain)| == Start(|chain|, v.size)
  {
    if chain != [] {
      FlatSize(v, chain[1..]);
    }
  }

  lemma {:induction false} FlatKept(v: Volume, v': Volume, chain: seq<nat>)
    requires forall i :: 0 <= i < |chain| ==> ClusterAt(v', chain[i]) == ClusterAt(v, chain[i])
    ensures Flat(v', chain) == Flat(v, chain)
  {
    if chain != [] {
      FlatKept(v, v', chain[1..]);
    }
  }

  lemma {:induction false} FlatAppend(v: Volume, a: seq<nat>, b: seq<nat>)
    ensures Flat(v, a + b) == Flat(v, a) + Flat(v, b)
  {
    if a == [] {
      assert a + b == b;
    } else {
      assert (a + b)[1..] == a[1..] + b;
      FlatAppend(v, a[1..], b);
    }
  }

  predicate AllZero(b: Bytes)
  {
    forall k :: 0 <= k < |b| ==> b[k] == 0
  }

  lemma {:induction false} FlatZeros(v: Volume, chain: seq<nat>)
    requires forall i :: 0 <= i < |chain| ==> AllZero(ClusterAt(v, chain[i]))
    ensures AllZero(Flat(v, chain))
  {
    if chain != [] {
      FlatZeros(v, chain[1..]);
    }
  }

  /** `b` is `a` with zeros after it. */
  predicate Padded(a: Bytes, b: Bytes)
  {
    a <= b && AllZero(b[|a|..])
  }

  /** Growth leaves the bytes of other files alone. */
  lemma ExtendedOther(v: Volume, chains: seq<seq<nat>>, v': Volume, chains': seq<seq<nat>>, f: nat, g: nat)
    requires Extended(v, chains, v', chains', f) && g < |chains|
    ensures Flat(v', chains[g]) == Flat(v, chains[g])
  {
    hide WellFormed;
    forall i | 0 <= i < |chains[g]| ensures ClusterAt(v', chains[g][i]) == ClusterAt(v, chains[g][i]) {
    }
    FlatKept(v, v', chains[g]);
  }

  /** Growth appends zeros to the file that grows. */
  lemma ExtendedSelf(v: Volume, chains: seq<seq<nat>>, v': Volume, chains': seq<seq<nat>>, f: nat)
    requires Extended(v, chains, v', chains', f)
    ensures Padded(Flat(v, chains[f]), Flat(v', chains'[f]))
  {
    hide WellFormed;
    ExtendedOther(v, chains, v', chains', f, f);
    var prior, new_ := chains[f], chains'[f];
    var added := new_[|prior|..];
    assert new_ == prior + added;
    forall i | 0 <= i < |added| ensures AllZero(ClusterAt(v', added[i])) {
      assert added[i] == new_[|prior| + i];
    }
    FlatAppend(v', prior, added);
    FlatZeros(v', added);
  }

  // Writing

  function Spliced(b: Bytes, at: nat, data: Bytes): (r: Bytes)
    requires at + |data| <= |b|
    ensures |r| == |b|
    ensures forall k :: 0 <= k < |b| ==> r[k] == if at <= k < at + |data| then data[k - at] else b[k]
  {
    b[..at] + data + b[at + |data|..]
  }

  /** fat32_write_cluster. */
  function WriteCluster(v: Volume, c: nat, at: nat, piece: Bytes): (r: Volume)
    requires Geometry(v) && 2 <= c < |v.clusters| && at + |piece| <= v.size
    ensures Geometry(r) && r.size == v.size && r.fats == v.fats && |r.clusters| == |v.clusters|
  {
    v.(clusters := v.clusters[c := Spliced(v.clusters[c], at, piece)])
  }

  lemma SpliceHead(head: Bytes, rest: Bytes, at: nat, piece: Bytes)
    requires at + |piece| <= |head|
    ensures Spliced(head, at, piece) + rest == Spliced(head + rest, at, piece)
  {
  }

  lemma SpliceTail(head: Bytes, rest: Bytes, at: nat, piece: Bytes)
    requires at + |piece| <= |rest|
    ensures head + Spliced(rest, at, piece) == Spliced(head + rest, |head| + at, piece)
  {
  }

  /** Writing into cluster `i` of a chain splices the file at that cluster's start. */
  lemma {:induction false} FlatSplice(v: Volume, chain: seq<nat>, i: nat, at: nat, piece: Bytes)
    requires Geometry(v) && i < |chain| && at + |piece| <= v.size && 2 <= chain[i] < |v.clusters|
    requires (forall j :: 0 <= j < |chain| ==> 2 <= chain[j] < |v.clusters|)
    requires (forall j :: 0 <= j < |chain| && j != i ==> chain[j] != chain[i])
    ensures Start(i, v.size) + at + |piece| <= |Flat(v, chain)|
    ensures Flat(WriteCluster(v, chain[i], at, piece), chain) == Spliced(Flat(v, chain), Start(i, v.size) + at, piece)
    decreases |chain|
  {
    hide Spliced;
    var v' := WriteCluster(v, chain[i], at, piece);
    var head, rest := v.clusters[chain[0]], Flat(v, chain[1..]);
    if i == 0 {
      FlatKept(v, v', chain[1..]);
      SpliceHead(head, rest, at, piece);
    } else {
      assert chain[1..][i - 1] == chain[i];
      FlatSplice(v, chain[1..], i - 1, at, piece);
      SpliceTail(head, rest, Start(i - 1, v.size) + at, piece);
    }
  }

  lemma WriteKeepsForm(v: Volume, chains: seq<seq<nat>>, c: nat, at: nat, piece: Bytes)
    requires WellFormed(v, chains) && 2 <= c < |v.clusters| && at + |piece| <= v.size
    ensures WellFormed(WriteCluster(v, c, at, piece), chains)
  {
    var v' := WriteCluster(v, c, at, piece);
    forall f | 0 <= f < |chains| ensures Linked(v', chains[f]) {
      assert Linked(v, chains[f]);
    }
  }

  lemma WriteOther(v: Volume, chains: seq<seq<nat>>, f: nat, i: nat, at: nat, piece: Bytes, g: nat)
    requires WellFormed(v, chains) && f < |chains| && i < |chains[f]| && g < |chains| && g != f
    requires 2 <= chains[f][i] < |v.clusters| && at + |piece| <= v.size
    ensures Flat(WriteCluster(v, chains[f][i], at, piece), chains[g]) == Flat(v, chains[g])
  {
    var v' := WriteCluster(v, chains[f][i], at, piece);
    forall j | 0 <= j < |chains[g]| ensures ClusterAt(v', chains[g][j]) == ClusterAt(v, chains[g][j]) {
      assert chains[g][j] != chains[f][i];
    }
    FlatKept(v, v', chains[g]);
  }

  /** How much of `len` bytes fits from `pos` to the end of its cluster. */
  function Chunk(size: nat, pos: nat, len: nat): (n: nat)
    requires size > 0
    ensures n <= len && (len > 0 ==> n > 0) && pos % size + n <= size
  {
    if size - pos % size > len then len else size - pos % size
  }

  /** One round of the write loop of fat32_write_path. */
  function WriteOne(v: Volume, first: nat, pos: nat, piece: Bytes): (r: Option<(Volume, nat)>)
    requires Geometry(v) && first < |v.clusters| && pos % v.size + |piece| <= v.size
    ensures r.Some? ==>
            Geometry(r.value.0) && r.value.1 < |v.clusters| == |r.value.0.clusters| && r.value.0.size == v.size
  {
    var got := ClusterFor(v, first, pos / v.size);
    if got.None? || got.value.2 < 2 then None
    else Some((WriteCluster(got.value.0, got.value.2, pos % v.size, piece), got.value.1))
  }

  /** The write loop of fat32_write_path, at byte `pos` of the file whose chain starts at `first`. */
  function WriteLoop(v: Volume, first: nat, pos: nat, data: Bytes): (r: Option<(Volume, nat)>)
    requires Geometry(v) && first < |v.clusters|
    ensures r.Some? ==>
            Geometry(r.value.0) && r.value.1 < |v.clusters| == |r.value.0.clusters| && r.value.0.size == v.size
    decreases |data|
  {
    if data == [] then Some((v, first))
    else
      var chunk := Chunk(v.size, pos, |data|);
      var one := WriteOne(v, first, pos, data[..chunk]);
      if one.None? then None else WriteLoop(one.value.0, one.value.1, pos + chunk, data[chunk..])
  }

  /** What a write does to the chains and the bytes: chain `f` may have grown, its bytes are the old ones padded with
      zeros and overlaid with `data` at `pos`, and all other files keep theirs. */
  ghost predicate Wrote(v: Volume, chains: seq<seq<nat>>, v': Volume, chains': seq<seq<nat>>, f: nat, pos: nat,
          data: Bytes)
  {
    && WellFormed(v, chains) && WellFormed(v', chains') && f < |chains| == |chains'| && v'.size == v.size
    && chains' == chains[f := chains'[f]] && chains[f] <= chains'[f]
    && |v'.clusters| == |v.clusters| && OnlyFree(v, chains, v', chains', f)
    && (forall g :: 0 <= g < |chains| && g != f ==> Flat(v', chains'[g]) == Flat(v, chains[g]))
    && Overlaid(Flat(v, chains[f]), Flat(v', chains'[f]), pos, data)
  }

  /** `b` is `a`, padded with zeros, with `data` over it at `pos`. */
  ghost predicate Overlaid(a: Bytes, b: Bytes, pos: nat, data: Bytes)
  {
    && |a| <= |b| && (data != [] ==> pos + |data| <= |b|)
    && forall k ::
        0 <= k < |b| ==> b[k] == if pos <= k < pos + |data| then data[k - pos] else if k < |a| then a[k] else 0
  }

  lemma OverlaidOnce(a: Bytes, p: Bytes, at: nat, piece: Bytes)
    requires Padded(a, p) && at + |piece| <= |p|
    ensures Overlaid(a, Spliced(p, at, piece), at, piece)
  {
  }

  lemma OverlaidTwice(a: Bytes, b: Bytes, c: Bytes, pos: nat, data: Bytes, n: nat)
    requires n <= |data| && Overlaid(a, b, pos, data[..n]) && Overlaid(b, c, pos + n, data[n..])
    ensures Overlaid(a, c, pos, data)
  {
  }

  lemma WroteRefl(v: Volume, chains: seq<seq<nat>>, f: nat, pos: nat)
    requires WellFormed(v, chains) && f < |chains|
    ensures Wrote(v, chains, v, chains, f, pos, [])
  {
    hide WellFormed, Flat;
  }

  lemma WroteTrans(v: Volume, chains: seq<seq<nat>>, v1: Volume, chains1: seq<seq<nat>>, v2: Volume,
          chains2: seq<seq<nat>>, f: nat, pos: nat, data: Bytes, n: nat)
    requires n <= |data| && Wrote(v, chains, v1, chains1, f, pos, data[..n])
    requires Wrote(v1, chains1, v2, chains2, f, pos + n, data[n..])
    ensures Wrote(v, chains, v2, chains2, f, pos, data)
  {
    hide WellFormed, Flat, Overlaid, OnlyFree;
    assert chains[f := chains1[f]][f := chains2[f]] == chains[f := chains2[f]];
    OnlyFreeTrans(v, chains, v1, chains1, v2, chains2, f);
    OverlaidTwice(Flat(v, chains[f]), Flat(v1, chains1[f]), Flat(v2, chains2[f]), pos, data, n);
    forall g | 0 <= g < |chains| && g != f ensures Flat(v2, chains2[g]) == Flat(v, chains[g]) {
      assert Flat(v1, chains1[g]) == Flat(v, chains[g]);
    }
  }

  /** One round of the loop. */
  lemma WriteOneWrote(v: Volume, chains: seq<seq<nat>>, f: nat, pos: nat, piece: Bytes) returns (chains': seq<seq<nat>>)
    requires WellFormed(v, chains) && f < |chains| && First(chains[f]) < |v.clusters| && piece != []
    requires pos % v.size + |piece| <= v.size
    requires WriteOne(v, First(chains[f]), pos, piece).Some?
    ensures var (v', first) := WriteOne(v, First(chains[f]), pos, piece).value;
            Wrote(v, chains, v', chains', f, pos, piece) && first == First(chains'[f])
  {
    hide ClusterFor, WellFormed, Flat, Overlaid, Spliced, OnlyFree;
    var index := pos / v.size;
    var (v1, first, c) := ClusterFor(v, First(chains[f]), index).value;
    chains' := ClusterForExtends(v, chains, f, index);
    ChainInRange(v1, chains', f, index);
    Locate(pos, v.size);
    var v' := WriteCluster(v1, c, pos % v.size, piece);
    WriteKeepsForm(v1, chains', c, pos % v.size, piece);
    SpliceOfChain(v1, chains', f, index, pos % v.size, piece);
    ExtendedSelf(v, chains, v1, chains', f);
    OverlaidOnce(Flat(v, chains[f]), Flat(v1, chains'[f]), pos, piece);
    forall g | 0 <= g < |chains| && g != f ensures Flat(v', chains'[g]) == Flat(v, chains[g]) {
      ExtendedOther(v, chains, v1, chains', f, g);
      WriteOther(v1, chains', f, index, pos % v.size, piece, g);
    }
    assert OnlyFree(v, chains, v', chains', f) by { SameFats(v, chains, v1, v', chains', f); }
  }

  lemma SameFats(v: Volume, chains: seq<seq<nat>>, v1: Volume, v': Volume, chains': seq<seq<nat>>, f: nat)
    requires Geometry(v) && Geometry(v1) && Geometry(v') && |v'.clusters| == |v1.clusters| == |v.clusters|
    requires f < |chains| && f < |chains'|
    requires OnlyFree(v, chains, v1, chains', f) && v'.fats == v1.fats
    ensures OnlyFree(v, chains, v', chains', f)
  {
  }

  lemma SpliceOfChain(v: Volume, chains: seq<seq<nat>>, f: nat, i: nat, at: nat, piece: Bytes)
    requires WellFormed(v, chains) && f < |chains| && i < |chains[f]| && 2 <= chains[f][i] < |v.clusters|
    requires at + |piece| <= v.size
    ensures Start(i, v.size) + at + |piece| <= |Flat(v, chains[f])|
    ensures Flat(WriteCluster(v, chains[f][i], at, piece), chains[f])
            == Spliced(Flat(v, chains[f]), Start(i, v.size) + at, piece)
  {
    hide Flat, Spliced;
    var chain := chains[f];
    assert Linked(v, chain);
    forall j | 0 <= j < |chain| && j != i ensures chain[j] != chain[i] {
      assert chains[f][j] == chain[j];
    }
    FlatSplice(v, chain, i, at, piece);
  }

  lemma WriteLoopUnfold(v: Volume, first: nat, pos: nat, data: Bytes)
    requires Geometry(v) && first < |v.clusters|
    ensures data == [] ==> WriteLoop(v, first, pos, data) == Some((v, first))
    ensures data != [] ==>
              var chunk := Chunk(v.size, pos, |data|);
              var one := WriteOne(v, first, pos, data[..chunk]);
              WriteLoop(v, first, pos, data) == if one.None? then None
                  else WriteLoop(one.value.0, one.value.1, pos + chunk, data[chunk..])
  {
    hide WriteOne, Chunk;
  }

  lemma {:induction false} WriteLoopWrote(v: Volume, chains: seq<seq<nat>>, f: nat, pos: nat, data: Bytes)
          returns (chains': seq<seq<nat>>)
    requires WellFormed(v, chains) && f < |chains| && First(chains[f]) < |v.clusters|
    requires WriteLoop(v, First(chains[f]), pos, data).Some?
    ensures var (v', first) := WriteLoop(v, First(chains[f]), pos, data).value;
            Wrote(v, chains, v', chains', f, pos, data) && first == First(chains'[f])
    decreases |data|
  {
    hide WellFormed, WriteLoop, WriteOne, Chunk, Wrote;
    WriteLoopUnfold(v, First(chains[f]), pos, data);
    if data == [] {
      WroteRefl(v, chains, f, pos);
      chains' := chains;
    } else {
      var chunk := Chunk(v.size, pos, |data|);
      var (v1, first1) := WriteOne(v, First(chains[f]), pos, data[..chunk]).value;
      var chains1 := WriteOneWrote(v, chains, f, pos, data[..chunk]);
      WroteForms(v, chains, v1, chains1, f, pos, data[..chunk]);
      chains' := WriteLoopWrote(v1, chains1, f, pos + chunk, data[chunk..]);
      WroteTrans(v, chains, v1, chains1, WriteLoop(v1, first1, pos + chunk, data[chunk..]).value.0, chains', f, pos,
          data, chunk);
    }
  }

  lemma WroteForms(v: Volume, chains: seq<seq<nat>>, v': Volume, chains': seq<seq<nat>>, f: nat, pos: nat, data: Bytes)
    requires Wrote(v, chains, v', chains', f, pos, data)
    ensures WellFormed(v', chains') && f < |chains'| && v'.size == v.size
  {
  }

  // Reading

  /** fat32_next_cluster, `steps` times, without allocation. */
  function Seek(v: Volume, c: nat, steps: nat): (r: Option<nat>)
    requires Geometry(v) && c < |v.clusters|
    ensures r.Some? ==> r.value < |v.clusters|
    decreases steps
  {
    if steps == 0 then Some(c)
    else
      var next := v.fats[0][c];
      if next == BAD || IsEoc(next) || next >= |v.clusters| then None else Seek(v, next, steps - 1)
  }

  /** The read loop from byte `intra` of cluster `c` on. */
  function ReadLoop(v: Volume, c: nat, intra: nat, len: nat): (r: Option<Bytes>)
    requires Geometry(v) && c < |v.clusters| && intra < v.size
    decreases len
  {
    if len == 0 then Some([])
    else
      var chunk := if v.size - intra > len then len else v.size - intra;
      if c < 2 then None
      else
        var piece := v.clusters[c][intra..intra + chunk];
        if chunk == len then Some(piece)
        else
          var next := v.fats[0][c];
          if next == BAD || IsEoc(next) || next >= |v.clusters| then None
          else
            var rest := ReadLoop(v, next, 0, len - chunk);
            if rest.None? then None else Some(piece + rest.value)
  }

  /** fat32_read_node. */
  function ReadNode(v: Volume, first: nat, fileSize: nat, offset: nat, length: nat): (r: Option<Bytes>)
    requires Geometry(v) && first < |v.clusters|
  {
    if offset >= fileSize then Some([])
    else
      var len := if offset + length > fileSize then fileSize - offset else length;
      var c := Seek(v, first, offset / v.size);
      if c.None? then None else ReadLoop(v, c.value, offset % v.size, len)
  }

  lemma {:induction false} SeekChain(v: Volume, chains: seq<seq<nat>>, f: nat, i: nat, steps: nat)
    requires WellFormed(v, chains) && f < |chains| && i + steps < |chains[f]| && chains[f][i] < |v.clusters|
    ensures Seek(v, chains[f][i], steps) == Some(chains[f][i + steps])
    decreases steps
  {
    hide WellFormed;
    if steps > 0 {
      ChainInRange(v, chains, f, i);
      ChainInRange(v, chains, f, i + 1);
      SeekChain(v, chains, f, i + 1, steps - 1);
    }
  }

  lemma {:induction false} FlatAt(v: Volume, chain: seq<nat>, i: nat)
    requires i < |chain| && forall j :: 0 <= j < |chain| ==> |ClusterAt(v, chain[j])| == v.size
    ensures Start(i, v.size) <= |Flat(v, chain)| && Flat(v, chain)[Start(i, v.size)..] == Flat(v, chain[i..])
    decreases i
  {
    if i > 0 {
      FlatAt(v, chain[1..], i - 1);
      assert chain[1..][i - 1..] == chain[i..];
      var head, rest := ClusterAt(v, chain[0]), Flat(v, chain[1..]);
      assert (head + rest)[v.size + Start(i - 1, v.size)..] == rest[Start(i - 1, v.size)..];
    } else {
      assert chain[0..] == chain;
    }
  }

  /** Reading on from cluster `i` of a chain gives the file's bytes from there. */
  lemma {:induction false} ReadChain(v: Volume, chains: seq<seq<nat>>, f: nat, i: nat, intra: nat, len: nat)
    requires WellFormed(v, chains) && f < |chains| && i < |chains[f]| && chains[f][i] < |v.clusters| && intra < v.size
    requires intra + len <= |Flat(v, chains[f][i..])|
    ensures ReadLoop(v, chains[f][i], intra, len) == Some(Flat(v, chains[f][i..])[intra..intra + len])
    decreases len
  {
    hide WellFormed;
    ChainInRange(v, chains, f, i);
    var chain := chains[f];
    var head, rest := v.clusters[chain[i]], Flat(v, chain[i + 1..]);
    assert chain[i..][1..] == chain[i + 1..];
    assert Flat(v, chain[i..]) == head + rest;
    if len > 0 {
      var chunk := if v.size - intra > len then len else v.size - intra;
      if chunk == len {
        assert (head + rest)[intra..intra + len] == head[intra..intra + len];
      } else {
        assert rest != [];
        assert i + 1 < |chain|;
        ChainInRange(v, chains, f, i + 1);
        ReadChain(v, chains, f, i + 1, 0, len - chunk);
        assert (head + rest)[intra..intra + len] == head[intra..intra + chunk] + rest[0..len - chunk];
      }
    } else {
      assert (head + rest)[intra..intra + len] == [];
    }
  }

  // Main results

  /** Chain and size of a file belong together. */
  ghost predicate Holds(v: Volume, chains: seq<seq<nat>>, f: nat, size: nat)
  {
    WellFormed(v, chains) && f < |chains| && size <= |Flat(v, chains[f])|
  }

  function FileBytes(v: Volume, chain: seq<nat>, size: nat): (r: Bytes)
  {
    if size <= |Flat(v, chain)| then Flat(v, chain)[..size] else []
  }

  /** `data` over `prior` at `offset`, growing it if need be. */
  function Overlay(prior: Bytes, offset: nat, data: Bytes): (r: Bytes)
    requires offset <= |prior|
    ensures |r| == if offset + |data| > |prior| then offset + |data| else |prior|
    ensures forall k :: 0 <= k < |r| ==> r[k] == if offset <= k < offset + |data| then data[k - offset] else prior[k]
  {
    prior[..offset] + data + (if offset + |data| < |prior| then prior[offset + |data|..] else [])
  }

  lemma OverlayOf(a: Bytes, b: Bytes, size: nat, offset: nat, data: Bytes)
    requires Overlaid(a, b, offset, data) && offset <= size <= |a|
    ensures var n := if offset + |data| > size then offset + |data| else size;
            n <= |b| && b[..n] == Overlay(a[..size], offset, data)
  {
    var n := if offset + |data| > size then offset + |data| else size;
    var x, y := b[..n], Overlay(a[..size], offset, data);
    forall k | 0 <= k < n ensures x[k] == y[k] {
    }
    assert x == y;
  }

  /** FAT chains: a successful write at an offset inside the file extends its chain only by clusters that were free,
      keeps all chains acyclic, terminated and disjoint and all copies of the table equal, splices exactly the given
      bytes into that file and leaves the bytes of every other file alone. */
  lemma WriteSplicesFile(v: Volume, chains: seq<seq<nat>>, f: nat, size: nat, offset: nat, data: Bytes)
    requires Holds(v, chains, f, size) && offset <= size && First(chains[f]) < |v.clusters|
    requires WriteLoop(v, First(chains[f]), offset, data).Some?
    ensures var (v', first) := WriteLoop(v, First(chains[f]), offset, data).value;
            var size' := if offset + |data| > size then offset + |data| else size;
            exists chains' ::
              && WellFormed(v', chains') && |chains'| == |chains| && chains' == chains[f := chains'[f]]
                  && chains[f] <= chains'[f]
              && first == First(chains'[f]) && |v'.clusters| == |v.clusters| && OnlyFree(v, chains, v', chains', f)
              && Holds(v', chains', f, size') && FileBytes(v', chains'[f], size')
                  == Overlay(FileBytes(v, chains[f], size), offset, data)
              && forall g :: 0 <= g < |chains| && g != f ==> Flat(v', chains'[g]) == Flat(v, chains[g])
  {
    hide WellFormed, WriteLoop, Flat, Overlaid, Overlay, OnlyFree;
    var chains' := WriteLoopWrote(v, chains, f, offset, data);
    var v' := WriteLoop(v, First(chains[f]), offset, data).value.0;
    OverlayOf(Flat(v, chains[f]), Flat(v', chains'[f]), size, offset, data);
    var size' := if offset + |data| > size then offset + |data| else size;
    assert FileBytes(v', chains'[f], size') == Overlay(FileBytes(v, chains[f], size), offset, data);
    assert Holds(v', chains', f, size');
  }

  /** Seeking to a byte of the file and reading on from it. */
  lemma ReadAt(v: Volume, chains: seq<seq<nat>>, f: nat, offset: nat, len: nat)
    requires WellFormed(v, chains) && f < |chains| && First(chains[f]) < |v.clusters| && offset < |Flat(v, chains[f])|
    requires offset + len <= |Flat(v, chains[f])|
    ensures var c := Seek(v, First(chains[f]), offset / v.size);
            c.Some? && ReadLoop(v, c.value, offset % v.size, len) == Some(Flat(v, chains[f])[offset..offset + len])
  {
    hide WellFormed, Flat, Seek, ReadLoop;
    var chain, i, at := chains[f], offset / v.size, offset % v.size;
    forall j | 0 <= j < |chain| ensures |ClusterAt(v, chain[j])| == v.size {
      ChainInRange(v, chains, f, j);
    }
    FlatSize(v, chain);
    Locate(offset, v.size);
    NotEmpty(v, chain);
    StartBelow(i, |chain|, v.size, at);
    SeekChain(v, chains, f, 0, i);
    FlatAt(v, chain, i);
    var all, part := Flat(v, chain), Flat(v, chain[i..]);
    ReadChain(v, chains, f, i, at, len);
    SliceOf(all, Start(i, v.size), at, len);
  }

  lemma SliceOf(all: Bytes, start: nat, at: nat, len: nat)
    requires start + at + len <= |all|
    ensures all[start..][at..at + len] == all[start + at..start + at + len]
  {
  }

  /** Reading returns the bytes of the file, cut at its end. */
  lemma ReadReturnsFile(v: Volume, chains: seq<seq<nat>>, f: nat, size: nat, offset: nat, length: nat)
    requires Holds(v, chains, f, size) && First(chains[f]) < |v.clusters|
    ensures var end := if offset + length > size then size else offset + length;
            ReadNode(v, First(chains[f]), size, offset, length) ==
              if offset >= size then Some([]) else Some(FileBytes(v, chains[f], size)[offset..end])
  {
    hide WellFormed, Flat, Seek, ReadLoop;
    if offset < size {
      var end := if offset + length > size then size else offset + length;
      ReadAt(v, chains, f, offset, end - offset);
      var all := Flat(v, chains[f]);
      assert all[..size][offset..end] == all[offset..end];
    }
  }

  lemma NotEmpty(v: Volume, chain: seq<nat>)
    requires |Flat(v, chain)| > 0
    ensures chain != []
  {
  }

  /** A position before the end lies in one of the clusters. */
  lemma {:induction false} StartBelow(i: nat, n: nat, size: nat, at: nat)
    requires Start(i, size) + at < Start(n, size)
    ensures i < n
    decreases n
  {
    if n > 0 && i > 0 {
      StartBelow(i - 1, n - 1, size, at);
    }
  }
}
