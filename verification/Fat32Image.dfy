/** The loops of kernel/fat32.c over the mounted image. */
module Fat32Image {
  import opened Options
  import opened LittleEndian
  import opened Fat32

  class Image {
    var fats: seq<seq<nat>>
    var clusters: seq<Bytes>
    const size: nat

    function State(): (r: Volume)
      reads this
    {
      Volume(fats, clusters, size)
    }

    constructor (v: Volume)
      ensures State() == v
    {
      fats, clusters, size := v.fats, v.clusters, v.size;
    }

    /** fat32_set_cluster: one copy of the table after the other. */
    method SetEntry(c: nat, value: nat)
      requires Geometry(State()) && c < |clusters|
      modifies this`fats
      ensures State() == SetCluster(old(State()), c, value)
    {
      var t := 0;
      while t < |fats|
        invariant 0 <= t <= |fats| == |old(fats)|
        invariant forall k :: 0 <= k < t ==> fats[k] == old(fats)[k][c := value]
        invariant forall k :: t <= k < |fats| ==> fats[k] == old(fats)[k]
      {
        var table: seq<nat> := fats[t][c := value];
        fats := fats[t := table];
        t := t + 1;
      }
      assert fats == SetCluster(old(State()), c, value).fats;
    }

    /** fat32_find_free_cluster; the number of clusters when none is free. */
    method FindFreeCluster() returns (c: nat)
      requires Geometry(State())
      ensures c == FindFree(State(), 2)
    {
      c := 2;
      while c < |clusters|
        invariant 2 <= c <= |clusters| && FindFree(State(), 2) == FindFree(State(), c)
      {
        if fats[0][c] == 0 { return; }
        c := c + 1;
      }
    }

    method AllocateCluster(last: nat) returns (ok: bool, c: nat)
      requires Geometry(State()) && last < |clusters|
      modifies this
      ensures var r := Allocate(old(State()), last);
              ok == r.Some? && State() == (if ok then r.value.0 else old(State())) && (ok ==> c == r.value.1)
    {
      hide FindFree, SetCluster, Zeros;
      c := FindFreeCluster();
      if c == |clusters| { return false, 0; }
      if last != 0 { SetEntry(last, c); }
      SetEntry(c, EOC);
      clusters := clusters[c := Zeros(size)];
      ok := true;
    }

    /** fat32_get_cluster_for_offset with allocation. */
    method GetClusterForOffset(first: nat, index: nat) returns (ok: bool, newFirst: nat, c: nat)
      requires Geometry(State()) && first < |clusters|
      modifies this
      ensures var r := ClusterFor(old(State()), first, index);
              ok == r.Some? && (ok ==> (State(), newFirst, c) == r.value) && Geometry(State())
    {
      hide Allocate;
      newFirst, c := first, first;
      if c == 0 {
        ok, c := AllocateCluster(0);
        if !ok { return; }
        newFirst := c;
      }
      ghost var v0, c0 := State(), c;
      var steps: nat := index;
      while steps > 0
        invariant 0 <= steps <= index && Geometry(State()) && 0 < c < |clusters|
        invariant Walk(v0, c0, index) == Walk(State(), c, steps)
      {
        var next := fats[0][c];
        if next == BAD { return false, 0, 0; }
        if IsEoc(next) {
          ok, next := AllocateCluster(c);
          if !ok { return; }
        } else if next == 0 || next >= |clusters| {
          return false, 0, 0;
        }
        c, steps := next, steps - 1;
      }
      ok := true;
    }

    /** The write loop of fat32_write_path. */
    method WriteFile(first: nat, offset: nat, data: Bytes) returns (ok: bool, newFirst: nat)
      requires Geometry(State()) && first < |clusters|
      modifies this
      ensures var r := WriteLoop(old(State()), first, offset, data);
              ok == r.Some? && (ok ==> (State(), newFirst) == r.value)
    {
      hide WriteLoop, ClusterFor, Chunk, Spliced;
      newFirst := first;
      var pos: nat, rest := offset, data;
      while |rest| > 0
        invariant Geometry(State()) && newFirst < |clusters|
        invariant WriteLoop(old(State()), first, offset, data) == WriteLoop(State(), newFirst, pos, rest)
        decreases |rest|
      {
        WriteLoopUnfold(State(), newFirst, pos, rest);
        var chunk := Chunk(size, pos, |rest|);
        var c;
        ok, newFirst, c := GetClusterForOffset(newFirst, pos / size);
        if !ok || c < 2 { return false, 0; }
        clusters := clusters[c := Spliced(clusters[c], pos % size, rest[..chunk])];
        pos, rest := pos + chunk, rest[chunk..];
      }
      WriteLoopUnfold(State(), newFirst, pos, rest);
      ok := true;
    }

    /** fat32_read_node. */
    method ReadFile(first: nat, fileSize: nat, offset: nat, length: nat) returns (r: Option<Bytes>)
      requires Geometry(State()) && first < |clusters|
      ensures r == ReadNode(State(), first, fileSize, offset, length)
    {
      if offset >= fileSize { return Some([]); }
      var len := if offset + length > fileSize then fileSize - offset else length;
      var c: nat, steps: nat := first, offset / size;
      while steps > 0
        invariant 0 <= steps && c < |clusters| && Seek(State(), first, offset / size) == Seek(State(), c, steps)
      {
        var next := fats[0][c];
        if next == BAD || IsEoc(next) || next >= |clusters| { return None; }
        c, steps := next, steps - 1;
      }
      r := ReadFrom(c, offset % size, len);
    }

    method ReadFrom(start: nat, at: nat, length: nat) returns (r: Option<Bytes>)
      requires Geometry(State()) && start < |clusters| && at < size
      ensures r == ReadLoop(State(), start, at, length)
    {
      var c: nat, intra: nat, remaining: nat := start, at, length;
      var buffer: Bytes := [];
      ghost var whole := ReadLoop(State(), start, at, length);
      while remaining > 0
        invariant 0 <= remaining && c < |clusters| && intra < size
        invariant var rest := ReadLoop(State(), c, intra, remaining);
                  whole.Some? == rest.Some? && (rest.Some? ==> whole.value == buffer + rest.value)
        decreases remaining
      {
        var chunk := size - intra;
        if chunk > remaining { chunk := remaining; }
        if c < 2 { return None; }
        buffer := buffer + clusters[c][intra..intra + chunk];
        if chunk == remaining { return Some(buffer); }
        var next := fats[0][c];
        if next == BAD || IsEoc(next) || next >= |clusters| { return None; }
        c, intra, remaining := next, 0, remaining - chunk;
      }
      assert whole.value == buffer;
      r := Some(buffer);
    }
  }
}
