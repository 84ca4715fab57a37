/** Paths of the shards of a generation (src/streaming/sink.cpp, construct_data_paths). */
module DataPaths {
  import opened Arith
  import opened Lattice
  import opened Tiling
  import opened Grid
  import opened Dimensions
  import opened ShardTables

  // ----- Numbers as text -----------------------------------------------------------------------------

  function Digit(d: nat): char
    requires d < 10
  {
    ('0' as int + d) as char
  }

  function ToDecimal(n: nat): string {
    if n < 10 then [Digit(n)] else ToDecimal(n / 10) + [Digit(n % 10)]
  }

  function FromDecimal(s: string): nat {
    if s == "" then 0
    else
      var c := s[|s| - 1] as int - '0' as int;
      FromDecimal(s[..|s| - 1]) * 10 + if c >= 0 then c else 0
  }

  lemma FromDecimalSnoc(s: string, d: nat)
    requires d < 10
    ensures FromDecimal(s + [Digit(d)]) == FromDecimal(s) * 10 + d
  {
    assert (s + [Digit(d)])[..|s|] == s;
  }

  lemma {:induction false} DecimalRoundTrip(n: nat)
    ensures FromDecimal(ToDecimal(n)) == n && '/' !in ToDecimal(n)
  {
    if n >= 10 {
      DecimalRoundTrip(n / 10);
      FromDecimalSnoc(ToDecimal(n / 10), n % 10);
    } else {
      FromDecimalSnoc("", n);
      assert "" + [Digit(n)] == [Digit(n)];
    }
  }

  // ----- Paths -----------------------------------------------------------------------------------------

  /** One component more; the first one under an empty base takes no slash. */
  function Join(path: string, k: nat): string {
    path + (if path == "" then ToDecimal(k) else "/" + ToDecimal(k))
  }

  /** The path of a shard coordinate: one component for each axis. */
  function Render(base: string, c: seq<nat>): string {
    if c == [] then base else Join(Render(base, c[..|c| - 1]), c[|c| - 1])
  }

  /** Where the last component of a path begins. */
  function LastSlash(s: string): nat {
    if s == "" then 0 else if s[|s| - 1] == '/' then |s| - 1 else LastSlash(s[..|s| - 1])
  }

  lemma {:induction false} LastSlashOf(p: string, a: string)
    requires '/' !in a
    ensures LastSlash(p + "/" + a) == |p|
    decreases |a|
  {
    var s := p + "/" + a;
    if a != "" {
      assert s[..|s| - 1] == p + "/" + a[..|a| - 1];
      LastSlashOf(p, a[..|a| - 1]);
    }
  }

  /** Different components give different paths. */
  lemma JoinInjective(p: string, j: nat, q: string, k: nat)
    requires p != "" && q != "" && Join(p, j) == Join(q, k)
    ensures p == q && j == k
  {
    DecimalRoundTrip(j);
    DecimalRoundTrip(k);
    var s := Join(p, j);
    assert s == p + "/" + ToDecimal(j) && s == q + "/" + ToDecimal(k);
    LastSlashOf(p, ToDecimal(j));
    LastSlashOf(q, ToDecimal(k));
    assert s[..|p|] == p && s[..|q|] == q;
    assert s[|p| + 1..] == ToDecimal(j) && s[|q| + 1..] == ToDecimal(k);
  }

  lemma {:induction false} RenderInjective(base: string, c: seq<nat>, d: seq<nat>)
    requires base != "" && |c| == |d| && Render(base, c) == Render(base, d)
    ensures c == d && Render(base, c) != ""
  {
    if c != [] {
      var m := |c| - 1;
      RenderNonempty(base, c[..m]);
      RenderNonempty(base, d[..m]);
      JoinInjective(Render(base, c[..m]), c[m], Render(base, d[..m]), d[m]);
      RenderInjective(base, c[..m], d[..m]);
      assert c == c[..m] + [c[m]] && d == d[..m] + [d[m]];
    }
  }

  lemma {:induction false} RenderNonempty(base: string, c: seq<nat>)
    requires base != ""
    ensures Render(base, c) != ""
  {
    if c != [] {
      RenderNonempty(base, c[..|c| - 1]);
    }
  }

  // ----- All paths, breadth first ------------------------------------------------------------------------

  /** Each path with each of `n` components. */
  function Expand(paths: seq<string>, n: nat): (r: seq<string>)
    ensures |r| == |paths| * n
  {
    if paths == [] then []
    else
      var m := |paths| - 1;
      assert |paths| * n == m * n + n;
      Expand(paths[..m], n) + seq(n, k requires k >= 0 => Join(paths[m], k))
  }

  lemma {:induction false} ExpandAt(paths: seq<string>, n: nat, i: nat)
    requires n > 0 && i < |Expand(paths, n)|
    ensures Row(i, n) < |paths| && Expand(paths, n)[i] == Join(paths[Row(i, n)], Col(i, n))
  {
    var m := |paths| - 1;
    RowBound(i, |paths|, n);
    assert |paths| * n == m * n + n;
    if i < m * n {
      ExpandAt(paths[..m], n, i);
    } else {
      RowRange(i, m, n, m * n);
    }
  }

  /** All paths under the base for a lattice of shards, in the order of the program's queue. */
  function AllPaths(base: string, shape: seq<nat>): seq<string> {
    if shape == [] then [base] else Expand(AllPaths(base, shape[..|shape| - 1]), shape[|shape| - 1])
  }

  lemma {:induction false} AllPathsSize(base: string, shape: seq<nat>)
    ensures |AllPaths(base, shape)| == Size(shape)
  {
    if shape != [] {
      var m := |shape| - 1;
      AllPathsSize(base, shape[..m]);
      SizeSnoc(shape, m);
      assert shape[..m + 1] == shape;
    }
  }

  lemma UnrankSnoc(i: nat, shape: seq<nat>, n: nat)
    requires AllPositive(shape) && n > 0
    ensures |shape| > 0 ==> AllPositive((shape + [n])[1..]) && AllPositive(shape[1..])
    ensures shape == [] ==> AllPositive((shape + [n])[1..])
    ensures i < Size(shape + [n]) ==> Unrank(i, shape + [n]) == Unrank(Row(i, n), shape) + [Col(i, n)]
  {
    var s, m := shape + [n], |shape|;
    if i < Size(s) {
      SizeSnoc(s, m);
      assert s[..m + 1] == s && s[..m] == shape;
      RowBound(i, Size(shape), n);
      var c := Unrank(Row(i, n), shape) + [Col(i, n)];
      if m > 0 {
        RankUnrank(Row(i, n), shape);
      }
      RankSplit(c, s, m);
      assert c[..m] == Unrank(Row(i, n), shape) && c[m..] == [Col(i, n)] && s[m..] == [n];
      LastDigit(Col(i, n), n);
      UnrankRank(c, s);
    }
  }

  lemma LastDigit(r: nat, n: nat)
    ensures Rank([r], [n]) == r && Size([n]) == n
  {
    assert [r][1..] == [] && [n][1..] == [];
    assert Size([]) == 1;
    assert Rank([r], [n]) == r * Size([]) + Rank([], []);
    assert Size([n]) == n * Size([]);
  }

  /** Breadth-first order is row-major order. */
  lemma {:induction false} PathsAreRanked(base: string, shape: seq<nat>, i: nat)
    requires AllPositive(shape) && i < Size(shape)
    ensures |AllPaths(base, shape)| == Size(shape)
    ensures |shape| > 0 ==> AllPositive(shape[1..])
    ensures AllPaths(base, shape)[i] == Render(base, Unrank(i, shape))
  {
    AllPathsSize(base, shape);
    if shape != [] {
      var m := |shape| - 1;
      assert shape == shape[..m] + [shape[m]];
      RowOfPath(shape, m, i);
      PathsAreRanked(base, shape[..m], Row(i, shape[m]));
      PathStep(base, shape[..m], shape[m], shape, i);
    }
  }

  lemma RowOfPath(shape: seq<nat>, m: nat, i: nat)
    requires AllPositive(shape) && m + 1 == |shape| && i < Size(shape)
    ensures Row(i, shape[m]) < Size(shape[..m])
  {
    SizeSnoc(shape, m);
    assert shape[..m + 1] == shape;
    RowBound(i, Size(shape[..m]), shape[m]);
  }

  lemma PathStep(base: string, init: seq<nat>, n: nat, shape: seq<nat>, i: nat)
    requires shape == init + [n] && AllPositive(shape) && AllPositive(init) && n > 0 && i < Size(shape)
    requires |init| > 0 ==> AllPositive(init[1..])
    requires Row(i, n) < |AllPaths(base, init)| && |AllPaths(base, shape)| == Size(shape)
    requires AllPaths(base, init)[Row(i, n)] == Render(base, Unrank(Row(i, n), init))
    ensures AllPositive(shape[1..]) && AllPaths(base, shape)[i] == Render(base, Unrank(i, shape))
  {
    var m := |init|;
    assert shape[..m] == init;
    ExpandAt(AllPaths(base, init), n, i);
    UnrankSnoc(i, init, n);
    var c := Unrank(i, shape);
    assert c[..m] == Unrank(Row(i, n), init) && c[m] == Col(i, n);
  }

  /** One axis: every path in the queue is popped, and pushed again with each component. */
  method ExpandQueue(queue: seq<string>, nParts: nat) returns (r: seq<string>)
    ensures r == Expand(queue, nParts)
  {
    r := queue;
    var nPaths := |queue|;
    for j := 0 to nPaths
      invariant r == queue[j..] + Expand(queue[..j], nParts)
    {
      var path := r[0];
      r := r[1..];
      ghost var before := r;
      for k := 0 to nParts
        invariant r == before + seq(k, i requires i >= 0 => Join(path, i))
      {
        r := r + [Join(path, k)];
      }
      assert queue[..j + 1][..j] == queue[..j];
      assert queue[j..][1..] == queue[j + 1..];
    }
    assert queue[..nPaths] == queue;
  }

  lemma NextPaths(base: string, shape: seq<nat>, i: nat)
    requires i < |shape|
    ensures AllPaths(base, shape[..i + 1]) == Expand(AllPaths(base, shape[..i]), shape[i])
  {
    assert shape[..i + 1][..i] == shape[..i];
  }

  method ConstructDataPaths(base: string, dims: seq<Dim>) returns (paths: seq<string>)
    requires ValidDims(dims)
    ensures paths == AllPaths(base, ShardCounts(dims)[1..])
  {
    ghost var shape := ShardCounts(dims)[1..];
    paths := [base];
    for i := 1 to |dims|
      invariant paths == AllPaths(base, shape[..i - 1])
    {
      paths := ExpandQueue(paths, CeilDiv(CeilDiv(dims[i].size, dims[i].chunk), dims[i].shard));
      NextPaths(base, shape, i - 1);
    }
    assert shape[..|shape|] == shape;
  }

  /** The path at a rank is the path of the coordinate ranked. */
  lemma PathAtRank(base: string, shape: seq<nat>, c: seq<nat>)
    requires InBox(c, shape)
    ensures Rank(c, shape) < |AllPaths(base, shape)|
    ensures AllPaths(base, shape)[Rank(c, shape)] == Render(base, c)
  {
    RankBound(c, shape);
    PathsAreRanked(base, shape, Rank(c, shape));
    UnrankRank(c, shape);
  }

  /** Shard coordinate, within a generation, of a chunk. */
  function ShardCoord(dims: seq<Dim>, q: seq<nat>): seq<nat>
    requires ValidDims(dims) && |q| == |dims|
  {
    GridPositive(dims);
    Quotients(q, ShardSizes(dims))[1..]
  }

  /** The path of the shard a chunk belongs to: its components are the chunk's indices over the shard's size. */
  lemma ShardPath(base: string, dims: seq<Dim>, q: seq<nat>)
    requires ValidDims(dims) && InTail(q, ChunkCounts(dims))
    ensures ShardOf(dims, q) < |AllPaths(base, ShardCounts(dims)[1..])|
    ensures AllPaths(base, ShardCounts(dims)[1..])[ShardOf(dims, q)] == Render(base, ShardCoord(dims, q))
    ensures forall i :: 0 <= i < |dims| - 1 ==> ShardCoord(dims, q)[i] == q[i + 1] / dims[i + 1].shard
  {
    ShardCoordInBox(dims, q);
    PathAtRank(base, ShardCounts(dims)[1..], ShardCoord(dims, q));
    forall i | 0 <= i < |dims| - 1 ensures ShardCoord(dims, q)[i] == q[i + 1] / dims[i + 1].shard {
      RowColDiv(q[i + 1], dims[i + 1].shard);
    }
  }

  lemma ShardCoordInBox(dims: seq<Dim>, q: seq<nat>)
    requires ValidDims(dims) && InTail(q, ChunkCounts(dims))
    ensures InBox(ShardCoord(dims, q), ShardCounts(dims)[1..])
  {
    GridPositive(dims);
    QuotientsInCounts(q, ChunkCounts(dims), ShardSizes(dims));
    TailInBox(Quotients(q, ShardSizes(dims)), ShardCounts(dims));
  }

  lemma TailInBox(c: seq<nat>, shape: seq<nat>)
    requires |c| > 0 && InTail(c, shape)
    ensures InBox(c[1..], shape[1..])
  {
  }

  // ----- All generations ---------------------------------------------------------------------------------

  /** Where the shards of a generation are: the append index comes first, except for a two-dimensional array. */
  function Root(node: string, twoD: bool, gen: nat): (root: string)
    ensures root != ""
  {
    if twoD then node + "/c" else Join(node + "/c", gen)
  }

  /** A component under the base is the first component of the coordinate. */
  lemma {:induction false} RenderUnder(base: string, k: nat, c: seq<nat>)
    ensures Render(Join(base, k), c) == Render(base, [k] + c)
  {
    if c == [] {
      assert ([k] + c)[..0] == [];
      assert Render(base, [k]) == Join(Render(base, []), k);
    } else {
      RenderUnder(base, k, c[..|c| - 1]);
      assert ([k] + c)[..|c|] == [k] + c[..|c| - 1];
    }
  }

  /** Paths of different generations or coordinates differ. */
  lemma RootedInjective(node: string, twoD: bool, gen: nat, c: seq<nat>, gen': nat, c': seq<nat>)
    requires |c| == |c'| && (twoD ==> gen == gen') && Render(Root(node, twoD, gen), c) == Render(Root(node, twoD, gen'), c')
    ensures gen == gen' && c == c'
  {
    if twoD {
      RenderInjective(node + "/c", c, c');
    } else {
      RenderUnder(node + "/c", gen, c);
      RenderUnder(node + "/c", gen', c');
      RenderInjective(node + "/c", [gen] + c, [gen'] + c');
      assert ([gen] + c)[0] == gen && ([gen] + c)[1..] == c && ([gen'] + c')[1..] == c';
    }
  }

  /** The file of a chunk, by its coordinate in the whole array. */
  function ChunkPath(node: string, twoD: bool, dims: seq<Dim>, q: seq<nat>): string
    requires ValidDims(dims) && |q| == |dims|
  {
    Render(Root(node, twoD, Row(q[0], dims[0].shard)), ShardCoord(dims, q))
  }

  /** The path the program has for shard `s` of a generation. */
  function ShardFile(node: string, twoD: bool, dims: seq<Dim>, gen: nat, s: nat): string
    requires ValidDims(dims)
  {
    var paths := AllPaths(Root(node, twoD, gen), ShardCounts(dims)[1..]);
    if s < |paths| then paths[s] else ""
  }

  /** A chunk relative to its generation is on the same shard, in the same place of the other axes. */
  lemma Relative(dims: seq<Dim>, q: seq<nat>)
    requires ValidDims(dims) && InTail(q, ChunkCounts(dims))
    ensures var q' := InGeneration(dims, q);
            && InTail(q', ChunkCounts(dims)) && q'[0] == Col(q[0], dims[0].shard) < dims[0].shard && q'[1..] == q[1..]
            && ShardCoord(dims, q') == ShardCoord(dims, q)
  {
    GridPositive(dims);
    assert InGeneration(dims, q)[1..] == q[1..];
    QuotientTail(q, [0] + q[1..], ShardSizes(dims));
    QuotientTail(InGeneration(dims, q), [0] + q[1..], ShardSizes(dims));
  }

  /** A slash and a decimal numeral for each number. */
  function Components(c: seq<nat>): string {
    if c == [] then "" else "/" + ToDecimal(c[0]) + Components(c[1..])
  }

  lemma {:induction false} ComponentsSnoc(c: seq<nat>, k: nat)
    ensures Components(c + [k]) == Components(c) + "/" + ToDecimal(k)
  {
    if c == [] {
      assert ([] + [k])[1..] == [];
    } else {
      ComponentsSnoc(c[1..], k);
      assert (c + [k])[1..] == c[1..] + [k] && (c + [k])[0] == c[0];
    }
  }

  lemma Regrouped(a: string, b: string, c: string)
    ensures a + b + ("/" + c) == a + (b + "/" + c)
  {
  }

  /** All ten digits. */
  lemma Decimals()
    ensures ToDecimal(0) == "0" && ToDecimal(1357) == "1357" && ToDecimal(9864) == "9864" && ToDecimal(20) == "20"
  {
    assert ToDecimal(1) == "1" && ToDecimal(13) == "13" && ToDecimal(135) == "135";
    assert ToDecimal(9) == "9" && ToDecimal(98) == "98" && ToDecimal(986) == "986";
  }

  lemma {:induction false} RenderIs(base: string, c: seq<nat>)
    requires base != ""
    ensures Render(base, c) == base + Components(c)
  {
    if c != [] {
      var last := |c| - 1;
      RenderIs(base, c[..last]);
      ComponentsSnoc(c[..last], c[last]);
      assert c[..last] + [c[last]] == c;
      Regrouped(base, Components(c[..last]), ToDecimal(c[last]));
    }
  }

  /** The path of a chunk's file, in full: the node, "c", the generation unless there are only two axes, and on each other axis its shard. */
  lemma ChunkPathIs(node: string, twoD: bool, dims: seq<Dim>, q: seq<nat>)
    requires ValidDims(dims) && InTail(q, ChunkCounts(dims))
    ensures ChunkPath(node, twoD, dims, q)
            == node + "/c" + Components((if twoD then [] else [Row(q[0], dims[0].shard)]) + ShardCoord(dims, q))
  {
    var gen, c := Row(q[0], dims[0].shard), ShardCoord(dims, q);
    if twoD {
      assert [] + c == c;
      RenderIs(node + "/c", c);
    } else {
      RenderUnder(node + "/c", gen, c);
      RenderIs(node + "/c", [gen] + c);
    }
  }

  /** They agree. */
  lemma ChunkInFile(node: string, twoD: bool, dims: seq<Dim>, q: seq<nat>)
    requires ValidDims(dims) && InTail(q, ChunkCounts(dims))
    ensures ShardFile(node, twoD, dims, Row(q[0], dims[0].shard), ShardOf(dims, InGeneration(dims, q)))
            == ChunkPath(node, twoD, dims, q)
  {
    Relative(dims, q);
    FileOfShard(Root(node, twoD, Row(q[0], dims[0].shard)), dims, InGeneration(dims, q), ShardCoord(dims, q));
  }

  lemma FileOfShard(root: string, dims: seq<Dim>, q: seq<nat>, c: seq<nat>)
    requires ValidDims(dims) && InTail(q, ChunkCounts(dims)) && c == ShardCoord(dims, q)
    ensures var paths, s := AllPaths(root, ShardCounts(dims)[1..]), ShardOf(dims, q); s < |paths| && paths[s] == Render(root, c)
  {
    ShardPath(root, dims, q);
  }

  /** Two chunks of an array with the same path and index entry are the same chunk; with two axes, there is one layer. */
  lemma PlacementInjective(node: string, twoD: bool, dims: seq<Dim>, q: seq<nat>, q': seq<nat>)
    requires ValidDims(dims) && InTail(q, ChunkCounts(dims)) && InTail(q', ChunkCounts(dims))
    requires twoD ==> q[0] == q'[0] == 0
    requires ChunkPath(node, twoD, dims, q) == ChunkPath(node, twoD, dims, q')
    requires InternalOf(dims, InGeneration(dims, q)) == InternalOf(dims, InGeneration(dims, q'))
    ensures q == q'
  {
    RootedInjective(node, twoD, Row(q[0], dims[0].shard), ShardCoord(dims, q), Row(q'[0], dims[0].shard), ShardCoord(dims, q'));
    Relative(dims, q);
    Relative(dims, q');
    SameRelative(dims, InGeneration(dims, q), InGeneration(dims, q'));
    SameCoord(q, q', dims[0].shard, InGeneration(dims, q));
  }

  lemma SameRelative(dims: seq<Dim>, a: seq<nat>, b: seq<nat>)
    requires ValidDims(dims) && InTail(a, ChunkCounts(dims)) && InTail(b, ChunkCounts(dims))
    requires a[0] < dims[0].shard && b[0] < dims[0].shard
    requires ShardCoord(dims, a) == ShardCoord(dims, b) && InternalOf(dims, a) == InternalOf(dims, b)
    ensures a == b
  {
    SameEntry(dims, a, b, ShardOf(dims, a), InternalOf(dims, a));
  }

  lemma SameCoord(q: seq<nat>, q': seq<nat>, d: nat, r: seq<nat>)
    requires |q| == |q'| == |r| > 0 && d > 0 && Row(q[0], d) == Row(q'[0], d) && Col(q[0], d) == Col(q'[0], d)
    requires q[1..] == r[1..] && q'[1..] == r[1..]
    ensures q == q'
  {
    RowColDiv(q[0], d);
    RowColDiv(q'[0], d);
    assert q == [q[0]] + q[1..] && q' == [q'[0]] + q'[1..];
  }

  lemma SameEntry(dims: seq<Dim>, q: seq<nat>, q': seq<nat>, s: nat, i: nat)
    requires ValidDims(dims)
    requires InTail(q, ChunkCounts(dims)) && q[0] < dims[0].shard && ShardOf(dims, q) == s && InternalOf(dims, q) == i
    requires InTail(q', ChunkCounts(dims)) && q'[0] < dims[0].shard && ShardOf(dims, q') == s && InternalOf(dims, q') == i
    ensures q == q'
  {
    EntryOfChunk(dims, q);
    EntryOfChunk(dims, q');
  }
}
