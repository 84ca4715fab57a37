/** Which shard is the next, and which entry (src/streaming/array.dimensions.cpp): both orders are row-major, as readers of the format expect. */
module RowMajor {
  import opened Arith
  import opened Lattice
  import opened Tiling
  import opened Grid

  /** One step along an axis skips a whole block of the axes after it. */
  lemma {:induction false} RankNext(c: seq<nat>, shape: seq<nat>, k: nat)
    requires |c| == |shape| && k < |c|
    ensures Rank(c[k := c[k] + 1], shape) == Rank(c, shape) + Size(shape[k + 1..])
  {
    var next := c[k := c[k] + 1];
    if k == 0 {
      assert next[1..] == c[1..];
      MulSum(c[0], 1, Size(shape[1..]));
    } else {
      assert next[1..] == c[1..][k - 1 := c[1..][k - 1] + 1] && shape[1..][k..] == shape[k + 1..];
      RankNext(c[1..], shape[1..], k - 1);
    }
  }

  lemma MulSum(a: nat, b: nat, d: nat)
    ensures (a + b) * d == a * d + b * d
  {
  }

  lemma {:induction false} RankOfZeros(c: seq<nat>, shape: seq<nat>)
    requires |c| == |shape| && forall i :: 0 <= i < |c| ==> c[i] == 0
    ensures Rank(c, shape) == 0
  {
    if c != [] {
      RankOfZeros(c[1..], shape[1..]);
    }
  }

  lemma StepInside(x: nat, d: nat)
    requires d > 0 && Col(x, d) + 1 < d
    ensures Row(x + 1, d) == Row(x, d) && Col(x + 1, d) == Col(x, d) + 1
  {
    RowColDiv(x, d);
    RowColOf(Row(x, d), d, Col(x, d) + 1);
  }

  lemma StepOver(x: nat, d: nat)
    requires d > 0
    ensures Row(x + d, d) == Row(x, d) + 1 && Col(x + d, d) == Col(x, d)
  {
  }

  lemma DifferAt<T>(a: seq<T>, b: seq<T>, k: nat, x: T)
    requires |a| == |b| && k < |a| && b[k] == x && forall i :: 0 <= i < |a| && i != k ==> a[i] == b[i]
    ensures b == a[k := x]
  {
  }

  /** Only one axis moves. */
  lemma OtherDigits(q: seq<nat>, next: seq<nat>, tile: seq<nat>, k: nat)
    requires |q| == |next| == |tile| && AllPositive(tile) && k < |q| && next == q[k := next[k]]
    ensures Quotients(next, tile) == Quotients(q, tile)[k := Row(next[k], tile[k])]
    ensures Remainders(next, tile) == Remainders(q, tile)[k := Col(next[k], tile[k])]
  {
    forall i | 0 <= i < |q| && i != k
      ensures Quotients(q, tile)[i] == Quotients(next, tile)[i] && Remainders(q, tile)[i] == Remainders(next, tile)[i]
    {
      assert q[i] == next[i];
    }
    DifferAt(Quotients(q, tile), Quotients(next, tile), k, Row(next[k], tile[k]));
    DifferAt(Remainders(q, tile), Remainders(next, tile), k, Col(next[k], tile[k]));
  }

  lemma RankMoved(r: seq<nat>, r': seq<nat>, shape: seq<nat>, k: nat)
    requires |r| == |shape| && k < |r| && r' == r[k := r[k] + 1]
    ensures |r'| == |shape| && Rank(r', shape) == Rank(r, shape) + Size(shape[k + 1..])
  {
    RankNext(r, shape, k);
  }

  lemma QuotientsStay(q: seq<nat>, next: seq<nat>, tile: seq<nat>, k: nat)
    requires |q| == |next| == |tile| && AllPositive(tile) && k < |q| && next == q[k := next[k]] && Row(next[k], tile[k]) == Row(q[k], tile[k])
    ensures Quotients(next, tile) == Quotients(q, tile)
  {
    OtherDigits(q, next, tile, k);
    DifferAt(Quotients(q, tile), Quotients(q, tile), k, Row(q[k], tile[k]));
  }

  lemma RemainderMoves(q: seq<nat>, next: seq<nat>, tile: seq<nat>, k: nat)
    requires |q| == |next| == |tile| && AllPositive(tile) && k < |q| && next == q[k := next[k]]
    requires Col(next[k], tile[k]) == Col(q[k], tile[k]) + 1
    ensures Rank(Remainders(next, tile), tile) == Rank(Remainders(q, tile), tile) + Size(tile[k + 1..])
  {
    OtherDigits(q, next, tile, k);
    RankMoved(Remainders(q, tile), Remainders(next, tile), tile, k);
  }

  /** The next chunk along an axis, in the same shard: as many entries on as the axes after it have in a shard. */
  lemma NextInShard(dims: seq<Dim>, q: seq<nat>, next: seq<nat>, k: nat)
    requires ValidDims(dims) && |q| == |dims| && k < |q| && Col(q[k], dims[k].shard) + 1 < dims[k].shard
    requires next == q[k := q[k] + 1]
    ensures InternalOf(dims, next) == InternalOf(dims, q) + Size(ShardSizes(dims)[k + 1..])
    ensures ShardOf(dims, next) == ShardOf(dims, q)
  {
    StepInside(q[k], dims[k].shard);
    QuotientsStay(q, next, ShardSizes(dims), k);
    RemainderMoves(q, next, ShardSizes(dims), k);
  }

  /** The chunk one shard on along an axis: the same entry, as many shards on as the axes after it have in the array. */
  lemma NextShard(dims: seq<Dim>, q: seq<nat>, next: seq<nat>, k: nat)
    requires ValidDims(dims) && |q| == |dims| && 0 < k < |q| && next == q[k := q[k] + dims[k].shard]
    ensures ShardOf(dims, next) == ShardOf(dims, q) + Size(ShardCounts(dims)[k + 1..])
    ensures InternalOf(dims, next) == InternalOf(dims, q)
  {
    var tile, counts := ShardSizes(dims), ShardCounts(dims);
    StepOver(q[k], tile[k]);
    OtherDigits(q, next, tile, k);
    DifferAt(Remainders(q, tile), Remainders(q, tile), k, Col(q[k], tile[k]));
    var s, s' := Quotients(q, tile)[1..], Quotients(next, tile)[1..];
    DifferAt(s, s', k - 1, s[k - 1] + 1);
    RankMoved(s, s', counts[1..], k - 1);
    assert counts[1..][k..] == counts[k + 1..];
  }

  /** Both start at the origin. */
  lemma AtOrigin(dims: seq<Dim>, q: seq<nat>)
    requires ValidDims(dims) && |q| == |dims| && forall i :: 0 <= i < |q| ==> q[i] == 0
    ensures ShardOf(dims, q) == 0 && InternalOf(dims, q) == 0
  {
    var tile := ShardSizes(dims);
    forall i | 0 <= i < |q| ensures Row(q[i], tile[i]) == 0 && Col(q[i], tile[i]) == 0 {
      RowColDiv(0, tile[i]);
    }
    RankOfZeros(Quotients(q, tile)[1..], ShardCounts(dims)[1..]);
    RankOfZeros(Remainders(q, tile), tile);
  }
}
