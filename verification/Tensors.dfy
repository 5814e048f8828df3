/**
 Tensors of two or more dimensions, with the operations of the tensor library that
 the converter relies on. The last two dimensions are the rows and columns of a
 matrix; the ones before them are the batch dimensions. A tensor is its shape and
 its entry at every index, so that every operation is a change of index; two tensors
 are the same when shapes and entries agree.
 */
module Tensors {
  import opened Options
  import opened Orderings

  datatype Tensor = Tensor(batch: seq<nat>, rows: nat, cols: nat, at: (seq<nat>, nat, nat) -> real)

  predicate InShape(i: seq<nat>, shape: seq<nat>) {
    |i| == |shape| && forall d | 0 <= d < |i| :: i[d] < shape[d]
  }

  /** All sizes, rows and columns last, and the entry at an index of that many numbers. */
  function Shape(t: Tensor): (shape: seq<nat>)
    ensures |shape| == |t.batch| + 2
  {
    t.batch + [t.rows, t.cols]
  }

  function Entry(t: Tensor, i: seq<nat>): real
    requires |i| == |t.batch| + 2
  {
    var k := |t.batch|;
    t.at(i[..k], i[k], i[k + 1])
  }

  /** The same shape and the same entries. */
  ghost predicate Same(t: Tensor, u: Tensor) {
    && t.batch == u.batch && t.rows == u.rows && t.cols == u.cols
    && forall b: seq<nat>, r: nat, c: nat | InShape(b, t.batch) && r < t.rows && c < t.cols :: t.at(b, r, c) == u.at(b, r, c)
  }

  // ----- indexing -----

  /** One entry of an index tuple: an integer, or a slice with a positive step. */
  datatype Pick = At(j: int) | Slice(start: Option<int>, stop: Option<int>, step: nat)

  const FULL := Slice(None, None, 1)

  function Clamp(x: int, n: nat): (r: nat)
    ensures r <= n
  {
    if x < 0 then (if x + n < 0 then 0 else x + n) else if x > n then n else x
  }

  function SliceStart(p: Pick, n: nat): nat
    requires p.Slice?
  {
    match p.start case None => 0 case Some(x) => Clamp(x, n)
  }

  function SliceStop(p: Pick, n: nat): nat
    requires p.Slice?
  {
    match p.stop case None => n case Some(x) => Clamp(x, n)
  }

  function Quotient(n: nat, d: nat): nat {
    if d == 0 || n < d then 0 else 1 + Quotient(n - d, d)
  }

  function Remainder(n: nat, d: nat): nat {
    if d == 0 then 0 else if n < d then n else Remainder(n - d, d)
  }

  function SliceLength(p: Pick, n: nat): nat
    requires p.Slice? && p.step > 0
  {
    var lo, hi := SliceStart(p, n), SliceStop(p, n);
    if hi <= lo then 0 else Quotient(hi - lo + p.step - 1, p.step)
  }

  /** The pick can be applied to a dimension of size `n`. */
  predicate Applies(p: Pick, n: nat) {
    match p
    case At(j) => 0 <= j + n && j < n
    case Slice(_, _, step) => step > 0
  }

  predicate AllApply(picks: seq<Pick>, shape: seq<nat>) {
    |picks| == |shape| && forall d | 0 <= d < |picks| :: Applies(picks[d], shape[d])
  }

  function PickOne(p: Pick, n: nat, i: nat): nat
    requires Applies(p, n)
  {
    match p
    case At(j) => if j < 0 then j + n else j
    case Slice(_, _, step) => SliceStart(p, n) + step * i
  }

  function PickedShape(picks: seq<Pick>, shape: seq<nat>): seq<nat>
    requires AllApply(picks, shape)
  {
    if picks == [] then []
    else if picks[0].At? then PickedShape(picks[1..], shape[1..])
    else [SliceLength(picks[0], shape[0])] + PickedShape(picks[1..], shape[1..])
  }

  /** The index in the original tensor of entry `i` of the picked one. */
  function PickedIndex(picks: seq<Pick>, shape: seq<nat>, i: seq<nat>): seq<nat>
    requires AllApply(picks, shape)
  {
    if picks == [] then []
    else if picks[0].At? then [PickOne(picks[0], shape[0], 0)] + PickedIndex(picks[1..], shape[1..], i)
    else if i == [] then []
    else [PickOne(picks[0], shape[0], i[0])] + PickedIndex(picks[1..], shape[1..], i[1..])
  }

  /** `t[batch picks, row slice, column slice]`. */
  function GetItem(t: Tensor, picks: seq<Pick>, row: Pick, col: Pick): Tensor
    requires AllApply(picks, t.batch) && row.Slice? && col.Slice? && row.step > 0 && col.step > 0
  {
    Tensor(PickedShape(picks, t.batch), SliceLength(row, t.rows), SliceLength(col, t.cols),
           (b: seq<nat>, r: nat, c: nat) => t.at(PickedIndex(picks, t.batch, b), PickOne(row, t.rows, r), PickOne(col, t.cols, c)))
  }

  // ----- changing shape -----

  function Size(shape: seq<nat>): nat {
    if |shape| == 0 then 1 else Size(shape[..|shape| - 1]) * shape[|shape| - 1]
  }

  /** The position of an index in row-major order. */
  function Flat(i: seq<nat>, shape: seq<nat>): nat
    requires |i| == |shape|
  {
    if |i| == 0 then 0
    else Flat(i[..|i| - 1], shape[..|i| - 1]) * shape[|i| - 1] + i[|i| - 1]
  }

  function Unflat(n: nat, shape: seq<nat>): (i: seq<nat>)
    ensures |i| == |shape|
    decreases |shape|
  {
    if |shape| == 0 then []
    else
      var last := shape[|shape| - 1];
      Unflat(Quotient(n, last), shape[..|shape| - 1]) + [Remainder(n, last)]
  }

  /** Row-major position of an entry among all rows, and the row at a position. */
  function FlatRow(b: seq<nat>, r: nat, batch: seq<nat>, rows: nat): nat
    requires |b| == |batch|
  {
    Flat(b, batch) * rows + r
  }

  /** `reshape` to the same number of entries and the same row length: rows keep their order. */
  function ReshapeRows(t: Tensor, batch: seq<nat>, rows: nat): Option<Tensor> {
    if Size(batch) * rows * t.cols != Size(t.batch) * t.rows * t.cols then None
    else Some(Tensor(batch, rows, t.cols, (b: seq<nat>, r: nat, c: nat) =>
      if |b| != |batch| then t.at(b, r, c)
      else
        var n := FlatRow(b, r, batch, rows);
        t.at(Unflat(Quotient(n, t.rows), t.batch), Remainder(n, t.rows), c)))
  }

  // ----- permuting dimensions -----

  function Find(dims: seq<nat>, d: nat): (k: nat)
    ensures k <= |dims|
  {
    if dims == [] || dims[0] == d then 0 else 1 + Find(dims[1..], d)
  }

  function Permuted(i: seq<nat>, dims: seq<nat>): (r: seq<nat>)
    requires forall k | 0 <= k < |dims| :: dims[k] < |i|
    ensures |r| == |dims|
  {
    seq(|dims|, k requires 0 <= k < |dims| => i[dims[k]])
  }

  /** The index whose permutation by `dims` is `i`. */
  function Unpermuted(i: seq<nat>, dims: seq<nat>): (r: seq<nat>)
    ensures |r| == |dims|
  {
    seq(|dims|, d requires 0 <= d < |dims| => (var k := Find(dims, d); if k < |i| then i[k] else 0))
  }

  /** `permute` by dims that leave the columns in place. */
  function PermuteLeading(t: Tensor, dims: seq<nat>): Tensor
    requires IsOrdering(dims, |t.batch| + 1)
  {
    var shape := Permuted(t.batch + [t.rows], dims);
    var m := |dims| - 1;
    Tensor(shape[..m], shape[m], t.cols, (b: seq<nat>, r: nat, c: nat) =>
      var i := Unpermuted(b + [r], dims);
      t.at(i[..m], i[m], c))
  }

  function Transposed(t: Tensor): Tensor {
    Tensor(t.batch, t.cols, t.rows, (b: seq<nat>, r: nat, c: nat) => t.at(b, c, r))
  }

  // ----- cutting and joining -----

  function NarrowCols(t: Tensor, lo: nat, len: nat): Tensor {
    Tensor(t.batch, t.rows, len, (b: seq<nat>, r: nat, c: nat) => t.at(b, r, lo + c))
  }

  function NarrowRows(t: Tensor, lo: nat, len: nat): Tensor {
    Tensor(t.batch, len, t.cols, (b: seq<nat>, r: nat, c: nat) => t.at(b, lo + r, c))
  }

  function NarrowBatch(t: Tensor, dim: nat, lo: nat, len: nat): Tensor
    requires dim < |t.batch|
  {
    Tensor(t.batch[dim := len], t.rows, t.cols, (b: seq<nat>, r: nat, c: nat) => t.at(Shift(b, dim, lo), r, c))
  }

  function Shift(b: seq<nat>, dim: nat, lo: nat): seq<nat> {
    if dim < |b| then b[dim := lo + b[dim]] else b
  }

  /** Positions `lo .. lo + len` of dimension `dim`, counting rows and columns last. */
  function Narrow(t: Tensor, dim: nat, lo: nat, len: nat): Tensor
    requires dim < |t.batch| + 2
  {
    if dim == |t.batch| + 1 then NarrowCols(t, lo, len)
    else if dim == |t.batch| then NarrowRows(t, lo, len)
    else NarrowBatch(t, dim, lo, len)
  }

  function SumOf(sizes: seq<nat>): nat {
    if sizes == [] then 0 else sizes[0] + SumOf(sizes[1..])
  }

  /** `split` of dimension `dim` into chunks of the given sizes, the first starting at `lo`. */
  function SplitFrom(t: Tensor, sizes: seq<nat>, dim: nat, lo: nat): (chunks: seq<Tensor>)
    requires dim < |t.batch| + 2
    ensures |chunks| == |sizes|
    decreases |sizes|
  {
    if sizes == [] then []
    else [Narrow(t, dim, lo, sizes[0])] + SplitFrom(t, sizes[1..], dim, lo + sizes[0])
  }

  /** The chunk sizes meant by `split(size, dim)` with an integer, for a dimension of size `n`. */
  function EqualSizes(n: nat, size: nat): seq<nat>
    requires size > 0
  {
    if n <= size then [n] else [size] + EqualSizes(n - size, size)
  }

  function TotalRows(ts: seq<Tensor>): nat {
    if ts == [] then 0 else ts[0].rows + TotalRows(ts[1..])
  }

  function CatEntry(ts: seq<Tensor>, b: seq<nat>, r: nat, c: nat): real
    decreases |ts|
  {
    if ts == [] then 0.0
    else if r < ts[0].rows then ts[0].at(b, r, c)
    else CatEntry(ts[1..], b, r - ts[0].rows, c)
  }

  /** `cat` of matrices along dimension 0. */
  function CatMatrices(ts: seq<Tensor>): Tensor
    requires ts != []
  {
    Tensor([], TotalRows(ts), ts[0].cols, (b: seq<nat>, r: nat, c: nat) => CatEntry(ts, b, r, c))
  }

  /** The sizes of the first batch dimension. */
  function Leading(ts: seq<Tensor>): seq<nat>
    requires forall j | 0 <= j < |ts| :: ts[j].batch != []
  {
    seq(|ts|, j requires 0 <= j < |ts| => ts[j].batch[0])
  }

  /** Where entry `i` of the concatenation comes from: which part, and which entry of it. */
  function Locate(sizes: seq<nat>, i: nat): (r: (nat, nat))
    requires i < SumOf(sizes)
    ensures r.0 < |sizes| && r.1 < sizes[r.0]
  {
    if i < sizes[0] then (0, i)
    else
      var r := Locate(sizes[1..], i - sizes[0]);
      (r.0 + 1, r.1)
  }

  /** What `cat` along the first batch dimension asks of its arguments. */
  predicate CanCatLeading(ts: seq<Tensor>) {
    && ts != [] && (forall j | 0 <= j < |ts| :: ts[j].batch != [])
    && forall j | 0 <= j < |ts| ::
         ts[j].batch[1..] == ts[0].batch[1..] && ts[j].rows == ts[0].rows && ts[j].cols == ts[0].cols
  }

  /** `cat` along the first batch dimension. */
  function CatLeading(ts: seq<Tensor>): Tensor
    requires CanCatLeading(ts)
  {
    var sizes := Leading(ts);
    Tensor([SumOf(sizes)] + ts[0].batch[1..], ts[0].rows, ts[0].cols, (b: seq<nat>, r: nat, c: nat) =>
      if b != [] && b[0] < SumOf(sizes) then
        var p := Locate(sizes, b[0]);
        ts[p.0].at([p.1] + b[1..], r, c)
      else 0.0)
  }

  /** The sizes of dimension `dim`. */
  function SizesAlong(ts: seq<Tensor>, dim: nat): seq<nat>
    requires forall j | 0 <= j < |ts| :: dim < |ts[j].batch| + 2
  {
    seq(|ts|, j requires 0 <= j < |ts| => Shape(ts[j])[dim])
  }

  /** Tensors of one shape but for the sizes of dimension `dim`. */
  predicate Alike(ts: seq<Tensor>, dim: nat) {
    && ts != [] && (forall j | 0 <= j < |ts| :: dim < |ts[j].batch| + 2)
    && forall j | 0 <= j < |ts| :: Shape(ts[j])[dim := 0] == Shape(ts[0])[dim := 0]
  }

  /** The entries of `u` are those of `t` from position `lo` of dimension `dim` on. */
  ghost predicate IsPartOf(u: Tensor, t: Tensor, dim: nat, lo: nat) {
    dim < |t.batch| + 2 && |u.batch| == |t.batch| &&
    forall i: seq<nat> | InShape(i, Shape(u)) :: Entry(u, i) == Entry(t, i[dim := lo + i[dim]])
  }

  /** `t` is the concatenation of `ts`: as long as all of them together, one after the other. */
  ghost predicate IsCat(t: Tensor, ts: seq<Tensor>, dim: nat) {
    Alike(ts, dim) && Shape(t) == Shape(ts[0])[dim := SumOf(SizesAlong(ts, dim))] &&
    forall j | 0 <= j < |ts| :: IsPartOf(ts[j], t, dim, SumOf(SizesAlong(ts, dim)[..j]))
  }

  /** `stack` along a new dimension 0. */
  function Stack(ts: seq<Tensor>): Tensor
    requires ts != []
  {
    Tensor([|ts|] + ts[0].batch, ts[0].rows, ts[0].cols, (b: seq<nat>, r: nat, c: nat) =>
      if b != [] && b[0] < |ts| then ts[b[0]].at(b[1..], r, c) else 0.0)
  }

  // ----- multiplying -----

  /** An index with 0 in every dimension where `shape` has size 1. */
  function Broadcast(b: seq<nat>, shape: seq<nat>): (r: seq<nat>)
    ensures |r| == |b|
  {
    seq(|b|, d requires 0 <= d < |b| => if d < |shape| && shape[d] == 1 then 0 else b[d])
  }

  function BroadcastRow(r: nat, rows: nat): nat {
    if rows == 1 then 0 else r
  }

  /** The size two dimensions have together, when one of size 1 is repeated to the other. */
  function Wider(n: nat, m: nat): nat {
    if n == 1 then m else n
  }

  predicate SizesFit(n: nat, m: nat) {
    n == 1 || m == 1 || n == m
  }

  /** The last `n` numbers of an index: dimensions are lined up at the end. */
  function Last(b: seq<nat>, n: nat): seq<nat> {
    if n <= |b| then b[|b| - n..] else b
  }

  /** `t * x` is defined for `x` with one column, and has no more dimensions than `t`. */
  predicate Scales(t: Tensor, x: Tensor) {
    && x.cols == 1 && SizesFit(t.rows, x.rows) && |x.batch| <= |t.batch|
    && forall d | 0 <= d < |x.batch| :: SizesFit(Last(t.batch, |x.batch|)[d], x.batch[d])
  }

  function WiderShape(shape: seq<nat>, more: seq<nat>): (r: seq<nat>)
    requires |more| <= |shape|
    ensures |r| == |shape|
  {
    var k := |shape| - |more|;
    seq(|shape|, d requires 0 <= d < |shape| => if d < k then shape[d] else Wider(shape[d], more[d - k]))
  }

  /** `t * x` for `x` with one column; either is repeated along its dimensions of size 1. */
  function ScaleRows(t: Tensor, x: Tensor): Tensor
    requires Scales(t, x)
  {
    Tensor(WiderShape(t.batch, x.batch), Wider(t.rows, x.rows), t.cols, (b: seq<nat>, r: nat, c: nat) =>
      t.at(Broadcast(b, t.batch), BroadcastRow(r, t.rows), c) *
      x.at(Broadcast(Last(b, |x.batch|), x.batch), BroadcastRow(r, x.rows), 0))
  }

  /** The product of entry `k` of row `r` of B and of column `c` of A, in batch `b`. */
  function Term(B: Tensor, A: Tensor, b: seq<nat>, r: nat, c: nat, k: nat): real {
    B.at(b, r, k) * A.at(Broadcast(b, A.batch), k, c)
  }

  function Dot(B: Tensor, A: Tensor, b: seq<nat>, r: nat, c: nat, n: nat): real {
    if n == 0 then 0.0 else Dot(B, A, b, r, c, n - 1) + Term(B, A, b, r, c, n - 1)
  }

  /** The matrix product `B @ A`, with A repeated along its batch dimensions of size 1. */
  function Product(B: Tensor, A: Tensor): Tensor {
    Tensor(B.batch, B.rows, A.cols, (b: seq<nat>, r: nat, c: nat) => Dot(B, A, b, r, c, B.cols))
  }

  // ----- lemmas -----

  lemma {:induction false} DotSame(B: Tensor, A: Tensor, b: seq<nat>, r: nat, c: nat,
                                   B': Tensor, A': Tensor, b': seq<nat>, r': nat, c': nat, n: nat)
    requires forall k | 0 <= k < n :: Term(B, A, b, r, c, k) == Term(B', A', b', r', c', k)
    ensures Dot(B, A, b, r, c, n) == Dot(B', A', b', r', c', n)
  {
    if n > 0 {
      DotSame(B, A, b, r, c, B', A', b', r', c', n - 1);
    }
  }

  // ----- reshaping keeps the row-major order -----

  lemma ProductAtLeast(x: nat, y: nat)
    requires y > 0
    ensures x <= x * y
  {
    assert x * y == x + x * (y - 1);
  }

  lemma ProductOfLess(x: nat, y: nat, z: nat)
    requires x < y && z > 0
    ensures x * z < y * z
  {
    assert y * z == x * z + (y - x) * z;
    ProductAtLeast(y - x, z);
  }

  lemma Cancel(x: nat, y: nat, z: nat)
    requires z > 0 && x * z == y * z
    ensures x == y
  {
    if x < y {
      ProductOfLess(x, y, z);
    } else if y < x {
      ProductOfLess(y, x, z);
    }
  }

  lemma {:induction false} DivMod(n: nat, d: nat, k: nat)
    requires k < d
    ensures Quotient(n * d + k, d) == n && Remainder(n * d + k, d) == k
  {
    if n > 0 {
      DivMod(n - 1, d, k);
      assert n * d + k - d == (n - 1) * d + k;
      assert n * d >= d;
    } else {
      assert n * d == 0;
    }
  }

  lemma {:induction false} QuotientAndRemainder(n: nat, d: nat)
    requires d > 0
    ensures Remainder(n, d) < d && n == Quotient(n, d) * d + Remainder(n, d)
  {
    if n >= d {
      QuotientAndRemainder(n - d, d);
      assert Quotient(n, d) * d == Quotient(n - d, d) * d + d;
    } else {
      assert Quotient(n, d) * d == 0;
    }
  }

  lemma QuotientBelow(n: nat, d: nat, q: nat)
    requires n < q * d
    ensures d > 0 && Quotient(n, d) < q
  {
    if d > 0 {
      QuotientAndRemainder(n, d);
      if q <= Quotient(n, d) {
        AtLeastTimes(q, Quotient(n, d), d);
      }
    } else {
      TimesZero(q);
    }
  }

  lemma AtLeastTimes(x: nat, y: nat, z: nat)
    requires x <= y
    ensures x * z <= y * z
  {
    assert y * z == x * z + (y - x) * z;
  }

  lemma TimesZero(x: nat)
    ensures x * 0 == 0
  {
  }

  /** The index at a row-major position is inside the shape and has that position. */
  lemma {:induction false} FlatOfUnflat(n: nat, shape: seq<nat>)
    requires n < Size(shape)
    ensures InShape(Unflat(n, shape), shape) && Flat(Unflat(n, shape), shape) == n
    decreases |shape|
  {
    if shape != [] {
      var m := |shape| - 1;
      var last := shape[m];
      QuotientBelow(n, last, Size(shape[..m]));
      QuotientAndRemainder(n, last);
      FlatOfUnflat(Quotient(n, last), shape[..m]);
      var i := Unflat(n, shape);
      assert i[..m] == Unflat(Quotient(n, last), shape[..m]);
      forall d | 0 <= d < m ensures i[d] < shape[d] {
        assert i[..m][d] < shape[..m][d];
      }
    }
  }

  /** The position of an index is below the size of the shape. */
  lemma {:induction false} FlatBelowSize(i: seq<nat>, shape: seq<nat>)
    requires InShape(i, shape)
    ensures Flat(i, shape) < Size(shape)
    decreases |shape|
  {
    if shape != [] {
      var m := |shape| - 1;
      FlatBelowSize(i[..m], shape[..m]);
      RowBelow(Flat(i[..m], shape[..m]), i[m], Size(shape[..m]), shape[m]);
    }
  }

  lemma RowBelow(p: nat, r: nat, size: nat, rows: nat)
    requires p < size && r < rows
    ensures p * rows + r < size * rows
  {
    assert size * rows == p * rows + (size - p) * rows;
    assert (size - p) * rows == rows + (size - p - 1) * rows;
    assert (size - p - 1) * rows >= 0;
  }

  /** Every row of the reshaped tensor is the row at the same row-major position. */
  lemma ReshapeKeepsPositions(t: Tensor, batch: seq<nat>, rows: nat, b: seq<nat>, r: nat, c: nat)
    requires ReshapeRows(t, batch, rows).Some? && InShape(b, batch) && r < rows && c < t.cols
    ensures exists b': seq<nat>, r': nat ::
              InShape(b', t.batch) && r' < t.rows &&
              FlatRow(b', r', t.batch, t.rows) == FlatRow(b, r, batch, rows) &&
              ReshapeRows(t, batch, rows).value.at(b, r, c) == t.at(b', r', c)
  {
    var n := FlatRow(b, r, batch, rows);
    FlatBelowSize(b, batch);
    RowBelow(Flat(b, batch), r, Size(batch), rows);
    Cancel(Size(batch) * rows, Size(t.batch) * t.rows, t.cols);
    QuotientBelow(n, t.rows, Size(t.batch));
    QuotientAndRemainder(n, t.rows);
    FlatOfUnflat(Quotient(n, t.rows), t.batch);
    var b', r' := Unflat(Quotient(n, t.rows), t.batch), Remainder(n, t.rows);
    assert FlatRow(b', r', t.batch, t.rows) == n;
  }

  // ----- permuting moves every entry -----

  lemma {:induction false} FindFirst(dims: seq<nat>, k: nat)
    requires k < |dims|
    requires forall j | 0 <= j < k :: dims[j] != dims[k]
    ensures Find(dims, dims[k]) == k
  {
    if k > 0 {
      FindFirst(dims[1..], k - 1);
    }
  }

  /** A permutation contains every dimension. */
  lemma Occurs(dims: seq<nat>, d: nat)
    requires IsOrdering(dims, |dims|) && d < |dims|
    ensures exists p :: 0 <= p < |dims| && dims[p] == d
  {
    OrderingCovers(dims, |dims|);
    assert d in dims;
  }

  /** Permuting an index and undoing it gives the index back. */
  lemma {:induction false} UnpermutedIndex(i: seq<nat>, dims: seq<nat>)
    requires IsOrdering(dims, |i|)
    ensures Unpermuted(Permuted(i, dims), dims) == i
  {
    forall d | 0 <= d < |i| ensures Unpermuted(Permuted(i, dims), dims)[d] == i[d] {
      Occurs(dims, d);
      var k :| 0 <= k < |dims| && dims[k] == d;
      FindFirst(dims, k);
    }
  }

  lemma PermutedShape(t: Tensor, dims: seq<nat>)
    requires IsOrdering(dims, |t.batch| + 1)
    ensures var u := PermuteLeading(t, dims);
            u.batch + [u.rows] == Permuted(t.batch + [t.rows], dims) && u.cols == t.cols
  {
  }

  /** The entry at an index is found at the permuted index. */
  lemma PermuteMovesEntries(t: Tensor, dims: seq<nat>, i: seq<nat>, c: nat)
    requires |i| == |t.batch| + 1 && IsOrdering(dims, |i|)
    ensures var m := |dims| - 1;
            var j := Permuted(i, dims);
            PermuteLeading(t, dims).at(j[..m], j[m], c) == t.at(i[..m], i[m], c)
  {
    var m := |dims| - 1;
    var j := Permuted(i, dims);
    UnpermutedIndex(i, dims);
    assert j[..m] + [j[m]] == j;
  }

  // ----- cutting and joining move every entry -----

  lemma InParts(i: seq<nat>, batch: seq<nat>, rows: nat, cols: nat)
    requires InShape(i, batch + [rows, cols])
    ensures var k := |batch|; InShape(i[..k], batch) && i[k] < rows && i[k + 1] < cols
  {
    var k := |batch|;
    forall d | 0 <= d < k ensures i[..k][d] < batch[d] {
      assert (batch + [rows, cols])[d] == batch[d];
    }
    assert (batch + [rows, cols])[k] == rows && (batch + [rows, cols])[k + 1] == cols;
  }

  /** Tensors of the same shape and the same entries. */
  lemma SameEntries(t: Tensor, u: Tensor, i: seq<nat>)
    requires Same(t, u) && InShape(i, Shape(t))
    ensures Shape(t) == Shape(u) && Entry(t, i) == Entry(u, i)
  {
    InParts(i, t.batch, t.rows, t.cols);
  }

  /** Position `p` of the cut is position `lo + p` of the tensor. */
  lemma NarrowEntry(t: Tensor, dim: nat, lo: nat, len: nat, i: seq<nat>)
    requires dim < |t.batch| + 2 && |i| == |t.batch| + 2
    ensures Shape(Narrow(t, dim, lo, len)) == Shape(t)[dim := len]
    ensures Entry(Narrow(t, dim, lo, len), i) == Entry(t, i[dim := lo + i[dim]])
  {
    var k := |t.batch|;
    var j := i[dim := lo + i[dim]];
    if dim < k {
      assert j[..k] == Shift(i[..k], dim, lo);
    } else {
      assert j[..k] == i[..k];
    }
  }

  lemma {:induction false} SumUpTo(sizes: seq<nat>, j: nat)
    requires j < |sizes|
    ensures SumOf(sizes[..j + 1]) == SumOf(sizes[..j]) + sizes[j]
  {
    if j > 0 {
      SumUpTo(sizes[1..], j - 1);
      assert sizes[..j + 1][1..] == sizes[1..][..j] && sizes[..j][1..] == sizes[1..][..j - 1];
    } else {
      assert sizes[..1][1..] == [] && sizes[..0] == [];
    }
  }

  /** Entry `p` of part `j` is found behind the parts before it. */
  lemma {:induction false} LocateAt(sizes: seq<nat>, j: nat, p: nat)
    requires j < |sizes| && p < sizes[j]
    ensures SumOf(sizes[..j]) + p < SumOf(sizes) && Locate(sizes, SumOf(sizes[..j]) + p) == (j, p)
  {
    if j > 0 {
      LocateAt(sizes[1..], j - 1, p);
      assert sizes[..j][1..] == sizes[1..][..j - 1];
    }
  }

  lemma {:induction false} LocateBack(sizes: seq<nat>, i: nat)
    requires i < SumOf(sizes)
    ensures var p := Locate(sizes, i); SumOf(sizes[..p.0]) + p.1 == i
  {
    if i >= sizes[0] {
      LocateBack(sizes[1..], i - sizes[0]);
      var p := Locate(sizes, i);
      assert sizes[..p.0][1..] == sizes[1..][..p.0 - 1];
    }
  }

  /** There is only one concatenation. */
  lemma CatIsUnique(t: Tensor, u: Tensor, ts: seq<Tensor>, dim: nat)
    requires IsCat(t, ts, dim) && IsCat(u, ts, dim)
    ensures Same(t, u)
  {
    SameShapeSame(t, u);
    forall b: seq<nat>, r: nat, c: nat | InShape(b, t.batch) && r < t.rows && c < t.cols
      ensures t.at(b, r, c) == u.at(b, r, c)
    {
      var i := b + [r, c];
      assert i[..|b|] == b;
      CatEntryFrom(t, ts, dim, i);
      CatEntryFrom(u, ts, dim, i);
    }
  }

  lemma SameShapeSame(t: Tensor, u: Tensor)
    requires Shape(t) == Shape(u)
    ensures t.batch == u.batch && t.rows == u.rows && t.cols == u.cols
  {
    var k := |t.batch|;
    assert |Shape(t)| == |Shape(u)| && t.batch == Shape(t)[..k] && u.batch == Shape(u)[..k];
    assert Shape(t)[k] == Shape(u)[k] && Shape(t)[k + 1] == Shape(u)[k + 1];
  }

  /** Which part an entry of a concatenation comes from. */
  lemma CatEntryFrom(t: Tensor, ts: seq<Tensor>, dim: nat, i: seq<nat>)
    requires IsCat(t, ts, dim) && InShape(i, Shape(t))
    ensures var p := Locate(SizesAlong(ts, dim), i[dim]);
            InShape(i[dim := p.1], Shape(ts[p.0])) && Entry(t, i) == Entry(ts[p.0], i[dim := p.1])
  {
    var p := Locate(SizesAlong(ts, dim), i[dim]);
    LocateBack(SizesAlong(ts, dim), i[dim]);
    EntryFromPart(t, ts, dim, i, SumOf(SizesAlong(ts, dim)), SumOf(SizesAlong(ts, dim)[..p.0]), p.0, p.1);
  }

  lemma EntryFromPart(t: Tensor, ts: seq<Tensor>, dim: nat, i: seq<nat>, n: nat, lo: nat, j: nat, p: nat)
    requires Alike(ts, dim) && j < |ts| && IsPartOf(ts[j], t, dim, lo)
    requires InShape(i, Shape(ts[0])[dim := n]) && p < Shape(ts[j])[dim] && i[dim] == lo + p && |i| == |t.batch| + 2
    ensures InShape(i[dim := p], Shape(ts[j])) && Entry(t, i) == Entry(ts[j], i[dim := p])
  {
    InPart(ts, dim, i, n, j, p);
    PutBack(i, dim, lo, p);
    EntryOfPart(ts[j], t, dim, lo, i[dim := p], i);
  }

  lemma EntryOfPart(u: Tensor, t: Tensor, dim: nat, lo: nat, j: seq<nat>, i: seq<nat>)
    requires IsPartOf(u, t, dim, lo) && InShape(j, Shape(u)) && i == j[dim := lo + j[dim]]
    ensures Entry(t, i) == Entry(u, j)
  {
  }

  lemma PutBack(i: seq<nat>, dim: nat, lo: nat, p: nat)
    requires dim < |i| && i[dim] == lo + p
    ensures var j := i[dim := p]; j[dim := lo + j[dim]] == i
  {
  }

  lemma AlikeShapes(ts: seq<Tensor>, dim: nat, j: nat)
    requires Alike(ts, dim) && j < |ts|
    ensures |Shape(ts[j])| == |Shape(ts[0])|
    ensures forall d | 0 <= d < |Shape(ts[0])| && d != dim :: Shape(ts[j])[d] == Shape(ts[0])[d]
  {
    var s, s' := Shape(ts[j]), Shape(ts[0]);
    assert |s[dim := 0]| == |s'[dim := 0]|;
    forall d | 0 <= d < |s'| && d != dim ensures s[d] == s'[d] {
      assert s[dim := 0][d] == s'[dim := 0][d];
    }
  }

  lemma InPart(ts: seq<Tensor>, dim: nat, i: seq<nat>, n: nat, j: nat, p: nat)
    requires Alike(ts, dim) && j < |ts| && InShape(i, Shape(ts[0])[dim := n])
    requires p < Shape(ts[j])[dim]
    ensures InShape(i[dim := p], Shape(ts[j]))
  {
    AlikeShapes(ts, dim, j);
    var shape := Shape(ts[0])[dim := n];
    forall d | 0 <= d < |i| && d != dim ensures i[d] < Shape(ts[j])[d] {
      assert i[d] < shape[d];
    }
  }

  /** Concatenating along the first batch dimension. */
  lemma CatLeadingIsCat(ts: seq<Tensor>)
    requires CanCatLeading(ts)
    ensures IsCat(CatLeading(ts), ts, 0)
  {
    assert SizesAlong(ts, 0) == Leading(ts);
    forall j | 0 <= j < |ts| ensures Shape(ts[j])[0 := 0] == Shape(ts[0])[0 := 0] {
      FirstSize(ts[j], 0);
      FirstSize(ts[0], 0);
    }
    FirstSize(ts[0], SumOf(Leading(ts)));
    forall j | 0 <= j < |ts| ensures IsPartOf(ts[j], CatLeading(ts), 0, SumOf(Leading(ts)[..j])) {
      PartOfCatLeading(ts, j);
    }
  }

  lemma FirstSize(t: Tensor, n: nat)
    requires t.batch != []
    ensures Shape(t)[0 := n] == [n] + t.batch[1..] + [t.rows, t.cols]
  {
  }

  lemma LeadingRank(ts: seq<Tensor>, j: nat)
    requires CanCatLeading(ts) && j < |ts|
    ensures |ts[j].batch| == |ts[0].batch| == |CatLeading(ts).batch|
  {
    assert |ts[j].batch[1..]| == |ts[0].batch[1..]|;
  }

  lemma PartOfCatLeading(ts: seq<Tensor>, j: nat)
    requires CanCatLeading(ts) && j < |ts|
    ensures IsPartOf(ts[j], CatLeading(ts), 0, SumOf(Leading(ts)[..j]))
  {
    LeadingRank(ts, j);
    forall i: seq<nat> | InShape(i, Shape(ts[j]))
      ensures Entry(ts[j], i) == Entry(CatLeading(ts), i[0 := SumOf(Leading(ts)[..j]) + i[0]])
    {
      assert i[0] < Shape(ts[j])[0] == Leading(ts)[j];
      LocateAt(Leading(ts), j, i[0]);
      LeadingEntry(ts, j, i);
    }
  }

  lemma LeadingEntry(ts: seq<Tensor>, j: nat, i: seq<nat>)
    requires CanCatLeading(ts) && j < |ts| && |i| == |ts[j].batch| + 2
    requires var n := SumOf(Leading(ts)[..j]) + i[0];
             n < SumOf(Leading(ts)) && Locate(Leading(ts), n) == (j, i[0])
    ensures |i| == |CatLeading(ts).batch| + 2
    ensures Entry(CatLeading(ts), i[0 := SumOf(Leading(ts)[..j]) + i[0]]) == Entry(ts[j], i)
  {
    var k := |ts[j].batch|;
    LeadingRank(ts, j);
    var i' := i[0 := SumOf(Leading(ts)[..j]) + i[0]];
    assert [i[0]] + i'[..k][1..] == i[..k];
  }

  lemma SameIsCat(t: Tensor, u: Tensor, ts: seq<Tensor>, dim: nat)
    requires Same(t, u) && IsCat(u, ts, dim)
    ensures IsCat(t, ts, dim)
  {
    forall j | 0 <= j < |ts| ensures IsPartOf(ts[j], t, dim, SumOf(SizesAlong(ts, dim)[..j])) {
      SameHasPart(t, u, ts, dim, j);
    }
  }

  lemma SameHasPart(t: Tensor, u: Tensor, ts: seq<Tensor>, dim: nat, j: nat)
    requires Same(t, u) && IsCat(u, ts, dim) && j < |ts|
    ensures IsPartOf(ts[j], t, dim, SumOf(SizesAlong(ts, dim)[..j]))
  {
    var lo := SumOf(SizesAlong(ts, dim)[..j]);
    assert IsPartOf(ts[j], u, dim, lo);
    forall i: seq<nat> | InShape(i, Shape(ts[j])) ensures InShape(i[dim := lo + i[dim]], Shape(u)) {
      InCat(ts, dim, j, i);
    }
    SameHoldsPart(t, u, ts[j], dim, lo);
  }

  lemma SameHoldsPart(t: Tensor, u: Tensor, p: Tensor, dim: nat, lo: nat)
    requires Same(t, u) && IsPartOf(p, u, dim, lo)
    requires forall i: seq<nat> | InShape(i, Shape(p)) :: InShape(i[dim := lo + i[dim]], Shape(u))
    ensures IsPartOf(p, t, dim, lo)
  {
    forall i: seq<nat> | InShape(i, Shape(p)) ensures Entry(p, i) == Entry(t, i[dim := lo + i[dim]]) {
      SameEntries(t, u, i[dim := lo + i[dim]]);
    }
  }

  /** An entry of a part, in the concatenation. */
  lemma InCat(ts: seq<Tensor>, dim: nat, j: nat, i: seq<nat>)
    requires Alike(ts, dim) && j < |ts| && InShape(i, Shape(ts[j]))
    ensures var sizes := SizesAlong(ts, dim);
            dim < |i| && InShape(i[dim := SumOf(sizes[..j]) + i[dim]], Shape(ts[0])[dim := SumOf(sizes)])
  {
    var sizes := SizesAlong(ts, dim);
    AlikeShapes(ts, dim, j);
    assert i[dim] < sizes[j];
    LocateAt(sizes, j, i[dim]);
  }

  // ----- concatenating matrices -----

  predicate AllMatrices(ts: seq<Tensor>) {
    forall k | 0 <= k < |ts| :: ts[k].batch == []
  }

  lemma {:induction false} MatrixEntry(ts: seq<Tensor>, b: seq<nat>, j: nat, r: nat, c: nat)
    requires AllMatrices(ts) && j < |ts| && r < ts[j].rows
    ensures SumOf(SizesAlong(ts, 0)[..j]) + r < TotalRows(ts)
    ensures CatEntry(ts, b, SumOf(SizesAlong(ts, 0)[..j]) + r, c) == ts[j].at(b, r, c)
  {
    var sizes := SizesAlong(ts, 0);
    assert sizes[0] == Shape(ts[0])[0] == ts[0].rows;
    if j > 0 {
      assert SizesAlong(ts[1..], 0) == sizes[1..];
      assert sizes[..j][1..] == sizes[1..][..j - 1];
      MatrixEntry(ts[1..], b, j - 1, r, c);
    }
  }

  lemma {:induction false} TotalIsSum(ts: seq<Tensor>)
    requires AllMatrices(ts)
    ensures TotalRows(ts) == SumOf(SizesAlong(ts, 0))
  {
    if ts != [] {
      assert SizesAlong(ts, 0)[0] == Shape(ts[0])[0] == ts[0].rows;
      assert SizesAlong(ts, 0)[1..] == SizesAlong(ts[1..], 0);
      TotalIsSum(ts[1..]);
    }
  }

  lemma PartOfCatMatrices(ts: seq<Tensor>, j: nat)
    requires AllMatrices(ts) && j < |ts|
    ensures IsPartOf(ts[j], CatMatrices(ts), 0, SumOf(SizesAlong(ts, 0)[..j]))
  {
    var lo := SumOf(SizesAlong(ts, 0)[..j]);
    assert Shape(ts[j]) == [ts[j].rows, ts[j].cols];
    forall i: seq<nat> | InShape(i, Shape(ts[j])) ensures Entry(ts[j], i) == Entry(CatMatrices(ts), i[0 := lo + i[0]]) {
      RowOfCat(ts, j, i);
    }
  }

  lemma RowOfCat(ts: seq<Tensor>, j: nat, i: seq<nat>)
    requires AllMatrices(ts) && j < |ts| && |i| == 2 && i[0] < ts[j].rows
    ensures Entry(ts[j], i) == Entry(CatMatrices(ts), i[0 := SumOf(SizesAlong(ts, 0)[..j]) + i[0]])
  {
    var i' := i[0 := SumOf(SizesAlong(ts, 0)[..j]) + i[0]];
    assert i'[..0] == [] == i[..0];
    MatrixEntry(ts, [], j, i[0], i[1]);
  }

  /** Concatenating matrices along dimension 0. */
  lemma CatMatricesIsCat(ts: seq<Tensor>)
    requires ts != [] && AllMatrices(ts) && forall k | 0 <= k < |ts| :: ts[k].cols == ts[0].cols
    ensures IsCat(CatMatrices(ts), ts, 0)
  {
    TotalIsSum(ts);
    forall j | 0 <= j < |ts| ensures Shape(ts[j])[0 := 0] == [0, ts[0].cols] {
      assert Shape(ts[j]) == [ts[j].rows, ts[0].cols];
    }
    assert Shape(CatMatrices(ts)) == [TotalRows(ts), ts[0].cols] && Shape(ts[0]) == [ts[0].rows, ts[0].cols];
    forall j | 0 <= j < |ts| ensures IsPartOf(ts[j], CatMatrices(ts), 0, SumOf(SizesAlong(ts, 0)[..j])) {
      PartOfCatMatrices(ts, j);
    }
  }
}
