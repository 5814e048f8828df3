/** `LoraTorchTensor`: operations on two factors A and B mean those on the product `B @ A`. */
module LoraTensor {
  import opened Options
  import opened Orderings
  import opened Tensors

  datatype Lora = Lora(A: Tensor, B: Tensor)

  /** What the constructor asserts. */
  predicate Accepts(A: Tensor, B: Tensor) {
    |A.batch| == |B.batch| && A.rows == B.cols
  }

  function Build(A: Tensor, B: Tensor): Option<Lora> {
    if Accepts(A, B) then Some(Lora(A, B)) else None
  }

  /** The factors can be multiplied to a tensor of the shape the class reports. */
  predicate Denotes(l: Lora) {
    Accepts(l.A, l.B) && forall d | 0 <= d < |l.A.batch| :: l.A.batch[d] == 1 || l.A.batch[d] == l.B.batch[d]
  }

  function Materialize(l: Lora): Tensor {
    Product(l.B, l.A)
  }

  /** Entries of two products are equal when they pair up the same numbers. */
  lemma {:induction false} SameEntry(l: Lora, b: seq<nat>, r: nat, c: nat, l': Lora, b': seq<nat>, r': nat, c': nat)
    requires l.B.cols == l'.B.cols
    requires forall k | 0 <= k < l.B.cols :: Term(l.B, l.A, b, r, c, k) == Term(l'.B, l'.A, b', r', c', k)
    ensures Materialize(l).at(b, r, c) == Materialize(l').at(b', r', c')
  {
    DotSame(l.B, l.A, b, r, c, l'.B, l'.A, b', r', c', l.B.cols);
  }

  // ----- scaling -----

  /**
   `self * x`: only for a number (all sizes 1) or a tensor with a single column. The
   library refuses sizes that do not fit; the constructor refuses additional dimensions.
   */
  function Mul(l: Lora, x: Tensor): Option<Lora> {
    if !Scales(l.B, x) then None else Build(l.A, ScaleRows(l.B, x))
  }

  /** Scaling the B factor is accepted where scaling the product adds no dimension, and scales the product. */
  lemma {:induction false} MulMeansScale(l: Lora, x: Tensor)
    requires Denotes(l)
    ensures Mul(l, x).Some? <==> Scales(Materialize(l), x)
    ensures Mul(l, x).Some? ==>
              Denotes(Mul(l, x).value) && Same(Materialize(Mul(l, x).value), ScaleRows(Materialize(l), x))
  {
    if Scales(l.B, x) {
      forall b: seq<nat>, r: nat, c: nat
        ensures Materialize(Mul(l, x).value).at(b, r, c) == ScaleRows(Materialize(l), x).at(b, r, c)
      {
        ScaledEntry(l, x, b, r, c);
      }
    }
  }

  /**
   Entry by entry: the number that multiplies an entry of the product is found in `x` at the
   same index, lined up at the end, with 0 where `x` is repeated.
   */
  lemma MulScalesEntries(l: Lora, x: Tensor, b: seq<nat>, r: nat, c: nat, b': seq<nat>, r': nat)
    requires Denotes(l) && Mul(l, x).Some? && Shape(Materialize(Mul(l, x).value)) == Shape(Materialize(l))
    requires InShape(b + [r, c], Shape(Materialize(l)))
    requires |b'| == |x.batch| <= |b| && r' == (if x.rows == 1 then 0 else r)
    requires forall d | 0 <= d < |b'| :: b'[d] == if x.batch[d] == 1 then 0 else b[|b| - |b'| + d]
    ensures Materialize(Mul(l, x).value).at(b, r, c) == Materialize(l).at(b, r, c) * x.at(b', r', 0)
  {
    MulMeansScale(l, x);
    InParts(b + [r, c], l.B.batch, l.B.rows, l.A.cols);
    assert (b + [r, c])[..|b|] == b;
    SameShapeSame(Materialize(Mul(l, x).value), Materialize(l));
    ScaledByEntry(Materialize(l), x, b, r, c, b', r');
  }

  lemma ScaledByEntry(t: Tensor, x: Tensor, b: seq<nat>, r: nat, c: nat, b': seq<nat>, r': nat)
    requires Scales(t, x) && InShape(b, t.batch) && r < t.rows
    requires |b'| == |x.batch| && r' == (if x.rows == 1 then 0 else r)
    requires forall d | 0 <= d < |b'| :: b'[d] == if x.batch[d] == 1 then 0 else b[|b| - |b'| + d]
    ensures ScaleRows(t, x).at(b, r, c) == t.at(b, r, c) * x.at(b', r', 0)
  {
    assert Broadcast(b, t.batch) == b && BroadcastRow(r, t.rows) == r;
    assert Broadcast(Last(b, |x.batch|), x.batch) == b' && BroadcastRow(r, x.rows) == r';
    assert ScaleRows(t, x).at(b, r, c) ==
           t.at(Broadcast(b, t.batch), BroadcastRow(r, t.rows), c) *
           x.at(Broadcast(Last(b, |x.batch|), x.batch), BroadcastRow(r, x.rows), 0);
  }

  lemma ScaledEntry(l: Lora, x: Tensor, b: seq<nat>, r: nat, c: nat)
    requires Denotes(l) && Scales(l.B, x) && Scales(Materialize(l), x)
    ensures Product(ScaleRows(l.B, x), l.A).at(b, r, c) == ScaleRows(Materialize(l), x).at(b, r, c)
  {
    RepeatTwice(b, l.B.batch, l.A.batch);
    ScaledDot(l, x, b, r, c, l.B.cols);
  }

  /** Repeating along the dimensions of size 1 of B changes nothing for A. */
  lemma RepeatTwice(b: seq<nat>, shapeB: seq<nat>, shapeA: seq<nat>)
    requires |shapeA| == |shapeB| && forall d | 0 <= d < |shapeA| :: shapeA[d] == 1 || shapeA[d] == shapeB[d]
    ensures Broadcast(Broadcast(b, shapeB), shapeA) == Broadcast(b, shapeA)
  {
  }

  /** The number that row `r` in batch `b` is multiplied by. */
  function Factor(x: Tensor, b: seq<nat>, r: nat): real {
    x.at(Broadcast(Last(b, |x.batch|), x.batch), BroadcastRow(r, x.rows), 0)
  }

  lemma ScaledTerm(l: Lora, x: Tensor, b: seq<nat>, r: nat, c: nat, k: nat)
    requires Scales(l.B, x)
    requires Broadcast(Broadcast(b, l.B.batch), l.A.batch) == Broadcast(b, l.A.batch)
    ensures Term(ScaleRows(l.B, x), l.A, b, r, c, k) ==
            Term(l.B, l.A, Broadcast(b, l.B.batch), BroadcastRow(r, l.B.rows), c, k) * Factor(x, b, r)
  {
    Commute(l.B.at(Broadcast(b, l.B.batch), BroadcastRow(r, l.B.rows), k), Factor(x, b, r), l.A.at(Broadcast(b, l.A.batch), k, c));
  }

  lemma Commute(p: real, s: real, a: real)
    ensures (p * s) * a == (p * a) * s
  {
  }

  lemma {:induction false} ScaledDot(l: Lora, x: Tensor, b: seq<nat>, r: nat, c: nat, n: nat)
    requires Scales(l.B, x)
    requires Broadcast(Broadcast(b, l.B.batch), l.A.batch) == Broadcast(b, l.A.batch)
    ensures Dot(ScaleRows(l.B, x), l.A, b, r, c, n) ==
            Dot(l.B, l.A, Broadcast(b, l.B.batch), BroadcastRow(r, l.B.rows), c, n) * Factor(x, b, r)
  {
    if n > 0 {
      ScaledDot(l, x, b, r, c, n - 1);
      ScaledTerm(l, x, b, r, c, n - 1);
      var b', r' := Broadcast(b, l.B.batch), BroadcastRow(r, l.B.rows);
      var d, t := Dot(l.B, l.A, b', r', c, n - 1), Term(l.B, l.A, b', r', c, n - 1);
      ScaledSum(Dot(ScaleRows(l.B, x), l.A, b, r, c, n - 1), Term(ScaleRows(l.B, x), l.A, b, r, c, n - 1),
                d, t, Factor(x, b, r));
      assert Dot(l.B, l.A, b', r', c, n) == d + t;
    }
  }

  lemma ScaledSum(d': real, t': real, d: real, t: real, s: real)
    requires d' == d * s && t' == t * s
    ensures d' + t' == (d + t) * s
  {
  }

  // ----- splitting -----

  /** One chunk of `split`: the column dimension cuts A, the row dimension B, a batch dimension both. */
  function Chunk(l: Lora, dim: nat, lo: nat, len: nat): Option<Lora>
    requires Denotes(l) && dim < |l.B.batch| + 2
  {
    if dim == |l.B.batch| + 1 then Build(NarrowCols(l.A, lo, len), l.B)
    else if dim == |l.B.batch| then Build(l.A, NarrowRows(l.B, lo, len))
    else if l.A.batch[dim] == 1 then Build(l.A, NarrowBatch(l.B, dim, lo, len))
    else Build(NarrowBatch(l.A, dim, lo, len), NarrowBatch(l.B, dim, lo, len))
  }

  function Split(l: Lora, sizes: seq<nat>, dim: nat, lo: nat): seq<Option<Lora>>
    requires Denotes(l) && dim < |l.B.batch| + 2
    decreases |sizes|
  {
    if sizes == [] then []
    else [Chunk(l, dim, lo, sizes[0])] + Split(l, sizes[1..], dim, lo + sizes[0])
  }

  lemma {:induction false} ChunkMeansNarrow(l: Lora, dim: nat, lo: nat, len: nat)
    requires Denotes(l) && dim < |l.B.batch| + 2
    ensures var r := Chunk(l, dim, lo, len);
            r.Some? && Denotes(r.value) && Same(Materialize(r.value), Narrow(Materialize(l), dim, lo, len))
  {
    var m := Chunk(l, dim, lo, len).value;
    forall b: seq<nat>, r: nat, c: nat | InShape(b, m.B.batch)
      ensures Materialize(m).at(b, r, c) == Narrow(Materialize(l), dim, lo, len).at(b, r, c)
    {
      if dim == |l.B.batch| + 1 {
        SameEntry(m, b, r, c, l, b, r, lo + c);
      } else if dim == |l.B.batch| {
        SameEntry(m, b, r, c, l, b, lo + r, c);
      } else {
        ShiftedBroadcast(l, m, dim, lo, len, b);
        SameEntry(m, b, r, c, l, Shift(b, dim, lo), r, c);
      }
    }
  }

  lemma ShiftedBroadcast(l: Lora, m: Lora, dim: nat, lo: nat, len: nat, b: seq<nat>)
    requires Denotes(l) && dim < |l.B.batch| && Chunk(l, dim, lo, len) == Some(m) && InShape(b, m.B.batch)
    ensures Broadcast(Shift(b, dim, lo), l.A.batch) ==
            if l.A.batch[dim] == 1 then Broadcast(b, m.A.batch) else Shift(Broadcast(b, m.A.batch), dim, lo)
  {
  }

  /** Every chunk means the chunk of the product. */
  lemma {:induction false} SplitMeansSplit(l: Lora, sizes: seq<nat>, dim: nat, lo: nat)
    requires Denotes(l) && dim < |l.B.batch| + 2
    ensures var parts, chunks := Split(l, sizes, dim, lo), SplitFrom(Materialize(l), sizes, dim, lo);
            |parts| == |chunks| &&
            forall c | 0 <= c < |parts| :: parts[c].Some? && Same(Materialize(parts[c].value), chunks[c])
    decreases |sizes|
  {
    if sizes != [] {
      ChunkMeansNarrow(l, dim, lo, sizes[0]);
      SplitMeansSplit(l, sizes[1..], dim, lo + sizes[0]);
    }
  }

  lemma {:induction false} SplitAt(l: Lora, sizes: seq<nat>, dim: nat, lo: nat, k: nat)
    requires Denotes(l) && dim < |l.B.batch| + 2 && k < |sizes|
    ensures |Split(l, sizes, dim, lo)| == |sizes|
    ensures Split(l, sizes, dim, lo)[k] == Chunk(l, dim, lo + SumOf(sizes[..k]), sizes[k])
    decreases |sizes|
  {
    if k > 0 {
      SplitAt(l, sizes[1..], dim, lo + sizes[0], k - 1);
      assert sizes[..k][1..] == sizes[1..][..k - 1];
    } else if |sizes| > 1 {
      SplitAt(l, sizes[1..], dim, lo + sizes[0], 0);
    }
  }

  /**
   Entry by entry: position `p` of part `k` is the position of the product that comes `p`
   after all the parts before, in rows, columns and every batch dimension.
   */
  lemma SplitMovesEntries(l: Lora, sizes: seq<nat>, dim: nat, lo: nat, k: nat, i: seq<nat>)
    requires Denotes(l) && dim < |l.B.batch| + 2 && k < |sizes|
    requires InShape(i, Shape(Materialize(l))[dim := sizes[k]])
    ensures var parts := Split(l, sizes, dim, lo);
            |parts| == |sizes| && parts[k].Some? && Denotes(parts[k].value) &&
            Shape(Materialize(parts[k].value)) == Shape(Materialize(l))[dim := sizes[k]] &&
            Entry(Materialize(parts[k].value), i) == Entry(Materialize(l), i[dim := lo + SumOf(sizes[..k]) + i[dim]])
  {
    var at := lo + SumOf(sizes[..k]);
    SplitAt(l, sizes, dim, lo, k);
    ChunkMeansNarrow(l, dim, at, sizes[k]);
    NarrowEntry(Materialize(l), dim, at, sizes[k], i);
    ChunkEntry(Materialize(Chunk(l, dim, at, sizes[k]).value), Materialize(l), dim, at, sizes[k], i);
  }

  lemma ChunkEntry(t: Tensor, u: Tensor, dim: nat, lo: nat, len: nat, i: seq<nat>)
    requires dim < |u.batch| + 2 && Same(t, Narrow(u, dim, lo, len)) && InShape(i, Shape(u)[dim := len])
    ensures Shape(t) == Shape(u)[dim := len] && Entry(t, i) == Entry(u, i[dim := lo + i[dim]])
  {
    NarrowEntry(u, dim, lo, len, i);
    SameEntries(t, Narrow(u, dim, lo, len), i);
  }

  /** The products of all parts of a split. */
  function PartProducts(l: Lora, sizes: seq<nat>, dim: nat): (ts: seq<Tensor>)
    requires Denotes(l) && dim < |l.B.batch| + 2
    ensures |ts| == |sizes|
  {
    seq(|sizes|, k requires 0 <= k < |sizes| =>
      SplitAt(l, sizes, dim, 0, k);
      ChunkMeansNarrow(l, dim, 0 + SumOf(sizes[..k]), sizes[k]);
      Materialize(Split(l, sizes, dim, 0)[k].value))
  }

  /** Joining the products of the parts gives the product back. */
  lemma SplitIsUndone(l: Lora, sizes: seq<nat>, dim: nat)
    requires Denotes(l) && dim < |l.B.batch| + 2 && sizes != []
    requires SumOf(sizes) == Shape(Materialize(l))[dim]
    ensures IsCat(Materialize(l), PartProducts(l, sizes, dim), dim)
  {
    var t, ts := Materialize(l), PartProducts(l, sizes, dim);
    forall k | 0 <= k < |ts| ensures Shape(ts[k]) == Shape(t)[dim := sizes[k]] && |ts[k].batch| == |t.batch| {
      PartShape(l, sizes, dim, k);
    }
    assert SizesAlong(ts, dim) == sizes;
    assert Shape(ts[0])[dim := SumOf(sizes)] == Shape(t);
    forall k | 0 <= k < |ts| ensures IsPartOf(ts[k], t, dim, SumOf(sizes[..k])) {
      IsPartOfProduct(l, sizes, dim, k);
    }
  }

  lemma IsPartOfProduct(l: Lora, sizes: seq<nat>, dim: nat, k: nat)
    requires Denotes(l) && dim < |l.B.batch| + 2 && k < |sizes|
    ensures IsPartOf(PartProducts(l, sizes, dim)[k], Materialize(l), dim, SumOf(sizes[..k]))
  {
    PartShape(l, sizes, dim, k);
    var t := PartProducts(l, sizes, dim)[k];
    forall i: seq<nat> | InShape(i, Shape(t)) ensures Entry(t, i) == Entry(Materialize(l), i[dim := SumOf(sizes[..k]) + i[dim]]) {
      SplitMovesEntries(l, sizes, dim, 0, k, i);
    }
  }

  lemma PartShape(l: Lora, sizes: seq<nat>, dim: nat, k: nat)
    requires Denotes(l) && dim < |l.B.batch| + 2 && k < |sizes|
    ensures var t := PartProducts(l, sizes, dim)[k];
            Shape(t) == Shape(Materialize(l))[dim := sizes[k]] && |t.batch| == |l.B.batch|
  {
    SplitAt(l, sizes, dim, 0, k);
    var at := SumOf(sizes[..k]);
    ChunkMeansNarrow(l, dim, at, sizes[k]);
    NarrowEntry(Materialize(l), dim, at, sizes[k], seq(|l.B.batch| + 2, d => 0));
  }

  /** The equal chunk sizes of an integer split cover the dimension, none larger than asked. */
  lemma {:induction false} EqualSizesCover(n: nat, size: nat)
    requires size > 0
    ensures var sizes := EqualSizes(n, size);
            SumOf(sizes) == n && sizes != [] &&
            (forall c | 0 <= c < |sizes| - 1 :: sizes[c] == size) && sizes[|sizes| - 1] <= size
  {
    if n > size {
      EqualSizesCover(n - size, size);
    }
  }

  // ----- permuting -----

  predicate AllOnes(shape: seq<nat>) {
    forall d | 0 <= d < |shape| :: shape[d] == 1
  }

  /** `permute(dims)`: the last dimension stays last, or a plain matrix is transposed. */
  function Permute(l: Lora, dims: seq<nat>): Option<Lora>
    requires IsOrdering(dims, |l.B.batch| + 2)
  {
    var n := |dims|;
    if dims[n - 1] == n - 1 then
      if AllOnes(l.A.batch) then Build(l.A, PermuteLeading(l.B, dims[..n - 1])) else None
    else if n == 2 && dims[1] == 0 && dims[0] == 1 then Build(Transposed(l.B), Transposed(l.A))
    else None
  }

  /** What `permute` means, in the two cases that are implemented. */
  function PermuteTensor(t: Tensor, dims: seq<nat>): Tensor
    requires IsOrdering(dims, |t.batch| + 2)
    requires dims[|dims| - 1] == |dims| - 1 || dims == [1, 0]
  {
    if dims[|dims| - 1] == |dims| - 1 then PermuteLeading(t, dims[..|dims| - 1]) else Transposed(t)
  }

  /** Permuting the factors means permuting the product. */
  lemma {:induction false} PermuteMeansPermute(l: Lora, dims: seq<nat>)
    requires Denotes(l) && IsOrdering(dims, |l.B.batch| + 2)
    requires Permute(l, dims).Some?
    ensures Denotes(Permute(l, dims).value)
    ensures Same(Materialize(Permute(l, dims).value), PermuteTensor(Materialize(l), dims))
  {
    var m := Permute(l, dims).value;
    var n := |dims| - 1;
    if dims[n] == n {
      forall b: seq<nat>, r: nat, c: nat | InShape(b, m.B.batch)
        ensures Materialize(m).at(b, r, c) == PermuteTensor(Materialize(l), dims).at(b, r, c)
      {
        var i := Unpermuted(b + [r], dims[..n]);
        assert Broadcast(b, l.A.batch) == Broadcast(i[..n - 1], l.A.batch);
        SameEntry(m, b, r, c, l, i[..n - 1], i[n - 1], c);
      }
    } else {
      forall b: seq<nat>, r: nat, c: nat | InShape(b, m.B.batch)
        ensures Materialize(m).at(b, r, c) == Materialize(l).at(b, c, r)
      {
        assert Broadcast([], l.A.batch) == [] == Broadcast([], m.A.batch);
        SameEntry(m, b, r, c, l, b, c, r);
      }
    }
  }

  /** `transpose(x, y)`: the permutation that swaps two dimensions. */
  function SwapDims(n: nat, x: nat, y: nat): (dims: seq<nat>)
    requires x < n && y < n
    ensures IsOrdering(dims, n)
  {
    seq(n, d requires 0 <= d < n => if d == x then y else if d == y then x else d)
  }

  /** An index with two of its numbers exchanged. */
  function Swapped(i: seq<nat>, x: nat, y: nat): (j: seq<nat>)
    requires x < |i| && y < |i|
    ensures |j| == |i|
  {
    i[x := i[y]][y := i[x]]
  }

  /**
   `transpose(x, y)` is implemented for the two dimensions of a matrix; and, when the
   leading dimensions of A are 1, for two dimensions other than the last and for a
   dimension with itself.
   */
  lemma TransposeIsAccepted(l: Lora, x: nat, y: nat)
    requires Denotes(l) && x < |l.B.batch| + 2 && y < |l.B.batch| + 2
    ensures Permute(l, SwapDims(|l.B.batch| + 2, x, y)).Some? <==>
            if (x <= |l.B.batch| && y <= |l.B.batch|) || x == y then AllOnes(l.A.batch) else l.B.batch == []
  {
    var n := |l.B.batch| + 2;
    var dims := SwapDims(n, x, y);
    if n == 2 && x != y {
      assert dims[1] == 0 && dims[0] == 1;
    }
  }

  /** Every entry moves to the index with x and y exchanged. */
  lemma TransposeSwaps(l: Lora, x: nat, y: nat, i: seq<nat>, c: nat)
    requires Denotes(l) && x <= |l.B.batch| && y <= |l.B.batch| && AllOnes(l.A.batch)
    requires InShape(i, l.B.batch + [l.B.rows]) && c < l.A.cols
    ensures var m := Permute(l, SwapDims(|l.B.batch| + 2, x, y));
            var k := |l.B.batch|;
            var j := Swapped(i, x, y);
            m.Some? && Denotes(m.value) &&
            m.value.B.batch + [m.value.B.rows] == Swapped(l.B.batch + [l.B.rows], x, y) &&
            Materialize(m.value).at(j[..k], j[k], c) == Materialize(l).at(i[..k], i[k], c)
  {
    var k := |l.B.batch|;
    var dims := SwapDims(k + 1, x, y);
    TransposedShape(l, x, y);
    var m := Permute(l, SwapDims(k + 2, x, y)).value;
    SwappedIsPermuted(i, x, y);
    PermuteMovesEntries(Materialize(l), dims, i, c);
    SwappedInShape(i, l.B.batch + [l.B.rows], x, y);
    EntryOfSame(Materialize(m), PermuteLeading(Materialize(l), dims), Swapped(i, x, y), c);
  }

  lemma EntryOfSame(t: Tensor, u: Tensor, j: seq<nat>, c: nat)
    requires Same(t, u) && InShape(j, t.batch + [t.rows]) && c < t.cols
    ensures t.at(j[..|t.batch|], j[|t.batch|], c) == u.at(j[..|t.batch|], j[|t.batch|], c)
  {
    InRow(j, t.batch, t.rows);
  }

  /** The case in which the last dimension stays last. */
  lemma LeadingPermuted(l: Lora, dims: seq<nat>)
    requires Denotes(l) && IsOrdering(dims, |l.B.batch| + 2) && IsOrdering(dims[..|dims| - 1], |l.B.batch| + 1)
    requires dims[|dims| - 1] == |dims| - 1 && AllOnes(l.A.batch)
    ensures Permute(l, dims) == Some(Lora(l.A, PermuteLeading(l.B, dims[..|dims| - 1])))
    ensures var m := Lora(l.A, PermuteLeading(l.B, dims[..|dims| - 1]));
            Denotes(m) && Same(Materialize(m), PermuteLeading(Materialize(l), dims[..|dims| - 1]))
  {
    PermuteMeansPermute(l, dims);
  }

  lemma TransposedShape(l: Lora, x: nat, y: nat)
    requires Denotes(l) && x <= |l.B.batch| && y <= |l.B.batch| && AllOnes(l.A.batch)
    ensures var m := Permute(l, SwapDims(|l.B.batch| + 2, x, y));
            m.Some? && Denotes(m.value) && m.value.A.cols == l.A.cols &&
            m.value.B.batch + [m.value.B.rows] == Swapped(l.B.batch + [l.B.rows], x, y) &&
            Same(Materialize(m.value), PermuteLeading(Materialize(l), SwapDims(|l.B.batch| + 1, x, y)))
  {
    var k := |l.B.batch|;
    SwapWithoutLast(k + 1, x, y);
    LeadingPermuted(l, SwapDims(k + 2, x, y));
    PermutedShape(l.B, SwapDims(k + 1, x, y));
    SwappedIsPermuted(l.B.batch + [l.B.rows], x, y);
  }

  lemma SwapWithoutLast(n: nat, x: nat, y: nat)
    requires x < n && y < n
    ensures SwapDims(n + 1, x, y)[..n] == SwapDims(n, x, y) && SwapDims(n + 1, x, y)[n] == n
  {
  }

  lemma InRow(j: seq<nat>, batch: seq<nat>, rows: nat)
    requires InShape(j, batch + [rows])
    ensures InShape(j[..|batch|], batch) && j[|batch|] < rows
  {
    forall d | 0 <= d < |batch| ensures j[..|batch|][d] < batch[d] {
      assert (batch + [rows])[d] == batch[d];
    }
    assert (batch + [rows])[|batch|] == rows;
  }

  lemma SwappedIsPermuted(i: seq<nat>, x: nat, y: nat)
    requires x < |i| && y < |i|
    ensures Permuted(i, SwapDims(|i|, x, y)) == Swapped(i, x, y)
  {
  }

  lemma SwappedInShape(i: seq<nat>, shape: seq<nat>, x: nat, y: nat)
    requires InShape(i, shape) && x < |i| && y < |i|
    ensures InShape(Swapped(i, x, y), Swapped(shape, x, y))
  {
  }

  /** Transposing a matrix exchanges rows and columns. */
  lemma MatrixTransposes(l: Lora, r: nat, c: nat)
    requires Denotes(l) && l.B.batch == [] && r < l.B.rows && c < l.A.cols
    ensures var m := Permute(l, SwapDims(2, 0, 1));
            m.Some? && Denotes(m.value) && m.value.B.rows == l.A.cols && m.value.A.cols == l.B.rows &&
            Materialize(m.value).at([], c, r) == Materialize(l).at([], r, c)
  {
    TransposeIsAccepted(l, 0, 1);
    PermuteMeansPermute(l, SwapDims(2, 0, 1));
  }
}
