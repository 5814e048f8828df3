/**
 Reshaping a `LoraTorchTensor`: which requests are accepted, and that the reshaped
 factors denote the reshaped product. A request may leave sizes open with -1; the row
 size cannot change, and A becomes a single matrix.
 */
module LoraShapes {
  import opened Options
  import opened Tensors
  import opened LoraTensor

  // ----- reshape -----

  function ProductOf(dims: seq<int>): int {
    if dims == [] then 1 else ProductOf(dims[..|dims| - 1]) * (if dims[|dims| - 1] == -1 then 1 else dims[|dims| - 1])
  }

  predicate HasUnknown(dims: seq<int>) {
    exists d | 0 <= d < |dims| :: dims[d] == -1
  }

  predicate AllSizes(dims: seq<int>) {
    forall d | 0 <= d < |dims| :: dims[d] >= -1
  }

  function Filled(dims: seq<int>, q: nat): (shape: seq<nat>)
    requires AllSizes(dims)
    ensures |shape| == |dims|
  {
    seq(|dims|, d requires 0 <= d < |dims| => if dims[d] == -1 then q else dims[d])
  }

  /** Every -1 in the new shape replaced by what is missing; None where the source asserts or the library raises. */
  function ExpandShape(dims: seq<int>, elements: nat): Option<seq<nat>> {
    if !AllSizes(dims) then None
    else if !HasUnknown(dims) then Some(Filled(dims, 0))
    else
      var known := ProductOf(dims);
      if known <= 0 || Remainder(elements, known) != 0 then None
      else Some(Filled(dims, Quotient(elements, known)))
  }

  function Ones(n: nat): seq<nat> {
    seq(n, _ => 1)
  }

  function Reshape(l: Lora, dims: seq<int>): Option<Lora>
    requires Denotes(l)
  {
    if |dims| < 2 then None
    else
      var shape :- ExpandShape(dims, Size(l.B.batch) * l.B.rows * l.A.cols);
      var n := |shape|;
      if n < 2 || shape[n - 1] != l.A.cols then None
      else
        var a :- ReshapeRows(l.A, Ones(n - 2), l.B.cols);
        var b :- ReshapeRows(l.B, shape[..n - 2], shape[n - 2]);
        Build(a, b)
  }

  lemma {:induction false} SizeOfOnes(n: nat)
    ensures Size(Ones(n)) == 1
  {
    if n > 0 {
      SizeOfOnes(n - 1);
      assert Ones(n)[..n - 1] == Ones(n - 1);
    }
  }

  lemma {:induction false} SizeOneIsOnes(shape: seq<nat>)
    requires Size(shape) == 1
    ensures AllOnes(shape)
  {
    if shape != [] {
      var rest, last := Size(shape[..|shape| - 1]), shape[|shape| - 1];
      UnitFactors(rest, last);
      SizeOneIsOnes(shape[..|shape| - 1]);
    }
  }

  lemma UnitFactors(x: nat, y: nat)
    requires x * y == 1
    ensures x == 1 && y == 1
  {
    if x > 1 && y > 0 {
      ProductAtLeast(x, y);
    } else if x == 1 {
      assert x * y == y;
    }
  }

  function Zeros(n: nat): seq<nat> {
    seq(n, _ => 0)
  }

  lemma {:induction false} FirstPosition(shape: seq<nat>)
    requires AllOnes(shape)
    ensures Flat(Zeros(|shape|), shape) == 0 && Unflat(0, shape) == Zeros(|shape|)
  {
    var n := |shape|;
    if n > 0 {
      FirstPosition(shape[..n - 1]);
      assert Zeros(n)[..n - 1] == Zeros(n - 1) && Zeros(n) == Zeros(n - 1) + [0];
      assert Quotient(0, 1) == 0 && Remainder(0, 1) == 0;
    }
  }

  lemma BroadcastOnes(b: seq<nat>, shape: seq<nat>)
    requires |b| == |shape| && AllOnes(shape)
    ensures Broadcast(b, shape) == Zeros(|shape|)
  {
  }

  /** Reshaping A adds or drops batch dimensions of size 1 and keeps the matrix. */
  lemma {:induction false} ReshapedA(A: Tensor, n: nat, b: seq<nat>, b': seq<nat>, k: nat, c: nat)
    requires AllOnes(A.batch) && ReshapeRows(A, Ones(n), A.rows).Some?
    requires |b| == n && |b'| == |A.batch| && k < A.rows
    ensures var a := ReshapeRows(A, Ones(n), A.rows).value;
            a.at(Broadcast(b, a.batch), k, c) == A.at(Broadcast(b', A.batch), k, c)
  {
    BroadcastOnes(b, Ones(n));
    BroadcastOnes(b', A.batch);
    FirstPosition(Ones(n));
    FirstPosition(A.batch);
    assert FlatRow(Zeros(n), k, Ones(n), A.rows) == k;
    assert Quotient(k, A.rows) == 0 && Remainder(k, A.rows) == k;
  }

  /** The factors can only be reshaped when A is a single matrix, or holds no entry at all. */
  lemma ReshapableA(A: Tensor, n: nat)
    requires A.rows > 0 && ReshapeRows(A, Ones(n), A.rows).Some?
    ensures A.cols == 0 || AllOnes(A.batch)
  {
    SizeOfOnes(n);
    if A.cols > 0 {
      assert 1 * A.rows * A.cols == A.rows * A.cols;
      Cancel(1 * A.rows, Size(A.batch) * A.rows, A.cols);
      Cancel(1, Size(A.batch), A.rows);
      SizeOneIsOnes(A.batch);
    }
  }

  /** The shape is the requested one wherever the request is not -1. */
  predicate Agrees(shape: seq<nat>, dims: seq<int>) {
    |shape| == |dims| && forall d | 0 <= d < |dims| :: dims[d] != -1 ==> shape[d] == dims[d]
  }

  /**
   Reshaping the factors, for every request that is accepted: the shape is the requested
   one, and when the product has as many entries the result is the reshaped product. It
   always has unless the rank is 0.
   */
  lemma {:induction false} ReshapeMeansReshape(l: Lora, dims: seq<int>)
    requires Denotes(l) && Reshape(l, dims).Some?
    ensures var m := Reshape(l, dims).value;
            var w := ReshapeRows(Materialize(l), m.B.batch, m.B.rows);
            Denotes(m) && Agrees(m.B.batch + [m.B.rows, m.A.cols], dims) &&
            (l.B.cols > 0 ==> w.Some?) && (w.Some? ==> Same(Materialize(m), w.value))
  {
    var m := Reshape(l, dims).value;
    var n := |m.B.batch|;
    ReshapedShape(l, dims);
    if l.B.cols > 0 {
      ReshapableA(l.A, n);
      Cancel(Size(m.B.batch) * m.B.rows, Size(l.B.batch) * l.B.rows, l.B.cols);
      var w := ReshapeRows(Materialize(l), m.B.batch, m.B.rows).value;
      forall b: seq<nat>, r: nat, c: nat | InShape(b, m.B.batch) && c < l.A.cols
        ensures Materialize(m).at(b, r, c) == w.at(b, r, c)
      {
        ReshapedEntry(l, m, b, r, c);
      }
    } else {
      ReshapedZeros(l, m);
    }
  }

  /** A product of rank 0 has only zeros. */
  lemma ReshapedZeros(l: Lora, m: Lora)
    requires l.B.cols == 0 && m.B.cols == 0 && m.A.cols == l.A.cols
    ensures var w := ReshapeRows(Materialize(l), m.B.batch, m.B.rows);
            w.Some? ==> Same(Materialize(m), w.value)
  {
    var w := ReshapeRows(Materialize(l), m.B.batch, m.B.rows);
    if w.Some? {
      forall b: seq<nat>, r: nat, c: nat | InShape(b, m.B.batch)
        ensures Materialize(m).at(b, r, c) == w.value.at(b, r, c)
      {
        var p := FlatRow(b, r, m.B.batch, m.B.rows);
        assert w.value.at(b, r, c) == Materialize(l).at(Unflat(Quotient(p, l.B.rows), l.B.batch), Remainder(p, l.B.rows), c);
        assert Dot(m.B, m.A, b, r, c, 0) == 0.0;
      }
    }
  }

  /** With rank 0 the factors hold no entry, and a matrix of two rows is reshaped to three. */
  lemma RankZeroReshapes(l: Lora)
    requires Denotes(l) && l.B.batch == [] && l.B.rows == 2 && l.B.cols == 0 && l.A.cols > 0
    ensures Reshape(l, [3, l.A.cols as int]).Some?
    ensures ReshapeRows(Materialize(l), [], 3).None?
  {
    var dims: seq<int> := [3, l.A.cols as int];
    var shape: seq<nat> := [3, l.A.cols];
    FilledIs(dims, shape, 0);
    assert shape[..0] == [] && Size([]) == 1;
  }

  lemma ReshapedEntry(l: Lora, m: Lora, b: seq<nat>, r: nat, c: nat)
    requires Denotes(l) && AllOnes(l.A.batch) && InShape(b, m.B.batch) && c < l.A.cols
    requires ReshapeRows(l.A, Ones(|m.B.batch|), l.B.cols) == Some(m.A)
    requires ReshapeRows(l.B, m.B.batch, m.B.rows) == Some(m.B)
    requires ReshapeRows(Materialize(l), m.B.batch, m.B.rows).Some?
    ensures Materialize(m).at(b, r, c) == ReshapeRows(Materialize(l), m.B.batch, m.B.rows).value.at(b, r, c)
  {
    var p := FlatRow(b, r, m.B.batch, m.B.rows);
    var b', r' := Unflat(Quotient(p, l.B.rows), l.B.batch), Remainder(p, l.B.rows);
    forall k | 0 <= k < l.B.cols ensures Term(m.B, m.A, b, r, c, k) == Term(l.B, l.A, b', r', c, k) {
      ReshapedA(l.A, |m.B.batch|, b, b', k, c);
    }
    SameEntry(m, b, r, c, l, b', r', c);
  }

  lemma ReshapedShape(l: Lora, dims: seq<int>)
    requires Denotes(l) && Reshape(l, dims).Some?
    ensures var m := Reshape(l, dims).value;
            var shape := m.B.batch + [m.B.rows, m.A.cols];
            ExpandShape(dims, Size(l.B.batch) * l.B.rows * l.A.cols) == Some(shape) && Agrees(shape, dims) &&
            ReshapeRows(l.A, Ones(|m.B.batch|), l.B.cols) == Some(m.A) &&
            ReshapeRows(l.B, m.B.batch, m.B.rows) == Some(m.B)
  {
    var shape := ExpandShape(dims, Size(l.B.batch) * l.B.rows * l.A.cols).value;
    var n := |shape|;
    assert shape == shape[..n - 2] + [shape[n - 2], shape[n - 1]];
  }

  // ----- which requests are accepted -----

  predicate AtMostOneUnknown(dims: seq<int>) {
    forall d, e | 0 <= d < e < |dims| :: dims[d] != -1 || dims[e] != -1
  }

  /** The tensor library finds a shape of this size for the request, ending in a row of `cols`. */
  ghost predicate LibraryReshapes(dims: seq<int>, elements: nat, cols: nat) {
    (HasUnknown(dims) ==> ProductOf(dims) > 0) &&
    exists shape: seq<nat> :: Agrees(shape, dims) && EndsWith(shape, cols) && Size(shape) == elements
  }

  predicate EndsWith(shape: seq<nat>, cols: nat) {
    |shape| >= 2 && shape[|shape| - 1] == cols
  }

  lemma {:induction false} KnownSize(shape: seq<nat>, dims: seq<int>)
    requires Agrees(shape, dims) && !HasUnknown(dims)
    ensures Size(shape) == ProductOf(dims)
  {
    if dims != [] {
      var n := |dims| - 1;
      KnownSize(shape[..n], dims[..n]);
    }
  }

  /** The size is the product of the known dimensions times the unknown one. */
  lemma {:induction false} SizeByUnknown(shape: seq<nat>, dims: seq<int>, k: nat)
    requires Agrees(shape, dims) && AtMostOneUnknown(dims) && k < |dims| && dims[k] == -1
    ensures Size(shape) == ProductOf(dims) * shape[k]
    decreases |dims|
  {
    var n := |dims| - 1;
    if k == n {
      KnownSize(shape[..n], dims[..n]);
    } else {
      SizeByUnknown(shape[..n], dims[..n], k);
      Rearrange(ProductOf(dims[..n]), shape[k], shape[n]);
    }
  }

  lemma Rearrange(p: int, q: int, r: int)
    ensures (p * q) * r == (p * r) * q
  {
  }

  lemma FilledIs(dims: seq<int>, shape: seq<nat>, q: nat)
    requires Agrees(shape, dims) && forall d | 0 <= d < |dims| :: dims[d] == -1 ==> shape[d] == q
    ensures AllSizes(dims) && Filled(dims, q) == shape
  {
  }

  /** Filling in the unknown dimension finds the shape that the library finds. */
  lemma ExpandFinds(dims: seq<int>, shape: seq<nat>)
    requires Agrees(shape, dims) && AtMostOneUnknown(dims) && (HasUnknown(dims) ==> ProductOf(dims) > 0)
    ensures ExpandShape(dims, Size(shape)) == Some(shape)
  {
    if HasUnknown(dims) {
      var k :| 0 <= k < |dims| && dims[k] == -1;
      FilledIs(dims, shape, shape[k]);
      SizeByUnknown(shape, dims, k);
      DividesBy(Size(shape), ProductOf(dims), shape[k]);
    } else {
      FilledIs(dims, shape, 0);
    }
  }

  lemma DividesBy(n: nat, d: nat, q: nat)
    requires d > 0 && n == d * q
    ensures Quotient(n, d) == q && Remainder(n, d) == 0
  {
    DivMod(q, d, 0);
    assert q * d + 0 == n;
  }

  lemma SizeOfRows(shape: seq<nat>, cols: nat)
    requires EndsWith(shape, cols)
    ensures Size(shape) == Size(shape[..|shape| - 2]) * shape[|shape| - 2] * cols
  {
    var n := |shape|;
    assert shape[..n - 1][..n - 2] == shape[..n - 2];
  }

  lemma ReshapeAcceptedFits(l: Lora, dims: seq<int>)
    requires Denotes(l) && l.B.cols > 0 && l.A.cols > 0 && Reshape(l, dims).Some?
    ensures AllOnes(l.A.batch) && LibraryReshapes(dims, Size(l.B.batch) * l.B.rows * l.A.cols, l.A.cols)
  {
    ReshapedShape(l, dims);
    var m := Reshape(l, dims).value;
    var shape := m.B.batch + [m.B.rows, m.A.cols];
    ReshapableA(l.A, |m.B.batch|);
    ReshapedSize(l, dims);
    assert Agrees(shape, dims) && EndsWith(shape, l.A.cols);
  }

  lemma FittingIsAccepted(l: Lora, dims: seq<int>)
    requires Denotes(l) && l.B.cols > 0 && l.A.cols > 0 && AllOnes(l.A.batch) && AtMostOneUnknown(dims)
    requires LibraryReshapes(dims, Size(l.B.batch) * l.B.rows * l.A.cols, l.A.cols)
    ensures Reshape(l, dims).Some?
  {
    var shape: seq<nat> :| Agrees(shape, dims) && EndsWith(shape, l.A.cols) &&
                           Size(shape) == Size(l.B.batch) * l.B.rows * l.A.cols;
    ExpandFinds(dims, shape);
    ShapeIsAccepted(l, dims, shape);
  }

  /**
   A request with at most one -1 is accepted exactly when the leading dimensions of A are
   1 and the library would find a shape for the product that keeps the last dimension.
   */
  lemma ReshapeAccepts(l: Lora, dims: seq<int>)
    requires Denotes(l) && l.B.cols > 0 && l.A.cols > 0 && AtMostOneUnknown(dims)
    ensures Reshape(l, dims).Some? <==>
            AllOnes(l.A.batch) && LibraryReshapes(dims, Size(l.B.batch) * l.B.rows * l.A.cols, l.A.cols)
  {
    if Reshape(l, dims).Some? {
      ReshapeAcceptedFits(l, dims);
    } else if AllOnes(l.A.batch) && LibraryReshapes(dims, Size(l.B.batch) * l.B.rows * l.A.cols, l.A.cols) {
      FittingIsAccepted(l, dims);
    }
  }

  function Unknowns(dims: seq<int>): nat {
    if dims == [] then 0 else Unknowns(dims[..|dims| - 1]) + (if dims[|dims| - 1] == -1 then 1 else 0)
  }

  function Power(q: nat, k: nat): nat {
    if k == 0 then 1 else Power(q, k - 1) * q
  }

  lemma {:induction false} FilledSize(dims: seq<int>, q: nat)
    requires AllSizes(dims)
    ensures Size(Filled(dims, q)) == ProductOf(dims) * Power(q, Unknowns(dims))
  {
    if dims != [] {
      var n := |dims| - 1;
      FilledSize(dims[..n], q);
      assert Filled(dims, q)[..n] == Filled(dims[..n], q);
      Rearrange(ProductOf(dims[..n]), Power(q, Unknowns(dims[..n])), if dims[n] == -1 then 1 else dims[n]);
      Associates(ProductOf(dims[..n]), Power(q, Unknowns(dims[..n])), q);
    }
  }

  lemma Associates(p: int, q: int, r: int)
    ensures (p * q) * r == p * (q * r)
  {
  }

  lemma {:induction false} PowerGrows(q: nat, k: nat)
    requires q > 1 && k >= 2
    ensures Power(q, k) > q
  {
    if k == 2 {
      assert Power(q, 2) == Power(q, 1) * q && Power(q, 1) == Power(q, 0) * q;
      ProductOfLess(1, q, q);
    } else {
      PowerGrows(q, k - 1);
      ProductOfLess(q, Power(q, k - 1), q);
      ProductAtLeast(q, q);
    }
  }

  lemma {:induction false} PowerOfOne(k: nat)
    ensures Power(1, k) == 1
  {
    if k > 0 {
      PowerOfOne(k - 1);
    }
  }

  lemma {:induction false} UnknownsCount(dims: seq<int>)
    ensures HasUnknown(dims) <==> Unknowns(dims) > 0
  {
    if dims != [] {
      var n := |dims| - 1;
      UnknownsCount(dims[..n]);
      if HasUnknown(dims[..n]) {
        var d :| 0 <= d < n && dims[..n][d] == -1;
        assert dims[d] == -1;
      }
      if HasUnknown(dims) && dims[n] != -1 {
        var d :| 0 <= d < |dims| && dims[d] == -1;
        assert dims[..n][d] == -1;
      }
    }
  }

  /** Filling in the same number more than once gives the right size only for 0 and 1. */
  lemma SameSizeFilled(p: nat, q: nat, k: nat)
    requires p > 0 && k >= 2
    ensures p * Power(q, k) == p * q <==> q <= 1
  {
    if q > 1 {
      PowerGrows(q, k);
      ProductOfLess(q, Power(q, k), p);
    } else if q == 1 {
      PowerOfOne(k);
    } else {
      assert Power(0, k) == Power(0, k - 1) * 0;
    }
  }

  /** The request is filled in with the number that is missing. */
  predicate FillsTo(dims: seq<int>, elements: nat, cols: nat) {
    AllSizes(dims) && ProductOf(dims) > 0 && Remainder(elements, ProductOf(dims)) == 0 &&
    EndsWith(Filled(dims, Quotient(elements, ProductOf(dims))), cols)
  }

  lemma FilledIsAccepted(l: Lora, dims: seq<int>)
    requires Denotes(l) && l.B.cols > 0 && l.A.cols > 0 && HasUnknown(dims)
    ensures var elements := Size(l.B.batch) * l.B.rows * l.A.cols;
            Reshape(l, dims).Some? <==>
            AllOnes(l.A.batch) && FillsTo(dims, elements, l.A.cols) &&
            Size(Filled(dims, Quotient(elements, ProductOf(dims)))) == elements
  {
    var elements := Size(l.B.batch) * l.B.rows * l.A.cols;
    if Reshape(l, dims).Some? {
      ReshapedShape(l, dims);
      ReshapeAcceptedFits(l, dims);
      ReshapedSize(l, dims);
    } else if AllOnes(l.A.batch) && FillsTo(dims, elements, l.A.cols) {
      var shape := Filled(dims, Quotient(elements, ProductOf(dims)));
      if Size(shape) == elements {
        ShapeIsAccepted(l, dims, shape);
      }
    }
  }

  lemma ReshapedSize(l: Lora, dims: seq<int>)
    requires Denotes(l) && l.B.cols > 0 && Reshape(l, dims).Some?
    ensures var m := Reshape(l, dims).value;
            Size(m.B.batch + [m.B.rows, m.A.cols]) == Size(l.B.batch) * l.B.rows * l.A.cols
  {
    ReshapedShape(l, dims);
    var m := Reshape(l, dims).value;
    var shape := m.B.batch + [m.B.rows, m.A.cols];
    Cancel(Size(m.B.batch) * m.B.rows, Size(l.B.batch) * l.B.rows, l.B.cols);
    assert shape[..|shape| - 2] == m.B.batch;
    SizeOfRows(shape, l.A.cols);
  }

  lemma ShapeIsAccepted(l: Lora, dims: seq<int>, shape: seq<nat>)
    requires Denotes(l) && l.A.cols > 0 && AllOnes(l.A.batch) && EndsWith(shape, l.A.cols) && |dims| == |shape|
    requires ExpandShape(dims, Size(l.B.batch) * l.B.rows * l.A.cols) == Some(shape)
    requires Size(shape) == Size(l.B.batch) * l.B.rows * l.A.cols
    ensures Reshape(l, dims).Some?
  {
    var n := |shape|;
    SizeOfRows(shape, l.A.cols);
    Cancel(Size(shape[..n - 2]) * shape[n - 2], Size(l.B.batch) * l.B.rows, l.A.cols);
    SizeOfOnes(n - 2);
    SizeOfAllOnes(l.A.batch);
  }

  /**
   A request with several -1, which the library always refuses, is accepted exactly when A
   is a single matrix, the filled-in request keeps the last dimension, and nothing is
   missing: the known dimensions hold all entries, or there is no entry.
   */
  lemma SeveralUnknownsAccepted(l: Lora, dims: seq<int>)
    requires Denotes(l) && l.B.cols > 0 && l.A.cols > 0 && Unknowns(dims) >= 2
    ensures var elements := Size(l.B.batch) * l.B.rows * l.A.cols;
            Reshape(l, dims).Some? <==>
            AllOnes(l.A.batch) && FillsTo(dims, elements, l.A.cols) && (elements == ProductOf(dims) || elements == 0)
  {
    var elements := Size(l.B.batch) * l.B.rows * l.A.cols;
    UnknownsCount(dims);
    FilledIsAccepted(l, dims);
    if FillsTo(dims, elements, l.A.cols) {
      var p, q := ProductOf(dims), Quotient(elements, ProductOf(dims));
      FilledSize(dims, q);
      SameSizeFilled(p, q, Unknowns(dims));
      WholeQuotient(elements, p);
    }
  }

  lemma WholeQuotient(n: nat, d: nat)
    requires d > 0 && Remainder(n, d) == 0
    ensures n == d * Quotient(n, d) && (Quotient(n, d) <= 1 <==> n == d || n == 0)
  {
    QuotientAndRemainder(n, d);
    var q := Quotient(n, d);
    if q > 1 {
      ProductOfLess(1, q, d);
    }
  }

  /** Every -1 is replaced: a request with two, which the library refuses, is accepted for a single row. */
  lemma TwoUnknownsAccepted(l: Lora)
    requires Denotes(l) && l.B.batch == [] && l.B.rows == 1 && l.A.cols > 0
    ensures Reshape(l, [-1, -1, l.A.cols as int]).Some?
  {
    var dims := [-1, -1, l.A.cols as int];
    assert dims[..2] == [-1, -1] && dims[..2][..1] == [-1] && dims[..2][..1][..0] == [];
    assert ProductOf([]) == 1 && ProductOf([-1]) == 1 && ProductOf([-1, -1]) == 1 && ProductOf(dims) == l.A.cols;
    assert Size(l.B.batch) * l.B.rows * l.A.cols == l.A.cols;
    DividesBy(l.A.cols, l.A.cols, 1);
    var shape: seq<nat> := [1, 1, l.A.cols];
    assert dims[0] == -1 && HasUnknown(dims) && Filled(dims, 1) == shape;
    assert ExpandShape(dims, l.A.cols) == Some(shape);
    assert shape[..1] == [1] && shape[..1][..0] == [] && Size([1]) == 1;
    SizeOfOnes(1);
    SizeOfAllOnes(l.A.batch);
  }

  lemma {:induction false} SizeOfAllOnes(shape: seq<nat>)
    requires AllOnes(shape)
    ensures Size(shape) == 1
  {
    assert shape == Ones(|shape|);
    SizeOfOnes(|shape|);
  }
}
