/**
 Indexing low-rank tensors: `LoraTorchTensor.__getitem__` picks in the factors instead of
 picking in the product.
 */
module LoraIndexing {
  import opened Options
  import opened Tensors
  import opened LoraTensor

  // ----- indexing -----

  /** `j % A.shape[d]` for an integer, the whole dimension for a slice. */
  function PickForA(p: Pick, n: nat): Pick {
    match p
    case At(j) => if n == 0 then At(0) else At(j % n)
    case Slice(_, _, _) => FULL
  }

  function PicksForA(picks: seq<Pick>, shape: seq<nat>): (r: seq<Pick>)
    ensures |r| == |picks|
  {
    seq(|picks|, d requires 0 <= d < |picks| => PickForA(picks[d], if d < |shape| then shape[d] else 0))
  }

  /** `self[batch picks, row, col]`, an index tuple with one entry per dimension. */
  function GetTuple(l: Lora, picks: seq<Pick>, row: Pick, col: Pick): Option<Lora>
    requires Denotes(l)
  {
    if !AllApply(picks, l.B.batch) || !AllApply(PicksForA(picks, l.A.batch), l.A.batch) then None
    else if !Applies(row, l.B.rows) || !Applies(col, l.A.cols) then None
    else if row.Slice? && col.Slice? then
      Build(GetItem(l.A, PicksForA(picks, l.A.batch), FULL, col), GetItem(l.B, picks, row, FULL))
    else if row.At? && col.At? then GetEntries(l, picks, row, col)
    else None
  }

  /**
   With integers for both row and column the factors lose their last dimensions, and the
   constructor takes the last batch dimension that is left for the rank of A.
   */
  function GetEntries(l: Lora, picks: seq<Pick>, row: Pick, col: Pick): Option<Lora>
    requires Denotes(l) && AllApply(picks, l.B.batch) && AllApply(PicksForA(picks, l.A.batch), l.A.batch)
    requires Applies(row, l.B.rows) && Applies(col, l.A.cols) && row.At? && col.At?
  {
    var picksA := PicksForA(picks, l.A.batch);
    var a, b := PickedShape(picksA, l.A.batch), PickedShape(picks, l.B.batch);
    if a == [] || b == [] then None
    else Build(
      Tensor(a[..|a| - 1], a[|a| - 1], l.A.rows, (i: seq<nat>, r: nat, k: nat) =>
        l.A.at(PickedIndex(picksA, l.A.batch, i + [r]), k, PickOne(col, l.A.cols, 0))),
      Tensor(b[..|b| - 1], b[|b| - 1], l.B.cols, (i: seq<nat>, r: nat, k: nat) =>
        l.B.at(PickedIndex(picks, l.B.batch, i + [r]), PickOne(row, l.B.rows, 0), k)))
  }

  /**
   A batch dimension is picked consistently in both factors: by an integer, or by a
   slice where A is not repeated only if the slice keeps the whole dimension.
   */
  predicate Consistent(p: Pick, a: nat, b: nat)
    requires Applies(p, b)
  {
    p.Slice? ==> a == 1 || SliceLength(p, b) == a
  }

  predicate AllConsistent(picks: seq<Pick>, A: seq<nat>, B: seq<nat>)
    requires AllApply(picks, B) && |A| == |B|
  {
    forall d | 0 <= d < |picks| :: Consistent(picks[d], A[d], B[d])
  }

  predicate Repeats(A: seq<nat>, B: seq<nat>) {
    |A| == |B| && forall d | 0 <= d < |A| :: A[d] == 1 || A[d] == B[d]
  }

  lemma {:induction false} QuotientByOne(n: nat)
    ensures Quotient(n, 1) == n
  {
    if n > 0 {
      QuotientByOne(n - 1);
    }
  }

  lemma {:induction false} QuotientSmall(n: nat, d: nat, q: nat)
    requires d > 0 && Quotient(n, d) >= q
    ensures q * d <= n
  {
    if n < d {
      assert Quotient(n, d) == 0;
      assert q == 0;
    } else if q > 0 {
      QuotientSmall(n - d, d, q - 1);
      assert q * d == (q - 1) * d + d;
    }
  }

  lemma FullLength(n: nat)
    ensures SliceLength(FULL, n) == n && SliceStart(FULL, n) == 0
  {
    QuotientByOne(n);
  }

  lemma FullPick(n: nat, k: nat)
    ensures PickOne(FULL, n, k) == k
  {
    assert 1 * k == k;
  }

  /** A slice as long as the dimension is the whole dimension, in order. */
  lemma {:induction false} WholeSlice(p: Pick, n: nat, i: nat)
    requires p.Slice? && p.step > 0 && SliceLength(p, n) == n && i < n
    ensures PickOne(p, n, i) == i
  {
    var lo, hi := SliceStart(p, n), SliceStop(p, n);
    var x := hi - lo + p.step - 1;
    QuotientSmall(x, p.step, n);
    StepIsOne(n, p.step, hi - lo);
    assert p.step * i == i;
  }

  lemma ProductBeyondSum(n: nat, step: nat)
    requires n > 1 && step > 1
    ensures n * step > n + step - 1
  {
    assert n * step == (n - 1) * (step - 1) + (n - 1) + step;
    ProductAtLeast(n - 1, step - 1);
  }

  lemma StepIsOne(n: nat, step: nat, width: int)
    requires n > 0 && step > 0 && n * step <= width + step - 1 && width <= n
    ensures width == n && (n > 1 ==> step == 1)
  {
    if n > 1 && step > 1 {
      ProductBeyondSum(n, step);
    } else if n == 1 {
      assert n * step == step;
    } else {
      assert n * step == n;
    }
  }

  /** In one dimension: the entry A is asked for is the one it would repeat. */
  lemma {:induction false} PickRepeats(p: Pick, a: nat, b: nat, i: nat)
    requires Applies(p, b) && Applies(PickForA(p, a), a) && (a == 1 || a == b) && Consistent(p, a, b)
    requires p.Slice? ==> i < SliceLength(p, b)
    requires p.At? ==> i == 0
    ensures PickOne(PickForA(p, a), a, if a == 1 then 0 else i) == if a == 1 then 0 else PickOne(p, b, i)
  {
    if p.Slice? {
      FullLength(a);
      if a != 1 {
        WholeSlice(p, b, i);
      }
    } else if a > 1 {
      Modulo(p.j, a);
    }
  }

  lemma NegativeQuotient(n: nat, q: int)
    requires n > 0 && q <= -2
    ensures n * q <= -2 * n
  {
    assert n * q == -2 * n - n * (-2 - q);
    assert n * (-2 - q) >= 0;
  }

  lemma Modulo(j: int, n: nat)
    requires n > 0 && -(n as int) <= j < n
    ensures j % n == if j < 0 then j + n else j
  {
    var q := j / n;
    assert j == n * q + j % n;
    if q >= 1 {
      ProductAtLeast(n, q);
    } else if q <= -2 {
      NegativeQuotient(n, q);
    } else if q == -1 {
      assert n * q == 0 - n;
    } else {
      assert n * q == 0;
    }
  }

  /** The shapes of the picked factors fit together exactly when the picks are consistent. */
  lemma {:induction false} PickedShapesRepeat(picks: seq<Pick>, A: seq<nat>, B: seq<nat>)
    requires Repeats(A, B) && AllApply(picks, B) && AllApply(PicksForA(picks, A), A)
    ensures |PickedShape(PicksForA(picks, A), A)| == |PickedShape(picks, B)|
    ensures Repeats(PickedShape(PicksForA(picks, A), A), PickedShape(picks, B)) <==> AllConsistent(picks, A, B)
  {
    if picks != [] {
      PicksTail(picks, A);
      PickedShapesRepeat(picks[1..], A[1..], B[1..]);
      ConsistentTail(picks, A, B);
      if picks[0].Slice? {
        FullLength(A[0]);
        var x, y := PickedShape(PicksForA(picks[1..], A[1..]), A[1..]), PickedShape(picks[1..], B[1..]);
        RepeatsTail(A[0], SliceLength(picks[0], B[0]), x, y);
      }
    }
  }

  lemma PicksTail(picks: seq<Pick>, A: seq<nat>)
    requires picks != [] && |A| == |picks|
    ensures PicksForA(picks, A)[1..] == PicksForA(picks[1..], A[1..])
  {
  }

  lemma ConsistentTail(picks: seq<Pick>, A: seq<nat>, B: seq<nat>)
    requires picks != [] && AllApply(picks, B) && |A| == |B|
    ensures AllConsistent(picks, A, B) <==> Consistent(picks[0], A[0], B[0]) && AllConsistent(picks[1..], A[1..], B[1..])
  {
    if AllConsistent(picks[1..], A[1..], B[1..]) {
      forall d | 1 <= d < |picks| ensures Consistent(picks[d], A[d], B[d]) {
        assert Consistent(picks[1..][d - 1], A[1..][d - 1], B[1..][d - 1]);
      }
    }
  }

  lemma RepeatsTail(a: nat, b: nat, x: seq<nat>, y: seq<nat>)
    ensures Repeats([a] + x, [b] + y) <==> (a == 1 || a == b) && Repeats(x, y)
  {
    if Repeats([a] + x, [b] + y) {
      assert ([a] + x)[0] == a && ([b] + y)[0] == b;
      forall d | 0 <= d < |x| ensures x[d] == 1 || x[d] == y[d] {
        assert ([a] + x)[d + 1] == x[d] && ([b] + y)[d + 1] == y[d];
      }
    }
  }

  /** Picking in A at the repeated index is repeating the index picked in B. */
  lemma {:induction false} PickedIndexRepeats(picks: seq<Pick>, A: seq<nat>, B: seq<nat>, i: seq<nat>)
    requires Repeats(A, B) && AllApply(picks, B) && AllApply(PicksForA(picks, A), A) && AllConsistent(picks, A, B)
    requires InShape(i, PickedShape(picks, B))
    ensures PickedIndex(PicksForA(picks, A), A, Broadcast(i, PickedShape(PicksForA(picks, A), A))) ==
            Broadcast(PickedIndex(picks, B, i), A)
  {
    if picks != [] {
      PicksTail(picks, A);
      ConsistentTail(picks, A, B);
      var rest := PickedShape(PicksForA(picks[1..], A[1..]), A[1..]);
      if picks[0].At? {
        PickedIndexRepeats(picks[1..], A[1..], B[1..], i);
        PickRepeats(picks[0], A[0], B[0], 0);
        BroadcastCons(PickOne(picks[0], B[0], 0), PickedIndex(picks[1..], B[1..], i), A);
      } else {
        assert InShape(i[1..], PickedShape(picks[1..], B[1..]));
        PickedIndexRepeats(picks[1..], A[1..], B[1..], i[1..]);
        FullLength(A[0]);
        PickRepeats(picks[0], A[0], B[0], i[0]);
        BroadcastCons(i[0], i[1..], [A[0]] + rest);
        assert [i[0]] + i[1..] == i;
        BroadcastCons(PickOne(picks[0], B[0], i[0]), PickedIndex(picks[1..], B[1..], i[1..]), A);
      }
    }
  }

  lemma BroadcastCons(x: nat, i: seq<nat>, shape: seq<nat>)
    requires shape != []
    ensures Broadcast([x] + i, shape) == [if shape[0] == 1 then 0 else x] + Broadcast(i, shape[1..])
  {
  }

  /**
   Indexing the factors denotes a tensor exactly when every batch slice is consistent,
   and then it is the indexed product.
   */
  lemma {:induction false} GetTupleMeansGetItem(l: Lora, picks: seq<Pick>, row: Pick, col: Pick)
    requires Denotes(l) && row.Slice? && col.Slice? && GetTuple(l, picks, row, col).Some?
    ensures var m := GetTuple(l, picks, row, col).value;
            (Denotes(m) <==> AllConsistent(picks, l.A.batch, l.B.batch)) &&
            (Denotes(m) ==> Same(Materialize(m), GetItem(Materialize(l), picks, row, col)))
  {
    var m := GetTuple(l, picks, row, col).value;
    PickedShapesRepeat(picks, l.A.batch, l.B.batch);
    FullLength(l.A.rows);
    if AllConsistent(picks, l.A.batch, l.B.batch) {
      forall b: seq<nat>, r: nat, c: nat | InShape(b, m.B.batch)
        ensures Materialize(m).at(b, r, c) == GetItem(Materialize(l), picks, row, col).at(b, r, c)
      {
        PickedIndexRepeats(picks, l.A.batch, l.B.batch, b);
        var b', r', c' := PickedIndex(picks, l.B.batch, b), PickOne(row, l.B.rows, r), PickOne(col, l.A.cols, c);
        forall k | 0 <= k < l.B.cols ensures Term(m.B, m.A, b, r, c, k) == Term(l.B, l.A, b', r', c', k) {
          FullPick(l.A.rows, k);
          FullPick(l.B.cols, k);
        }
        FullLength(l.B.cols);
        SameEntry(m, b, r, c, l, b', r', c');
      }
    }
  }

  /** Two slices of a plain matrix: always denoted, always right. */
  lemma TwoSlices(l: Lora, row: Pick, col: Pick)
    requires Denotes(l) && l.B.batch == [] && row.Slice? && col.Slice? && row.step > 0 && col.step > 0
    ensures var m := GetTuple(l, [], row, col);
            m.Some? && Denotes(m.value) && Same(Materialize(m.value), GetItem(Materialize(l), [], row, col))
  {
    FullLength(l.A.rows);
    FullLength(l.B.cols);
    GetTupleMeansGetItem(l, [], row, col);
  }

  lemma OneSlice(p: Pick, n: nat)
    requires p.Slice? && Applies(p, n)
    ensures AllApply([p], [n]) && PickedShape([p], [n]) == [SliceLength(p, n)]
  {
    assert PickedShape([], []) == [];
  }

  /** Slicing half of a batch dimension that A does not repeat leaves factors that do not fit. */
  lemma PartialBatchSliceFails(A: Tensor, B: Tensor)
    requires A.batch == [2] && B.batch == [2] && A.rows == B.cols
    ensures var m := GetTuple(Lora(A, B), [Slice(None, Some(1), 1)], FULL, FULL);
            m.Some? && !Denotes(m.value)
  {
    var p := Slice(None, Some(1), 1);
    FullLength(A.rows);
    QuotientByOne(1);
    assert SliceLength(p, 2) == 1;
    assert PicksForA([p], A.batch) == [FULL];
    FullLength(B.cols);
    OneSlice(p, 2);
    OneSlice(FULL, 2);
    FullLength(2);
    GetTupleMeansGetItem(Lora(A, B), [p], FULL, FULL);
  }

  /**
   An integer in one of the last two places is refused. In both it is refused unless the
   last batch dimension left of A happens to be the rank, and then the result has one
   dimension more than the picked entries.
   */
  lemma IntegersNeverFit(l: Lora, picks: seq<Pick>, row: Pick, col: Pick)
    requires Denotes(l) && AllApply(picks, l.B.batch) && AllApply(PicksForA(picks, l.A.batch), l.A.batch)
    requires Applies(row, l.B.rows) && Applies(col, l.A.cols) && (row.At? || col.At?)
    ensures var m := GetTuple(l, picks, row, col);
            var a := PickedShape(PicksForA(picks, l.A.batch), l.A.batch);
            (m.Some? <==> row.At? && col.At? && a != [] && a[|a| - 1] == l.B.cols) &&
            (m.Some? ==> |m.value.B.batch| + 2 == |PickedShape(picks, l.B.batch)| + 1)
  {
    PickedShapesRepeat(picks, l.A.batch, l.B.batch);
  }

  // ----- an index that is not a tuple -----

  function Fulls(n: nat): (r: seq<Pick>)
    ensures |r| == n
  {
    seq(n, _ => FULL)
  }

  /** Full slices apply everywhere and change nothing. */
  lemma {:induction false} FullSlices(shape: seq<nat>)
    ensures AllApply(Fulls(|shape|), shape) && PickedShape(Fulls(|shape|), shape) == shape
  {
    if shape != [] {
      FullSlices(shape[1..]);
      FullLength(shape[0]);
      assert Fulls(|shape|)[1..] == Fulls(|shape[1..]|);
      assert [shape[0]] + shape[1..] == shape;
    }
  }

  lemma {:induction false} FullIndex(shape: seq<nat>, i: seq<nat>)
    requires |i| == |shape| && AllApply(Fulls(|shape|), shape)
    ensures PickedIndex(Fulls(|shape|), shape, i) == i
  {
    if shape != [] {
      FullSlices(shape[1..]);
      FullIndex(shape[1..], i[1..]);
      FullPick(shape[0], i[0]);
      assert Fulls(|shape|)[1..] == Fulls(|shape[1..]|);
      assert [i[0]] + i[1..] == i;
    }
  }

  /** A pick in the first dimension and full slices behind it. */
  lemma FirstPickedShape(p: Pick, shape: seq<nat>)
    requires shape != [] && Applies(p, shape[0])
    ensures var picks := [p] + Fulls(|shape| - 1);
            AllApply(picks, shape) && picks[1..] == Fulls(|shape[1..]|) &&
            PickedShape(picks, shape) == (if p.At? then [] else [SliceLength(p, shape[0])]) + shape[1..]
  {
    var picks := [p] + Fulls(|shape| - 1);
    FullSlices(shape[1..]);
    assert picks[1..] == Fulls(|shape[1..]|);
    assert shape == [shape[0]] + shape[1..];
    forall d | 0 <= d < |picks| ensures Applies(picks[d], shape[d]) {
      assert d > 0 ==> Applies(Fulls(|shape[1..]|)[d - 1], shape[1..][d - 1]);
    }
  }

  lemma FirstPickedIndex(p: Pick, shape: seq<nat>, i: seq<nat>)
    requires shape != [] && Applies(p, shape[0]) && AllApply([p] + Fulls(|shape| - 1), shape)
    requires |i| == if p.At? then |shape| - 1 else |shape|
    ensures PickedIndex([p] + Fulls(|shape| - 1), shape, i) ==
            if p.At? then [PickOne(p, shape[0], 0)] + i else [PickOne(p, shape[0], i[0])] + i[1..]
  {
    FirstPickedShape(p, shape);
    FullSlices(shape[1..]);
    FullIndex(shape[1..], if p.At? then i else i[1..]);
  }

  /** `self[p]` for an integer or a slice: the first dimension of both factors, or the rows of a matrix. */
  function GetFirst(l: Lora, p: Pick): Option<Lora>
    requires Denotes(l)
  {
    if l.B.batch != [] then
      var picks := [p] + Fulls(|l.B.batch| - 1);
      if !AllApply(picks, l.A.batch) || !AllApply(picks, l.B.batch) then None
      else Build(GetItem(l.A, picks, FULL, FULL), GetItem(l.B, picks, FULL, FULL))
    else if p.Slice? && p.step > 0 then Build(l.A, GetItem(l.B, [], p, FULL))
    else None
  }

  /** The first dimension of A survives the pick as that of B does. */
  predicate FirstFits(p: Pick, a: nat, b: nat)
    requires Applies(p, a) && Applies(p, b)
  {
    p.Slice? && a != b ==> SliceLength(p, 1) == 1 || SliceLength(p, b) == 0
  }

  lemma StartOfOne(p: Pick)
    requires p.Slice? && p.step > 0 && SliceLength(p, 1) > 0
    ensures SliceStart(p, 1) == 0 && SliceLength(p, 1) == 1
  {
    var x := SliceStop(p, 1) - SliceStart(p, 1) + p.step - 1;
    assert x == p.step;
    assert Quotient(x, p.step) == 1 + Quotient(0, p.step);
  }

  lemma LengthOfOne(p: Pick)
    requires p.Slice? && p.step > 0
    ensures SliceLength(p, 1) <= 1
  {
    if SliceLength(p, 1) > 0 {
      StartOfOne(p);
    }
  }

  /** In the first dimension: the entry A is asked for is the one it would repeat. */
  lemma FirstRepeats(p: Pick, a: nat, b: nat, i: nat)
    requires Applies(p, a) && Applies(p, b) && (a == 1 || a == b) && FirstFits(p, a, b)
    requires if p.At? then i == 0 else i < SliceLength(p, b)
    ensures var i' := if p.Slice? && SliceLength(p, a) == 1 then 0 else i;
            PickOne(p, a, i') == if a == 1 then 0 else PickOne(p, b, i)
  {
    if p.Slice? && a == 1 {
      LengthOfOne(p);
      StartOfOne(p);
      assert p.step * 0 == 0;
    }
  }

  /** The shapes fit exactly when the first dimension does. */
  lemma FirstShapesFit(p: Pick, A: seq<nat>, B: seq<nat>)
    requires Repeats(A, B) && A != [] && Applies(p, A[0]) && Applies(p, B[0])
    requires AllApply([p] + Fulls(|A| - 1), A) && AllApply([p] + Fulls(|A| - 1), B)
    ensures Repeats(PickedShape([p] + Fulls(|A| - 1), A), PickedShape([p] + Fulls(|A| - 1), B)) <==>
            FirstFits(p, A[0], B[0])
  {
    FirstPickedShape(p, A);
    FirstPickedShape(p, B);
    assert Repeats(A[1..], B[1..]);
    if p.Slice? {
      LengthOfOne(p);
      RepeatsTail(SliceLength(p, A[0]), SliceLength(p, B[0]), A[1..], B[1..]);
    } else {
      assert [] + A[1..] == A[1..] && [] + B[1..] == B[1..];
    }
  }

  /** Picking in A at the repeated index is repeating the index picked in B. */
  lemma FirstIndexRepeats(p: Pick, A: seq<nat>, B: seq<nat>, i: seq<nat>)
    requires Repeats(A, B) && A != [] && Applies(p, A[0]) && Applies(p, B[0]) && FirstFits(p, A[0], B[0])
    requires AllApply([p] + Fulls(|A| - 1), A) && AllApply([p] + Fulls(|A| - 1), B)
    requires InShape(i, PickedShape([p] + Fulls(|A| - 1), B))
    ensures var picks := [p] + Fulls(|A| - 1);
            PickedIndex(picks, A, Broadcast(i, PickedShape(picks, A))) == Broadcast(PickedIndex(picks, B, i), A)
  {
    var picks := [p] + Fulls(|A| - 1);
    FirstPickedShape(p, A);
    FirstPickedShape(p, B);
    var j := Broadcast(i, PickedShape(picks, A));
    FirstPickedIndex(p, A, j);
    FirstPickedIndex(p, B, i);
    if p.At? {
      assert [] + A[1..] == A[1..];
      FirstRepeats(p, A[0], B[0], 0);
      BroadcastCons(PickOne(p, B[0], 0), i, A);
    } else {
      FirstRepeats(p, A[0], B[0], i[0]);
      assert [i[0]] + i[1..] == i;
      BroadcastCons(i[0], i[1..], [SliceLength(p, A[0])] + A[1..]);
      BroadcastCons(PickOne(p, B[0], i[0]), i[1..], A);
    }
  }

  /**
   A single integer or slice denotes a tensor exactly when the first dimension of A, if it
   is repeated, survives a slice that keeps anything of B; and then it is the picked product.
   */
  lemma {:induction false} GetFirstMeansGetItem(l: Lora, p: Pick)
    requires Denotes(l) && l.B.batch != [] && GetFirst(l, p).Some?
    ensures var m := GetFirst(l, p).value;
            (Denotes(m) <==> FirstFits(p, l.A.batch[0], l.B.batch[0])) &&
            (Denotes(m) ==> Same(Materialize(m), GetItem(Materialize(l), [p] + Fulls(|l.B.batch| - 1), FULL, FULL)))
  {
    var m := GetFirst(l, p).value;
    var picks := [p] + Fulls(|l.B.batch| - 1);
    assert Applies(picks[0], l.A.batch[0]) && Applies(picks[0], l.B.batch[0]);
    FirstShapesFit(p, l.A.batch, l.B.batch);
    FullLength(l.A.rows);
    FullLength(l.B.cols);
    if Denotes(m) {
      forall b: seq<nat>, r: nat, c: nat | InShape(b, m.B.batch)
        ensures Materialize(m).at(b, r, c) == GetItem(Materialize(l), picks, FULL, FULL).at(b, r, c)
      {
        FirstIndexRepeats(p, l.A.batch, l.B.batch, b);
        PickedEntry(l, m, picks, b, r, c);
      }
    }
  }

  /**
   Which single picks are taken: every slice; and an integer that is valid for the product,
   but of an A that is repeated only the integers that are valid for a dimension of size 1.
   */
  lemma GetFirstAccepts(l: Lora, p: Pick)
    requires Denotes(l) && l.B.batch != []
    ensures GetFirst(l, p).Some? <==>
            Applies(p, l.B.batch[0]) && (p.At? && l.A.batch[0] == 1 ==> p.j == 0 || p.j == -1)
  {
    FirstApplies(p, l.A.batch);
    FirstApplies(p, l.B.batch);
    FullLength(l.A.rows);
    FullLength(l.B.cols);
    if Applies(p, l.A.batch[0]) && Applies(p, l.B.batch[0]) {
      FirstPickedShape(p, l.A.batch);
      FirstPickedShape(p, l.B.batch);
    }
  }

  lemma FirstApplies(p: Pick, shape: seq<nat>)
    requires shape != []
    ensures AllApply([p] + Fulls(|shape| - 1), shape) <==> Applies(p, shape[0])
  {
    var picks := [p] + Fulls(|shape| - 1);
    if AllApply(picks, shape) {
      assert Applies(picks[0], shape[0]);
    }
  }

  /** The last of three matrices that share one A cannot be taken. */
  lemma RepeatedIndexIsRefused(l: Lora)
    requires Denotes(l) && l.A.batch == [1] && l.B.batch == [3]
    ensures Applies(At(2), Materialize(l).batch[0]) && GetFirst(l, At(2)) == None
  {
    GetFirstAccepts(l, At(2));
  }

  lemma PickedEntry(l: Lora, m: Lora, picks: seq<Pick>, b: seq<nat>, r: nat, c: nat)
    requires AllApply(picks, l.A.batch) && AllApply(picks, l.B.batch)
    requires m == Lora(GetItem(l.A, picks, FULL, FULL), GetItem(l.B, picks, FULL, FULL))
    requires PickedIndex(picks, l.A.batch, Broadcast(b, m.A.batch)) == Broadcast(PickedIndex(picks, l.B.batch, b), l.A.batch)
    ensures Materialize(m).at(b, r, c) == GetItem(Materialize(l), picks, FULL, FULL).at(b, r, c)
  {
    FullLength(l.B.cols);
    FullPick(l.B.rows, r);
    FullPick(l.A.cols, c);
    forall k | 0 <= k < l.B.cols
      ensures Term(m.B, m.A, b, r, c, k) == Term(l.B, l.A, PickedIndex(picks, l.B.batch, b), r, c, k)
    {
      FullPick(l.A.rows, k);
      FullPick(l.B.cols, k);
    }
    SameEntry(m, b, r, c, l, PickedIndex(picks, l.B.batch, b), r, c);
  }

  /** A single slice of a matrix cuts its rows; a single integer is refused. */
  lemma GetRows(l: Lora, p: Pick)
    requires Denotes(l) && l.B.batch == []
    ensures GetFirst(l, p).Some? <==> p.Slice? && p.step > 0
    ensures GetFirst(l, p).Some? ==>
              Denotes(GetFirst(l, p).value) &&
              Same(Materialize(GetFirst(l, p).value), GetItem(Materialize(l), [], p, FULL))
  {
    FullLength(l.B.cols);
    FullLength(l.A.cols);
    if p.Slice? && p.step > 0 {
      var m := GetFirst(l, p).value;
      forall b: seq<nat>, r: nat, c: nat | InShape(b, m.B.batch)
        ensures Materialize(m).at(b, r, c) == GetItem(Materialize(l), [], p, FULL).at(b, r, c)
      {
        assert b == [] && PickedIndex([], l.B.batch, b) == [];
        FullPick(l.A.cols, c);
        forall k | 0 <= k < l.B.cols ensures Term(m.B, m.A, b, r, c, k) == Term(l.B, l.A, b, PickOne(p, l.B.rows, r), c, k) {
          FullPick(l.B.cols, k);
        }
        SameEntry(m, b, r, c, l, b, PickOne(p, l.B.rows, r), c);
      }
    }
  }
}
