/** Which entries of the product an index tuple picks, told without the picks of the factors. */
module LoraPicks {
  import opened Options
  import opened Tensors
  import opened LoraTensor
  import opened LoraIndexing

  // ----- slices -----

  /** A bound below zero counts from the end. */
  predicate AtOrAfter(x: int, bound: Option<int>, n: nat) {
    match bound
    case None => true
    case Some(a) => if a < 0 then x >= n + a else x >= a
  }

  predicate IsBefore(x: int, bound: Option<int>, n: nat) {
    match bound
    case None => true
    case Some(a) => if a < 0 then x < n + a else x < a
  }

  /** The first position at or after the start of a slice, or the end of the dimension. */
  predicate IsFirst(f: nat, start: Option<int>, n: nat) {
    f <= n && (f < n ==> AtOrAfter(f, start, n)) && forall g | 0 <= g < f :: !AtOrAfter(g, start, n)
  }

  /** Position `x` of a dimension of size `n` is number `k` of those that are picked. */
  predicate IsPickedAt(p: Pick, n: nat, k: nat, x: nat) {
    match p
    case At(j) => x < n && k == 0 && (j == x || j == x - n)
    case Slice(start, stop, step) =>
      x < n && IsBefore(x, stop, n) && exists f: nat :: IsFirst(f, start, n) && x == f + step * k
  }

  lemma FirstIsUnique(f: nat, g: nat, start: Option<int>, n: nat)
    requires IsFirst(f, start, n) && IsFirst(g, start, n)
    ensures f == g
  {
  }

  lemma StartIsFirst(p: Pick, n: nat)
    requires p.Slice?
    ensures IsFirst(SliceStart(p, n), p.start, n)
  {
  }

  lemma StopIsBefore(p: Pick, n: nat, x: nat)
    requires p.Slice?
    ensures x < SliceStop(p, n) <==> x < n && IsBefore(x, p.stop, n)
  {
  }

  /** Steps that stay below a bound. */
  lemma StepsBelow(step: nat, len: nat, k: nat)
    requires step > 0
    ensures k < Quotient(len + step - 1, step) <==> step * k < len
  {
    var q := Quotient(len + step - 1, step);
    QuotientAndRemainder(len + step - 1, step);
    assert step * q == q * step;
    if k < q {
      AtLeastTimes(k + 1, q, step);
      assert (k + 1) * step == step * k + step;
    } else {
      AtLeastTimes(q, k, step);
      assert k * step == step * k;
    }
  }

  /** A slice picks the positions from its first one on that are before its stop, one every `step`. */
  lemma SlicePicks(p: Pick, n: nat, k: nat, x: nat)
    requires p.Slice? && p.step > 0
    ensures IsPickedAt(p, n, k, x) <==> k < SliceLength(p, n) && x == PickOne(p, n, k)
  {
    var lo, hi := SliceStart(p, n), SliceStop(p, n);
    StartIsFirst(p, n);
    StopIsBefore(p, n, x);
    if lo < hi {
      StepsBelow(p.step, hi - lo, k);
    } else {
      assert p.step * k >= 0;
    }
    if IsPickedAt(p, n, k, x) {
      var f: nat :| IsFirst(f, p.start, n) && x == f + p.step * k;
      FirstIsUnique(f, lo, p.start, n);
    }
  }

  // ----- index tuples -----

  /** Entry `i` of what is picked is entry `j`: an integer takes one position away, a slice numbers its positions. */
  predicate Picks(picks: seq<Pick>, shape: seq<nat>, i: seq<nat>, j: seq<nat>) {
    |picks| == |shape| == |j| &&
    if picks == [] then i == []
    else if picks[0].At? then IsPickedAt(picks[0], shape[0], 0, j[0]) && Picks(picks[1..], shape[1..], i, j[1..])
    else i != [] && IsPickedAt(picks[0], shape[0], i[0], j[0]) && Picks(picks[1..], shape[1..], i[1..], j[1..])
  }

  /** The batch dimensions first, then the row and the column. */
  lemma {:induction false} PicksApart(picks: seq<Pick>, row: Pick, col: Pick, batch: seq<nat>, rows: nat, cols: nat,
                                      i: seq<nat>, j: seq<nat>)
    requires AllApply(picks, batch) && row.Slice? && col.Slice? && row.step > 0 && col.step > 0
    requires Picks(picks + [row, col], batch + [rows, cols], i, j)
    ensures var m, k := |i| - 2, |batch|;
            m >= 0 && |j| == k + 2 &&
            InShape(i[..m], PickedShape(picks, batch)) && j[..k] == PickedIndex(picks, batch, i[..m]) &&
            IsPickedAt(row, rows, i[m], j[k]) && IsPickedAt(col, cols, i[m + 1], j[k + 1])
    decreases |picks|
  {
    var all, shape := picks + [row, col], batch + [rows, cols];
    if picks == [] {
      assert all == [row, col] && shape == [rows, cols];
      RowAndColumn(row, col, rows, cols, i, j);
    } else {
      assert all[1..] == picks[1..] + [row, col] && shape[1..] == batch[1..] + [rows, cols];
      assert Applies(picks[0], batch[0]) && AllApply(picks[1..], batch[1..]);
      if picks[0].At? {
        PicksApart(picks[1..], row, col, batch[1..], rows, cols, i, j[1..]);
        AtPicked(picks, batch, i[..|i| - 2], j);
      } else {
        PicksApart(picks[1..], row, col, batch[1..], rows, cols, i[1..], j[1..]);
        SlicePicks(picks[0], batch[0], i[0], j[0]);
        SlicePicked(picks, batch, i, j);
      }
    }
  }

  lemma RowAndColumn(row: Pick, col: Pick, rows: nat, cols: nat, i: seq<nat>, j: seq<nat>)
    requires row.Slice? && col.Slice? && Picks([row, col], [rows, cols], i, j)
    ensures |i| == 2 && |j| == 2 && IsPickedAt(row, rows, i[0], j[0]) && IsPickedAt(col, cols, i[1], j[1])
  {
    assert [row, col][1..] == [col] && [rows, cols][1..] == [cols];
    OneColumn(col, cols, i[1..], j[1..]);
  }

  lemma OneColumn(col: Pick, cols: nat, i: seq<nat>, j: seq<nat>)
    requires col.Slice? && Picks([col], [cols], i, j)
    ensures |i| == 1 && |j| == 1 && IsPickedAt(col, cols, i[0], j[0])
  {
    assert [col][1..] == [] && [cols][1..] == [];
  }

  lemma AtPicked(picks: seq<Pick>, batch: seq<nat>, b: seq<nat>, j: seq<nat>)
    requires AllApply(picks, batch) && picks != [] && picks[0].At? && |j| == |batch| + 2
    requires IsPickedAt(picks[0], batch[0], 0, j[0])
    requires InShape(b, PickedShape(picks[1..], batch[1..]))
    requires j[1..][..|batch| - 1] == PickedIndex(picks[1..], batch[1..], b)
    ensures InShape(b, PickedShape(picks, batch)) && j[..|batch|] == PickedIndex(picks, batch, b)
  {
    assert j[..|batch|] == [j[0]] + j[1..][..|batch| - 1];
  }

  lemma SlicePicked(picks: seq<Pick>, batch: seq<nat>, i: seq<nat>, j: seq<nat>)
    requires AllApply(picks, batch) && picks != [] && picks[0].Slice? && |j| == |batch| + 2 && |i| > 2
    requires i[0] < SliceLength(picks[0], batch[0]) && j[0] == PickOne(picks[0], batch[0], i[0])
    requires InShape(i[1..][..|i| - 3], PickedShape(picks[1..], batch[1..]))
    requires j[1..][..|batch| - 1] == PickedIndex(picks[1..], batch[1..], i[1..][..|i| - 3])
    ensures InShape(i[..|i| - 2], PickedShape(picks, batch))
    ensures j[..|batch|] == PickedIndex(picks, batch, i[..|i| - 2])
  {
    var b := i[..|i| - 2];
    assert b == [i[0]] + i[1..][..|i| - 3] && b[1..] == i[1..][..|i| - 3];
    assert j[..|batch|] == [j[0]] + j[1..][..|batch| - 1];
  }

  /** Picking takes exactly the entries it is asked for. */
  lemma GetItemPicks(t: Tensor, picks: seq<Pick>, row: Pick, col: Pick, i: seq<nat>, j: seq<nat>)
    requires AllApply(picks, t.batch) && row.Slice? && col.Slice? && row.step > 0 && col.step > 0
    requires Picks(picks + [row, col], Shape(t), i, j)
    ensures var u := GetItem(t, picks, row, col);
            InShape(i, Shape(u)) && |j| == |t.batch| + 2 && Entry(u, i) == Entry(t, j)
  {
    PicksApart(picks, row, col, t.batch, t.rows, t.cols, i, j);
    var m, k := |i| - 2, |t.batch|;
    SlicePicks(row, t.rows, i[m], j[k]);
    SlicePicks(col, t.cols, i[m + 1], j[k + 1]);
    var u := GetItem(t, picks, row, col);
    JoinedShape(i, u.batch, u.rows, u.cols);
  }

  lemma JoinedShape(i: seq<nat>, batch: seq<nat>, rows: nat, cols: nat)
    requires |i| >= 2 && InShape(i[..|i| - 2], batch) && i[|i| - 2] < rows && i[|i| - 1] < cols
    ensures InShape(i, batch + [rows, cols])
  {
    forall d | 0 <= d < |i| ensures i[d] < (batch + [rows, cols])[d] {
      assert d < |batch| ==> i[d] == i[..|i| - 2][d];
    }
  }

  /** Every index of the picked tensor has an entry that it stands for. */
  lemma {:induction false} PickedFrom(picks: seq<Pick>, shape: seq<nat>, i: seq<nat>) returns (j: seq<nat>)
    requires AllApply(picks, shape) && InShape(i, PickedShape(picks, shape))
    ensures Picks(picks, shape, i, j) && InShape(j, shape)
    decreases |picks|
  {
    if picks == [] {
      j := [];
    } else {
      assert Applies(picks[0], shape[0]) && AllApply(picks[1..], shape[1..]);
      var rest;
      if picks[0].At? {
        rest := PickedFrom(picks[1..], shape[1..], i);
        j := [PickOne(picks[0], shape[0], 0)] + rest;
      } else {
        TailInShape(i, PickedShape(picks, shape));
        rest := PickedFrom(picks[1..], shape[1..], i[1..]);
        j := [PickOne(picks[0], shape[0], i[0])] + rest;
        SlicePicks(picks[0], shape[0], i[0], j[0]);
      }
      assert j[1..] == rest;
    }
  }

  lemma TailInShape(i: seq<nat>, shape: seq<nat>)
    requires InShape(i, shape) && i != []
    ensures i[0] < shape[0] && InShape(i[1..], shape[1..])
  {
  }

  // ----- of low-rank tensors -----

  /** What an index tuple of integers and slices gives, when it denotes a tensor, entry by entry. */
  lemma GetTuplePicks(l: Lora, picks: seq<Pick>, row: Pick, col: Pick, i: seq<nat>, j: seq<nat>)
    requires Denotes(l) && row.Slice? && col.Slice? && GetTuple(l, picks, row, col).Some?
    requires Denotes(GetTuple(l, picks, row, col).value)
    requires Picks(picks + [row, col], Shape(Materialize(l)), i, j)
    ensures var t := Materialize(GetTuple(l, picks, row, col).value);
            InShape(i, Shape(t)) && |j| == |l.B.batch| + 2 && Entry(t, i) == Entry(Materialize(l), j)
  {
    GetTupleMeansGetItem(l, picks, row, col);
    GetItemPicks(Materialize(l), picks, row, col, i, j);
    var t, u := Materialize(GetTuple(l, picks, row, col).value), GetItem(Materialize(l), picks, row, col);
    SameShapes(t, u);
    SameEntries(t, u, i);
  }

  lemma SameShapes(t: Tensor, u: Tensor)
    requires Same(t, u)
    ensures Shape(t) == Shape(u)
  {
  }

  /** The same for a single integer or slice. */
  lemma GetFirstPicks(l: Lora, p: Pick, i: seq<nat>, j: seq<nat>)
    requires Denotes(l) && l.B.batch != [] && GetFirst(l, p).Some? && Denotes(GetFirst(l, p).value)
    requires Picks([p] + Fulls(|l.B.batch| - 1) + [FULL, FULL], Shape(Materialize(l)), i, j)
    ensures var t := Materialize(GetFirst(l, p).value);
            InShape(i, Shape(t)) && |j| == |l.B.batch| + 2 && Entry(t, i) == Entry(Materialize(l), j)
  {
    GetFirstMeansGetItem(l, p);
    var picks := [p] + Fulls(|l.B.batch| - 1);
    GetItemPicks(Materialize(l), picks, FULL, FULL, i, j);
    var t, u := Materialize(GetFirst(l, p).value), GetItem(Materialize(l), picks, FULL, FULL);
    SameShapes(t, u);
    SameEntries(t, u, i);
  }

  /** The last `k` of `n` rows. */
  lemma LastRows(n: nat, k: int, i: nat, x: nat)
    requires 0 < k <= n
    ensures IsPickedAt(Slice(Some(-k), None, 1), n, i, x) <==> x < n && x == n - k + i
  {
    if x < n && x == n - k + i {
      assert IsFirst(n - k, Some(-k), n);
    }
    if IsPickedAt(Slice(Some(-k), None, 1), n, i, x) {
      var f: nat :| IsFirst(f, Some(-k), n) && x == f + 1 * i;
      FirstIsUnique(f, n - k, Some(-k), n);
    }
  }
}
