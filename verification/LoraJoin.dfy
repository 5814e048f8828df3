/**
 `torch.cat` and `torch.stack` of low-rank tensors: the factors are joined instead of the
 products.
 */
module LoraJoin {
  import opened Options
  import opened Tensors
  import opened LoraTensor

  // ----- joining -----

  /**
   `cat` along dimension 0: with leading dimensions both factors are concatenated; of
   matrices only the B factors are, when all of them share A.
   */
  ghost function Cat(ls: seq<Lora>): Option<Lora>
    requires ls != []
  {
    if ls[0].B.batch != [] then
      (if CanCatLeading(As(ls)) && CanCatLeading(Bs(ls)) then Build(CatLeading(As(ls)), CatLeading(Bs(ls))) else None)
    else if ShareA(ls, ls[0].A) then Build(ls[0].A, CatMatrices(Bs(ls)))
    else None
  }

  function As(ls: seq<Lora>): seq<Tensor> {
    seq(|ls|, j requires 0 <= j < |ls| => ls[j].A)
  }

  function Bs(ls: seq<Lora>): seq<Tensor> {
    seq(|ls|, j requires 0 <= j < |ls| => ls[j].B)
  }

  function Materials(ls: seq<Lora>): seq<Tensor> {
    seq(|ls|, j requires 0 <= j < |ls| => Materialize(ls[j]))
  }

  ghost predicate AllDenote(ls: seq<Lora>) {
    forall j | 0 <= j < |ls| :: Denotes(ls[j])
  }

  ghost predicate ShareA(ls: seq<Lora>, A: Tensor) {
    forall j | 0 <= j < |ls| :: ls[j].B.batch == [] && Same(ls[j].A, A)
  }

  /** Concatenating the B factors means concatenating the products. */
  lemma {:induction false} CatMeansCat(ls: seq<Lora>)
    requires ls != [] && AllDenote(ls) && ls[0].B.batch == []
    ensures Cat(ls).Some? <==> ShareA(ls, ls[0].A)
    ensures Cat(ls).Some? ==> Denotes(Cat(ls).value) && Same(Materialize(Cat(ls).value), CatMatrices(Materials(ls)))
  {
    if ShareA(ls, ls[0].A) {
      var m := Cat(ls).value;
      CatShape(ls);
      forall b: seq<nat>, r: nat, c: nat | InShape(b, []) && r < m.B.rows && c < m.A.cols
        ensures Materialize(m).at(b, r, c) == CatMatrices(Materials(ls)).at(b, r, c)
      {
        CatEntryMeans(ls, m, r, c, 0, r);
      }
    }
  }

  /** Entry by entry: the rows of the product are those of the products, one after the other. */
  lemma CatJoins(ls: seq<Lora>)
    requires ls != [] && AllDenote(ls) && ls[0].B.batch == [] && Cat(ls).Some?
    ensures IsCat(Materialize(Cat(ls).value), Materials(ls), 0)
  {
    CatMeansCat(ls);
    forall j | 0 <= j < |ls| ensures Materials(ls)[j].batch == [] && Materials(ls)[j].cols == Materials(ls)[0].cols {
      assert Materials(ls)[j] == Materialize(ls[j]) && ls[j].A.cols == ls[0].A.cols;
    }
    CatMatricesIsCat(Materials(ls));
    SameIsCat(Materialize(Cat(ls).value), CatMatrices(Materials(ls)), Materials(ls), 0);
  }

  lemma {:induction false} CatShape(ls: seq<Lora>)
    ensures TotalRows(Materials(ls)) == TotalRows(Bs(ls))
  {
    if ls != [] {
      CatShape(ls[1..]);
      assert Materials(ls)[1..] == Materials(ls[1..]) && Bs(ls)[1..] == Bs(ls[1..]);
    }
  }

  lemma {:induction false} CatEntryMeans(ls: seq<Lora>, m: Lora, r: nat, c: nat, j: nat, r': nat)
    requires j <= |ls| && AllDenote(ls) && ShareA(ls, m.A) && m.B.batch == [] && Accepts(m.A, m.B) && c < m.A.cols
    requires r' < TotalRows(Bs(ls)[j..])
    requires forall k | 0 <= k < m.B.cols :: m.B.at([], r, k) == CatEntry(Bs(ls)[j..], [], r', k)
    ensures Materialize(m).at([], r, c) == CatEntry(Materials(ls)[j..], [], r', c)
    decreases |ls| - j
  {
    var bs, ms := Bs(ls)[j..], Materials(ls)[j..];
    assert bs[0] == ls[j].B && ms[0] == Materialize(ls[j]);
    assert bs[1..] == Bs(ls)[j + 1..] && ms[1..] == Materials(ls)[j + 1..];
    if r' < ls[j].B.rows {
      assert Broadcast([], m.A.batch) == [] == Broadcast([], ls[j].A.batch);
      SameEntry(m, [], r, c, ls[j], [], r', c);
    } else {
      CatEntryMeans(ls, m, r, c, j + 1, r' - ls[j].B.rows);
    }
  }

  // ----- cat along a leading dimension -----

  /** The factors fit the way the tensor library asks of `cat`. */
  predicate Joinable(ls: seq<Lora>) {
    && ls != [] && (forall j | 0 <= j < |ls| :: Denotes(ls[j]))
    && CanCatLeading(As(ls)) && CanCatLeading(Bs(ls))
  }

  lemma LeadingFits(ls: seq<Lora>, j: nat)
    requires Joinable(ls) && j < |ls|
    ensures ls[j].A.batch != [] && ls[j].B.batch != [] && ls[0].A.batch != []
    ensures ls[j].A.batch[1..] == ls[0].A.batch[1..]
    ensures Leading(As(ls))[j] == ls[j].A.batch[0] && Leading(Bs(ls))[j] == ls[j].B.batch[0]
    ensures ls[j].A.batch[0] == 1 || ls[j].A.batch[0] == ls[j].B.batch[0]
  {
    assert As(ls)[j] == ls[j].A && Bs(ls)[j] == ls[j].B && As(ls)[0] == ls[0].A;
    assert |ls[j].A.batch| == |ls[j].B.batch|;
  }

  lemma CatIsBuilt(ls: seq<Lora>)
    requires Joinable(ls)
    ensures Cat(ls) == Some(Lora(CatLeading(As(ls)), CatLeading(Bs(ls))))
    ensures CanCatLeading(Materials(ls)) && Leading(Materials(ls)) == Leading(Bs(ls))
  {
    LeadingFits(ls, 0);
    forall j | 0 <= j < |ls| ensures Bs(ls)[j] == ls[j].B && Materials(ls)[j].batch == ls[j].B.batch {
    }
    forall j | 0 <= j < |ls|
      ensures Materials(ls)[j].batch[1..] == Materials(ls)[0].batch[1..] &&
              Materials(ls)[j].rows == Materials(ls)[0].rows && Materials(ls)[j].cols == Materials(ls)[0].cols
    {
      assert As(ls)[j] == ls[j].A && Bs(ls)[j] == ls[j].B;
      assert As(ls)[0] == ls[0].A && Bs(ls)[0] == ls[0].B;
    }
    assert Accepts(CatLeading(As(ls)), CatLeading(Bs(ls))) by {
      assert As(ls)[0] == ls[0].A && Bs(ls)[0] == ls[0].B && Denotes(ls[0]);
    }
  }

  /** Every size of A is 1 or the one of B. */
  predicate SizesRepeat(a: seq<nat>, b: seq<nat>) {
    |a| == |b| && forall j | 0 <= j < |a| :: a[j] == 1 || a[j] == b[j]
  }

  /** Entry `i` of the joined factors takes A from the tensor it takes B from, and at the right place. */
  predicate Aligned(a: seq<nat>, b: seq<nat>, i: nat)
    requires SizesRepeat(a, b) && i < SumOf(b) && (SumOf(a) == 1 || i < SumOf(a))
  {
    var p := Locate(b, i);
    Locate(a, if SumOf(a) == 1 then 0 else i) == (p.0, if a[p.0] == 1 then 0 else p.1)
  }

  /** One entry of the joined factors pairs up the numbers of one entry of the part it comes from. */
  lemma JoinedEntry(ls: seq<Lora>, m: Lora, b: seq<nat>, r: nat, c: nat)
    requires Joinable(ls) && m == Lora(CatLeading(As(ls)), CatLeading(Bs(ls)))
    requires InShape(b, m.B.batch) && SizesRepeat(Leading(As(ls)), Leading(Bs(ls)))
    requires SumOf(Leading(As(ls))) == 1 || b[0] < SumOf(Leading(As(ls)))
    requires Aligned(Leading(As(ls)), Leading(Bs(ls)), b[0])
    ensures var p := Locate(Leading(Bs(ls)), b[0]);
            Materialize(m).at(b, r, c) == Materialize(ls[p.0]).at([p.1] + b[1..], r, c)
  {
    var p := Locate(Leading(Bs(ls)), b[0]);
    var l, i := ls[p.0], [p.1] + b[1..];
    LeadingFits(ls, p.0);
    assert As(ls)[p.0] == l.A && Bs(ls)[p.0] == l.B && As(ls)[0] == ls[0].A && Bs(ls)[0] == ls[0].B;
    JoinedBroadcast(m.A.batch, l.A.batch, b, p.1);
    SameEntry(m, b, r, c, l, i, r, c);
  }

  /** Behind the leading dimension A is repeated in the joined factor as in each part. */
  lemma JoinedBroadcast(joined: seq<nat>, shape: seq<nat>, b: seq<nat>, i: nat)
    requires b != [] && joined != [] && shape != [] && joined[1..] == shape[1..] && |b| == |joined|
    ensures Broadcast(b, joined)[0] == if joined[0] == 1 then 0 else b[0]
    ensures [if shape[0] == 1 then 0 else i] + Broadcast(b, joined)[1..] == Broadcast([i] + b[1..], shape)
  {
    assert |shape| == |joined|;
    forall d | 1 <= d < |b| ensures Broadcast(b, joined)[d] == Broadcast([i] + b[1..], shape)[d] {
      assert joined[1..][d - 1] == shape[1..][d - 1];
    }
  }

  lemma AlignedWhenSame(a: seq<nat>, i: nat)
    requires i < SumOf(a)
    ensures Aligned(a, a, i)
  {
  }

  lemma {:induction false} NothingToRepeat(a: seq<nat>, b: seq<nat>)
    requires SizesRepeat(a, b) && SumOf(a) == 0
    ensures SumOf(b) == 0
  {
    if a != [] {
      NothingToRepeat(a[1..], b[1..]);
    }
  }

  /** With a single A entry, only its own tensor has entries at all. */
  lemma {:induction false} AlignedWhenOne(a: seq<nat>, b: seq<nat>, i: nat)
    requires SizesRepeat(a, b) && SumOf(a) == 1 && i < SumOf(b)
    ensures Aligned(a, b, i)
  {
    if a[0] == 1 {
      NothingToRepeat(a[1..], b[1..]);
    } else {
      AlignedWhenOne(a[1..], b[1..], i);
    }
  }

  /** Where sizes differ but their sums do not, some entry takes A from another tensor than B. */
  lemma {:induction false} Misaligned(a: seq<nat>, b: seq<nat>) returns (i: nat)
    requires SizesRepeat(a, b) && SumOf(a) == SumOf(b) && a != b
    ensures i < SumOf(b) && Locate(a, i).0 != Locate(b, i).0
  {
    if a[0] == b[0] {
      assert a == [a[0]] + a[1..] && b == [b[0]] + b[1..];
      i := Misaligned(a[1..], b[1..]);
      i := a[0] + i;
    } else {
      i := if b[0] == 0 then 0 else 1;
    }
  }

  /** The joined factors denote a tensor exactly when the leading sizes of A add up. */
  lemma JoinDenotes(ls: seq<Lora>)
    requires Joinable(ls)
    ensures SizesRepeat(Leading(As(ls)), Leading(Bs(ls)))
    ensures Cat(ls) == Some(Lora(CatLeading(As(ls)), CatLeading(Bs(ls))))
    ensures Denotes(Cat(ls).value) <==>
            SumOf(Leading(As(ls))) == 1 || SumOf(Leading(As(ls))) == SumOf(Leading(Bs(ls)))
  {
    CatIsBuilt(ls);
    var a, b := Leading(As(ls)), Leading(Bs(ls));
    forall j | 0 <= j < |ls| ensures a[j] == 1 || a[j] == b[j] {
      LeadingFits(ls, j);
    }
    var m := Cat(ls).value;
    LeadingFits(ls, 0);
    assert As(ls)[0] == ls[0].A && Bs(ls)[0] == ls[0].B;
    assert m.A.batch[0] == SumOf(a) && m.B.batch[0] == SumOf(b);
    forall d | 1 <= d < |m.A.batch| ensures m.A.batch[d] == 1 || m.A.batch[d] == m.B.batch[d] {
      assert m.A.batch[d] == ls[0].A.batch[d] && m.B.batch[d] == ls[0].B.batch[d];
    }
  }

  lemma JoinMeansCat(ls: seq<Lora>)
    requires Joinable(ls)
    requires SumOf(Leading(As(ls))) == 1 || Leading(As(ls)) == Leading(Bs(ls))
    ensures Cat(ls).Some? && CanCatLeading(Materials(ls))
    ensures Same(Materialize(Cat(ls).value), CatLeading(Materials(ls)))
  {
    JoinDenotes(ls);
    CatIsBuilt(ls);
    var a, b := Leading(As(ls)), Leading(Bs(ls));
    var m := Cat(ls).value;
    assert As(ls)[0] == ls[0].A && Bs(ls)[0] == ls[0].B && Materials(ls)[0] == Materialize(ls[0]);
    forall i: seq<nat>, r: nat, c: nat | InShape(i, m.B.batch)
      ensures Materialize(m).at(i, r, c) == CatLeading(Materials(ls)).at(i, r, c)
    {
      if SumOf(a) == 1 {
        AlignedWhenOne(a, b, i[0]);
      } else {
        AlignedWhenSame(a, i[0]);
      }
      JoinedEntry(ls, m, i, r, c);
    }
  }

  /**
   Concatenating both factors denotes a tensor exactly when the leading sizes of A add up
   to 1 or to those of B. It is the concatenation of the products when they add up to 1, or
   when no A is repeated; otherwise some entry multiplies a B with the A of another tensor.
   */
  lemma CatLeadingMeansCat(ls: seq<Lora>)
    requires Joinable(ls)
    ensures var a, b := Leading(As(ls)), Leading(Bs(ls));
            Cat(ls).Some? && CanCatLeading(Materials(ls)) &&
            (Denotes(Cat(ls).value) <==> SumOf(a) == 1 || SumOf(a) == SumOf(b)) &&
            (SumOf(a) == 1 || a == b ==> Same(Materialize(Cat(ls).value), CatLeading(Materials(ls)))) &&
            (SumOf(a) == SumOf(b) && a != b ==>
              exists i: nat :: i < SumOf(b) && Locate(a, i).0 != Locate(b, i).0)
  {
    JoinDenotes(ls);
    CatIsBuilt(ls);
    var a, b := Leading(As(ls)), Leading(Bs(ls));
    if SumOf(a) == 1 || a == b {
      JoinMeansCat(ls);
    }
    if SumOf(a) == SumOf(b) && a != b {
      var i := Misaligned(a, b);
      assert i < SumOf(b) && Locate(a, i).0 != Locate(b, i).0;
    }
  }

  /** Entry by entry: the first dimension of the product is that of the products, one after the other. */
  lemma CatLeadingJoins(ls: seq<Lora>)
    requires Joinable(ls)
    requires SumOf(Leading(As(ls))) == 1 || Leading(As(ls)) == Leading(Bs(ls))
    ensures Cat(ls).Some? && IsCat(Materialize(Cat(ls).value), Materials(ls), 0)
  {
    CatLeadingMeansCat(ls);
    CatLeadingIsCat(Materials(ls));
    SameIsCat(Materialize(Cat(ls).value), CatLeading(Materials(ls)), Materials(ls), 0);
  }

  /** Two tensors that both repeat A do not fit together any more. */
  lemma TwoRepeatedFail(l: Lora)
    requires Denotes(l) && l.A.batch == [1] && l.B.batch == [2]
    ensures Cat([l, l]).Some? && !Denotes(Cat([l, l]).value)
  {
    var ls := [l, l];
    assert As(ls) == [l.A, l.A] && Bs(ls) == [l.B, l.B];
    assert Leading(As(ls)) == [1, 1] && Leading(Bs(ls)) == [2, 2];
    assert [1, 1][1..] == [1] && [1][1..] == [] && [2, 2][1..] == [2] && [2][1..] == [];
    assert SumOf([1]) == 1 && SumOf([2]) == 2 && SumOf([1, 1]) == 2 && SumOf([2, 2]) == 4;
    JoinDenotes(ls);
  }

  // ----- which shapes can be joined -----

  predicate ShapedAlike(t: Tensor, u: Tensor) {
    t.batch == u.batch && t.rows == u.rows && t.cols == u.cols
  }

  /** Tensors of the shapes of `ls`, with any entries. */
  predicate ShapedAs(qs: seq<Lora>, ls: seq<Lora>) {
    |qs| == |ls| && forall j | 0 <= j < |ls| :: ShapedAlike(qs[j].A, ls[j].A) && ShapedAlike(qs[j].B, ls[j].B)
  }

  ghost predicate CatIsRight(qs: seq<Lora>)
    requires qs != []
  {
    Cat(qs).Some? && CanCatLeading(Materials(qs)) && Denotes(Cat(qs).value) &&
    Same(Materialize(Cat(qs).value), CatLeading(Materials(qs)))
  }

  /** Behind the first dimension there is something to multiply. */
  predicate HasEntries(l: Lora) {
    l.B.rows > 0 && l.B.cols > 0 && l.A.cols > 0 && forall d | 1 <= d < |l.B.batch| :: l.B.batch[d] > 0
  }

  /**
   The shapes for which concatenating both factors is right whatever the entries are: the
   leading sizes of A add up to 1, or no A is repeated. Beside these there are only tensors
   without entries, or of rank 0, when the sizes of A and B add up to the same.
   */
  lemma CatLeadingIff(ls: seq<Lora>)
    requires Joinable(ls)
    ensures var a, b := Leading(As(ls)), Leading(Bs(ls));
            (forall qs: seq<Lora> | ShapedAs(qs, ls) :: CatIsRight(qs)) <==>
            SumOf(a) == 1 || a == b || (SumOf(a) == SumOf(b) && !HasEntries(ls[0]))
  {
    var a, b := Leading(As(ls)), Leading(Bs(ls));
    if SumOf(a) == 1 || a == b || (SumOf(a) == SumOf(b) && !HasEntries(ls[0])) {
      forall qs: seq<Lora> | ShapedAs(qs, ls) ensures CatIsRight(qs) {
        SameShapesJoin(qs, ls);
        CatIsBuilt(qs);
        CatLeadingMeansCat(qs);
        if SumOf(a) != 1 && a != b {
          NothingToJoin(qs);
        }
      }
    } else {
      PaintedShapes(ls);
      SameShapesJoin(Painted(ls), ls);
      CatLeadingMeansCat(Painted(ls));
      if SumOf(a) == SumOf(b) {
        PaintedDiffers(ls);
      }
    }
  }

  lemma SameShapesJoin(qs: seq<Lora>, ls: seq<Lora>)
    requires Joinable(ls) && ShapedAs(qs, ls)
    ensures Joinable(qs) && Leading(As(qs)) == Leading(As(ls)) && Leading(Bs(qs)) == Leading(Bs(ls))
    ensures HasEntries(qs[0]) == HasEntries(ls[0])
  {
    forall j | 0 <= j < |ls|
      ensures ShapedAlike(As(qs)[j], As(ls)[j]) && ShapedAlike(Bs(qs)[j], Bs(ls)[j]) && Denotes(qs[j])
    {
      assert As(qs)[j] == qs[j].A && As(ls)[j] == ls[j].A && Bs(qs)[j] == qs[j].B && Bs(ls)[j] == ls[j].B;
    }
  }

  lemma NothingToJoin(ls: seq<Lora>)
    requires Joinable(ls) && !HasEntries(ls[0])
    ensures CanCatLeading(Materials(ls)) && Same(Product(CatLeading(Bs(ls)), CatLeading(As(ls))), CatLeading(Materials(ls)))
  {
    CatIsBuilt(ls);
    var m := Lora(CatLeading(As(ls)), CatLeading(Bs(ls)));
    assert As(ls)[0] == ls[0].A && Bs(ls)[0] == ls[0].B && Materials(ls)[0] == Materialize(ls[0]);
    forall i: seq<nat>, r: nat, c: nat | InShape(i, m.B.batch) && r < m.B.rows && c < m.A.cols
      ensures Materialize(m).at(i, r, c) == CatLeading(Materials(ls)).at(i, r, c)
    {
      forall d | 1 <= d < |ls[0].B.batch| ensures ls[0].B.batch[d] > 0 {
        assert m.B.batch[d] == ls[0].B.batch[d] && i[d] < m.B.batch[d];
      }
      RankZeroEntry(ls, i, r, c);
    }
  }

  lemma RankZeroEntry(ls: seq<Lora>, i: seq<nat>, r: nat, c: nat)
    requires Joinable(ls) && CanCatLeading(Materials(ls)) && ls[0].B.cols == 0
    ensures Product(CatLeading(Bs(ls)), CatLeading(As(ls))).at(i, r, c) == 0.0
    ensures CatLeading(Materials(ls)).at(i, r, c) == 0.0
  {
    assert Bs(ls)[0] == ls[0].B;
    var sizes := Leading(Materials(ls));
    if i != [] && i[0] < SumOf(sizes) {
      var p := Locate(sizes, i[0]);
      assert Materials(ls)[p.0] == Materialize(ls[p.0]) && Bs(ls)[p.0] == ls[p.0].B;
    }
  }

  /** Every entry of A is the number of its tensor, and B takes the first row of A. */
  function Painted(ls: seq<Lora>): seq<Lora> {
    seq(|ls|, j requires 0 <= j < |ls| => Paint(ls[j], j))
  }

  function Paint(l: Lora, n: nat): Lora {
    Lora(Tensor(l.A.batch, l.A.rows, l.A.cols, (b: seq<nat>, r: nat, c: nat) => n as real),
         Tensor(l.B.batch, l.B.rows, l.B.cols, (b: seq<nat>, r: nat, c: nat) => if c == 0 then 1.0 else 0.0))
  }

  lemma PaintedShapes(ls: seq<Lora>)
    ensures ShapedAs(Painted(ls), ls)
  {
  }

  lemma {:induction false} PaintedDot(B: Tensor, A: Tensor, b: seq<nat>, r: nat, c: nat, n: nat, x: real)
    requires n > 0 && forall k | 0 <= k < n :: Term(B, A, b, r, c, k) == if k == 0 then x else 0.0
    ensures Dot(B, A, b, r, c, n) == x
  {
    if n == 1 {
      assert Dot(B, A, b, r, c, 0) == 0.0;
    } else {
      PaintedDot(B, A, b, r, c, n - 1, x);
    }
  }

  /** Where a B meets the A of another tensor, the painted product shows it. */
  lemma PaintedDiffers(ls: seq<Lora>)
    requires Joinable(ls) && HasEntries(ls[0])
    requires SumOf(Leading(As(ls))) == SumOf(Leading(Bs(ls))) && Leading(As(ls)) != Leading(Bs(ls))
    ensures !CatIsRight(Painted(ls))
  {
    PaintedShapes(ls);
    SameShapesJoin(Painted(ls), ls);
    JoinDenotes(ls);
    var i := Misaligned(Leading(As(ls)), Leading(Bs(ls)));
    InJoined(ls, i);
    DiffersAt(ls, Front(ls, i));
  }

  lemma DiffersAt(ls: seq<Lora>, at: seq<nat>)
    requires Joinable(ls) && Joinable(Painted(ls)) && SumOf(Leading(As(ls))) == SumOf(Leading(Bs(ls)))
    requires ls[0].B.cols > 0 && at != [] && at[0] < SumOf(Leading(Bs(ls)))
    requires Locate(Leading(As(ls)), at[0]).0 != Locate(Leading(Bs(ls)), at[0]).0
    requires InShape(at, CatLeading(Bs(ls)).batch) && CatLeading(Bs(ls)).rows > 0 && CatLeading(As(ls)).cols > 0
    ensures !CatIsRight(Painted(ls))
  {
    var qs := Painted(ls);
    EntriesDiffer(ls, at);
    PaintedJoin(ls);
    NotSame(Product(CatLeading(Bs(qs)), CatLeading(As(qs))), CatLeading(Materials(qs)), at);
    CatIsBuilt(qs);
  }

  lemma EntriesDiffer(ls: seq<Lora>, at: seq<nat>)
    requires Joinable(ls) && Joinable(Painted(ls)) && SumOf(Leading(As(ls))) == SumOf(Leading(Bs(ls)))
    requires ls[0].B.cols > 0 && at != [] && at[0] < SumOf(Leading(Bs(ls)))
    requires Locate(Leading(As(ls)), at[0]).0 != Locate(Leading(Bs(ls)), at[0]).0
    ensures var qs := Painted(ls);
            CanCatLeading(Materials(qs)) &&
            Product(CatLeading(Bs(qs)), CatLeading(As(qs))).at(at, 0, 0) != CatLeading(Materials(qs)).at(at, 0, 0)
  {
    JoinedPaint(ls, at);
    PartPaint(ls, at);
  }

  lemma PaintedJoin(ls: seq<Lora>)
    requires Joinable(ls) && Joinable(Painted(ls))
    ensures ShapedAlike(CatLeading(As(Painted(ls))), CatLeading(As(ls)))
    ensures ShapedAlike(CatLeading(Bs(Painted(ls))), CatLeading(Bs(ls)))
  {
    PaintedShapes(ls);
    SameShapesJoin(Painted(ls), ls);
    assert As(Painted(ls))[0] == Painted(ls)[0].A && Bs(Painted(ls))[0] == Painted(ls)[0].B;
    assert As(ls)[0] == ls[0].A && Bs(ls)[0] == ls[0].B;
  }

  lemma NotSame(t: Tensor, u: Tensor, at: seq<nat>)
    requires InShape(at, t.batch) && t.rows > 0 && t.cols > 0 && t.at(at, 0, 0) != u.at(at, 0, 0)
    ensures !Same(t, u)
  {
  }

  /** The first index behind `i`. */
  function Front(ls: seq<Lora>, i: nat): (at: seq<nat>)
    requires Joinable(ls)
    ensures at != [] && at[0] == i
  {
    LeadingFits(ls, 0);
    [i] + seq(|ls[0].B.batch| - 1, d => 0)
  }

  lemma InJoined(ls: seq<Lora>, i: nat)
    requires Joinable(ls) && HasEntries(ls[0]) && i < SumOf(Leading(Bs(ls)))
    ensures InShape(Front(ls, i), CatLeading(Bs(ls)).batch)
    ensures CatLeading(Bs(ls)).rows > 0 && CatLeading(As(ls)).cols > 0
  {
    LeadingFits(ls, 0);
    assert As(ls)[0] == ls[0].A && Bs(ls)[0] == ls[0].B;
  }

  /** In the joined factors the entry shows the tensor that A comes from. */
  lemma JoinedPaint(ls: seq<Lora>, at: seq<nat>)
    requires Joinable(ls) && Joinable(Painted(ls)) && SumOf(Leading(As(ls))) == SumOf(Leading(Bs(ls)))
    requires ls[0].B.cols > 0 && at != [] && at[0] < SumOf(Leading(As(ls)))
    ensures var qs := Painted(ls);
            Product(CatLeading(Bs(qs)), CatLeading(As(qs))).at(at, 0, 0) ==
            Locate(Leading(As(ls)), at[0]).0 as real
  {
    var qs := Painted(ls);
    PaintedShapes(ls);
    SameShapesJoin(qs, ls);
    var A, B := CatLeading(As(qs)), CatLeading(Bs(qs));
    assert Bs(qs)[0] == qs[0].B;
    var i := Broadcast(at, A.batch);
    assert A.batch[0] == SumOf(Leading(As(ls))) && i[0] == at[0];
    forall k | 0 <= k < B.cols ensures Term(B, A, at, 0, 0, k) == if k == 0 then Locate(Leading(As(ls)), at[0]).0 as real else 0.0 {
      PaintedEntry(ls, i, k, 0);
      PaintedEntry(ls, at, 0, k);
    }
    PaintedDot(B, A, at, 0, 0, B.cols, Locate(Leading(As(ls)), at[0]).0 as real);
  }

  lemma PaintedEntry(ls: seq<Lora>, i: seq<nat>, r: nat, c: nat)
    requires Joinable(ls) && Joinable(Painted(ls)) && i != [] && i[0] < SumOf(Leading(As(ls)))
    requires SumOf(Leading(As(ls))) == SumOf(Leading(Bs(ls)))
    ensures CatLeading(As(Painted(ls))).at(i, r, c) == Locate(Leading(As(ls)), i[0]).0 as real
    ensures CatLeading(Bs(Painted(ls))).at(i, r, c) == if c == 0 then 1.0 else 0.0
  {
    var qs := Painted(ls);
    PaintedShapes(ls);
    SameShapesJoin(qs, ls);
    var p, q := Locate(Leading(As(ls)), i[0]).0, Locate(Leading(Bs(ls)), i[0]).0;
    assert As(qs)[p] == Paint(ls[p], p).A && Bs(qs)[q] == Paint(ls[q], q).B;
  }

  /** In the concatenation of the products it shows the tensor that B comes from. */
  lemma PartPaint(ls: seq<Lora>, at: seq<nat>)
    requires Joinable(ls) && Joinable(Painted(ls))
    requires ls[0].B.cols > 0 && at != [] && at[0] < SumOf(Leading(Bs(ls)))
    ensures var qs := Painted(ls);
            CanCatLeading(Materials(qs)) &&
            CatLeading(Materials(qs)).at(at, 0, 0) == Locate(Leading(Bs(ls)), at[0]).0 as real
  {
    var qs := Painted(ls);
    PaintedShapes(ls);
    SameShapesJoin(qs, ls);
    CatIsBuilt(qs);
    var p := Locate(Leading(Bs(ls)), at[0]);
    var q := qs[p.0];
    assert Materials(qs)[p.0] == Materialize(q) && Bs(qs)[p.0] == q.B && Bs(qs)[0] == qs[0].B;
    PaintedDot(q.B, q.A, [p.1] + at[1..], 0, 0, q.B.cols, p.0 as real);
  }

  /** Beside a tensor without entries, a repeated A is taken for another: the sizes 1 and 1 stand for 0 and 2. */
  lemma RepeatedBesideEmpty(l: Lora, k: Lora)
    requires Denotes(l) && Denotes(k) && HasEntries(l)
    requires l.A.batch == [1] == k.A.batch && l.B.batch == [0] && k.B.batch == [2]
    requires l.A.cols == k.A.cols && l.B.cols == k.B.cols && l.B.rows == k.B.rows
    ensures Joinable(Painted([l, k])) && Denotes(Cat(Painted([l, k])).value) && !CatIsRight(Painted([l, k]))
  {
    var ls := [l, k];
    assert As(ls) == [l.A, k.A] && Bs(ls) == [l.B, k.B];
    assert Leading(As(ls)) == [1, 1] && Leading(Bs(ls)) == [0, 2];
    assert [1, 1][1..] == [1] && [0, 2][1..] == [2] && [1][1..] == [] && [2][1..] == [];
    assert SumOf([1]) == 1 && SumOf([2]) == 2 && SumOf([1, 1]) == 2 && SumOf([0, 2]) == 2;
    PaintedShapes(ls);
    SameShapesJoin(Painted(ls), ls);
    JoinDenotes(Painted(ls));
    PaintedDiffers(ls);
  }

  /** `stack` along a new dimension 0. */
  function StackLoras(ls: seq<Lora>): Option<Lora>
    requires ls != []
  {
    Build(Stack(As(ls)), Stack(Bs(ls)))
  }

  ghost predicate SameShapes(ls: seq<Lora>) {
    forall j | 0 <= j < |ls| :: Denotes(ls[j]) &&
      ls[j].A.batch == ls[0].A.batch && ls[j].A.rows == ls[0].A.rows && ls[j].A.cols == ls[0].A.cols &&
      ls[j].B.batch == ls[0].B.batch && ls[j].B.rows == ls[0].B.rows
  }

  /** Stacking both factors means stacking the products. */
  lemma {:induction false} StackMeansStack(ls: seq<Lora>)
    requires ls != [] && SameShapes(ls)
    ensures StackLoras(ls).Some? && Denotes(StackLoras(ls).value)
    ensures Same(Materialize(StackLoras(ls).value), Stack(Materials(ls)))
  {
    var m := StackLoras(ls).value;
    forall b: seq<nat>, r: nat, c: nat | InShape(b, m.B.batch)
      ensures Materialize(m).at(b, r, c) == Stack(Materials(ls)).at(b, r, c)
    {
      var l := ls[b[0]];
      StackedBroadcast(m.A.batch, l.A.batch, b);
      SameEntry(m, b, r, c, l, b[1..], r, c);
    }
  }

  /** Entry by entry: entry `i` of tensor `j` is found at `[j] + i`. */
  lemma StackHolds(ls: seq<Lora>, j: nat, i: seq<nat>)
    requires ls != [] && SameShapes(ls) && j < |ls| && InShape(i, Shape(Materialize(ls[j])))
    ensures StackLoras(ls).Some?
    ensures var t := Materialize(StackLoras(ls).value);
            InShape([j] + i, Shape(t)) && |i| == |ls[j].B.batch| + 2 && Entry(t, [j] + i) == Entry(Materialize(ls[j]), i)
  {
    StackMeansStack(ls);
    var t, u := Materialize(StackLoras(ls).value), Stack(Materials(ls));
    assert Materials(ls)[j] == Materialize(ls[j]) && Materials(ls)[0] == Materialize(ls[0]);
    StackedIndex(ls, j, i);
    SameEntries(t, u, [j] + i);
    var k := |ls[j].B.batch|;
    assert ([j] + i)[..k + 1] == [j] + i[..k];
  }

  lemma StackedIndex(ls: seq<Lora>, j: nat, i: seq<nat>)
    requires ls != [] && SameShapes(ls) && j < |ls| && InShape(i, Shape(Materialize(ls[j])))
    requires StackLoras(ls).Some?
    ensures InShape([j] + i, Shape(Materialize(StackLoras(ls).value)))
  {
    var shape := Shape(Materialize(ls[j]));
    assert Shape(Materialize(StackLoras(ls).value)) == [|ls|] + shape;
    forall d | 0 <= d < |[j] + i| ensures ([j] + i)[d] < ([|ls|] + shape)[d] {
      assert d > 0 ==> i[d - 1] < shape[d - 1];
    }
  }

  lemma StackedBroadcast(stacked: seq<nat>, shape: seq<nat>, b: seq<nat>)
    requires b != [] && stacked != [] && stacked[1..] == shape && |b| == |stacked| && b[0] < stacked[0]
    ensures Broadcast(b, stacked)[0] == b[0] && Broadcast(b, stacked)[1..] == Broadcast(b[1..], shape)
  {
  }
}
