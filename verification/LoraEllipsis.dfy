/**
 Index tuples with an ellipsis: what `LoraTorchTensor.__getitem__` expands them to, and for
 which tensors that is what the tensor library expands them to.
 */
module LoraEllipsis {
  import opened Options
  import opened Tensors
  import opened LoraTensor
  import opened LoraIndexing

  datatype Entry = Dots | One(pick: Pick)

  predicate NoDots(ix: seq<Entry>) {
    forall d | 0 <= d < |ix| :: ix[d].One?
  }

  /** The entries, with `dots` full slices for every ellipsis. */
  function Entries(ix: seq<Entry>, dots: nat): seq<Pick> {
    if ix == [] then []
    else (if ix[0].Dots? then Fulls(dots) else [ix[0].pick]) + Entries(ix[1..], dots)
  }

  /** Full slices are added up to the number of dimensions; more entries are an error. */
  function Completed(picks: seq<Pick>, n: nat): Option<seq<Pick>> {
    if |picks| > n then None else Some(picks + Fulls(n - |picks|))
  }

  /**
   What `__getitem__` makes of an index tuple: an ellipsis at the end is dropped, and any
   other stands for one full slice fewer than the tuple has entries. An empty tuple fails
   the assertion at the beginning.
   */
  function Expand(ix: seq<Entry>, n: nat): Option<seq<Pick>> {
    if ix == [] then None
    else if ix[|ix| - 1].Dots? then Expand(ix[..|ix| - 1], n)
    else Completed(Entries(ix, |ix| - 1), n)
  }

  /** What the tensor library makes of a tuple with one ellipsis, between `pre` and `post`. */
  function LibraryExpand(pre: seq<Entry>, post: seq<Entry>, n: nat): Option<seq<Pick>> {
    var k := |pre| + |post|;
    if k > n then None else Some(Entries(pre, 0) + Fulls(n - k) + Entries(post, 0))
  }

  lemma {:induction false} EntriesAppend(a: seq<Entry>, b: seq<Entry>, dots: nat)
    ensures Entries(a + b, dots) == Entries(a, dots) + Entries(b, dots)
  {
    if a == [] {
      assert a + b == b;
    } else {
      assert (a + b)[1..] == a[1..] + b;
      EntriesAppend(a[1..], b, dots);
    }
  }

  lemma {:induction false} EntriesOfPicks(ix: seq<Entry>, dots: nat)
    requires NoDots(ix)
    ensures Entries(ix, dots) == Entries(ix, 0) && |Entries(ix, dots)| == |ix|
  {
    if ix != [] {
      EntriesOfPicks(ix[1..], dots);
    }
  }

  predicate AllFull(picks: seq<Pick>) {
    forall d | 0 <= d < |picks| :: picks[d] == FULL
  }

  /** Full slices can only be moved across entries that are full slices themselves. */
  lemma {:induction false} FullsMove(picks: seq<Pick>, m: nat)
    requires m > 0
    ensures picks + Fulls(m) == Fulls(m) + picks <==> AllFull(picks)
  {
    if AllFull(picks) {
      assert picks == Fulls(|picks|);
      assert Fulls(|picks|) + Fulls(m) == Fulls(m) + Fulls(|picks|);
    } else if picks + Fulls(m) == Fulls(m) + picks {
      FirstFull(picks, m);
      var d :| 0 <= d < |picks| && picks[d] != FULL;
      AllAreFull(picks, m, d);
    }
  }

  lemma FirstFull(picks: seq<Pick>, m: nat)
    requires m > 0 && picks != [] && picks + Fulls(m) == Fulls(m) + picks
    ensures picks[0] == FULL
  {
    assert (picks + Fulls(m))[0] == picks[0] && (Fulls(m) + picks)[0] == FULL;
  }

  lemma {:induction false} AllAreFull(picks: seq<Pick>, m: nat, d: nat)
    requires m > 0 && d < |picks| && picks + Fulls(m) == Fulls(m) + picks
    ensures picks[d] == FULL
  {
    assert (picks + Fulls(m))[d] == picks[d];
    if d < m {
      assert (Fulls(m) + picks)[d] == FULL;
    } else {
      AllAreFull(picks, m, d - m);
      assert (Fulls(m) + picks)[d] == picks[d - m];
    }
  }

  /** One ellipsis that is not at the end. */
  lemma ExpandedInside(pre: seq<Entry>, post: seq<Entry>, n: nat)
    requires NoDots(pre) && NoDots(post) && post != []
    ensures var k := |pre| + |post|;
            Expand(pre + [Dots] + post, n) ==
            if 2 * k > n then None
            else Some(Entries(pre, 0) + Fulls(k) + Entries(post, 0) + Fulls(n - 2 * k))
  {
    var ix := pre + [Dots] + post;
    var k := |pre| + |post|;
    assert ix[|ix| - 1] == post[|post| - 1];
    EntriesAppend(pre + [Dots], post, k);
    EntriesAppend(pre, [Dots], k);
    EntriesOfPicks(pre, k);
    EntriesOfPicks(post, k);
    assert [Dots][1..] == [] && Entries([Dots], k) == Fulls(k) + [];
    assert Fulls(k) + [] == Fulls(k);
  }

  lemma ExpandedAtEnd(pre: seq<Entry>, n: nat)
    requires NoDots(pre)
    ensures Expand(pre + [Dots], n) ==
            if pre == [] || |pre| > n then None else Some(Entries(pre, 0) + Fulls(n - |pre|))
  {
    assert (pre + [Dots])[..|pre|] == pre;
    if pre != [] {
      EntriesOfPicks(pre, |pre| - 1);
    }
  }

  /**
   The expansion is the library's exactly when: the ellipsis is at the end and not alone;
   or there are too many entries for both; or as many full slices are needed as there are
   other entries; or fewer, and everything behind the ellipsis is a full slice.
   */
  predicate ExpandsRight(pre: seq<Entry>, post: seq<Entry>, n: nat) {
    var k := |pre| + |post|;
    if post == [] then pre != []
    else k > n || n == 2 * k || (n > 2 * k && AllFull(Entries(post, 0)))
  }

  lemma CancelFront(x: seq<Pick>, a: seq<Pick>, b: seq<Pick>)
    ensures x + a == x + b <==> a == b
  {
    if x + a == x + b {
      assert (x + a)[|x|..] == a && (x + b)[|x|..] == b;
    }
  }

  lemma EllipsisIsExpanded(pre: seq<Entry>, post: seq<Entry>, n: nat)
    requires NoDots(pre) && NoDots(post)
    ensures Expand(pre + [Dots] + post, n) == LibraryExpand(pre, post, n) <==> ExpandsRight(pre, post, n)
  {
    if post == [] {
      EllipsisAtEnd(pre, n);
    } else {
      EllipsisInside(pre, post, n);
    }
  }

  lemma EllipsisAtEnd(pre: seq<Entry>, n: nat)
    requires NoDots(pre)
    ensures Expand(pre + [Dots] + [], n) == LibraryExpand(pre, [], n) <==> pre != []
  {
    assert pre + [Dots] + [] == pre + [Dots];
    ExpandedAtEnd(pre, n);
    if |pre| <= n {
      assert Entries(pre, 0) + Fulls(n - |pre|) + [] == Entries(pre, 0) + Fulls(n - |pre|);
    }
  }

  lemma EllipsisInside(pre: seq<Entry>, post: seq<Entry>, n: nat)
    requires NoDots(pre) && NoDots(post) && post != []
    ensures Expand(pre + [Dots] + post, n) == LibraryExpand(pre, post, n) <==> ExpandsRight(pre, post, n)
  {
    var k := |pre| + |post|;
    ExpandedInside(pre, post, n);
    if 2 * k <= n {
      FullsAround(Entries(pre, 0), Entries(post, 0), k, n - 2 * k);
    }
  }

  /** Full slices behind `q` can be counted before it only if they can be moved. */
  lemma FullsAround(p: seq<Pick>, q: seq<Pick>, k: nat, m: nat)
    ensures p + Fulls(k) + q + Fulls(m) == p + Fulls(k + m) + q <==> m == 0 || AllFull(q)
  {
    assert p + Fulls(k) + q + Fulls(m) == (p + Fulls(k)) + (q + Fulls(m));
    FullsJoin(p, k, m, q);
    CancelFront(p + Fulls(k), q + Fulls(m), Fulls(m) + q);
    if m > 0 {
      FullsMove(q, m);
    } else {
      assert q + Fulls(m) == q && Fulls(m) + q == q;
    }
  }

  lemma FullsJoin(p: seq<Pick>, k: nat, m: nat, q: seq<Pick>)
    ensures p + Fulls(k + m) + q == (p + Fulls(k)) + (Fulls(m) + q)
  {
    assert Fulls(k + m) == Fulls(k) + Fulls(m);
  }

  /** `self[picks]` for as many picks as there are dimensions. */
  function GetPicks(l: Lora, picks: seq<Pick>): Option<Lora>
    requires Denotes(l)
  {
    var n := |l.B.batch| + 2;
    if |picks| != n then None else GetTuple(l, picks[..n - 2], picks[n - 2], picks[n - 1])
  }

  /** `self[indices]` for an index tuple. */
  function GetIndices(l: Lora, ix: seq<Entry>): Option<Lora>
    requires Denotes(l)
  {
    match Expand(ix, |l.B.batch| + 2)
    case None => None
    case Some(picks) => GetPicks(l, picks)
  }

  /** With an ellipsis that is expanded as by the library, the tuple means the library's picks. */
  lemma EllipsisMeansPicks(l: Lora, pre: seq<Entry>, post: seq<Entry>)
    requires Denotes(l) && NoDots(pre) && NoDots(post) && ExpandsRight(pre, post, |l.B.batch| + 2)
    ensures GetIndices(l, pre + [Dots] + post) ==
            match LibraryExpand(pre, post, |l.B.batch| + 2)
            case None => None
            case Some(picks) => GetPicks(l, picks)
  {
    EllipsisIsExpanded(pre, post, |l.B.batch| + 2);
  }

  /** `self[..., 0:1]` of a tensor with three dimensions is taken for `self[:, 0:1, :]`. */
  lemma EllipsisMisplaced(p: Pick)
    ensures Expand([Dots, One(p)], 3) == Some([FULL, p, FULL])
    ensures LibraryExpand([], [One(p)], 3) == Some([FULL, FULL, p])
  {
    assert [] + [Dots] + [One(p)] == [Dots, One(p)];
    ExpandedInside([], [One(p)], 3);
    assert [One(p)][1..] == [] && [p] + [] == [p] && Entries([One(p)], 0) == [p];
    assert Entries([], 0) + Fulls(1) + [p] + Fulls(1) == [FULL, p, FULL];
    assert Entries([], 0) + Fulls(2) + [p] == [FULL, FULL, p];
  }

  /** So it cuts the rows and keeps the columns. */
  lemma EllipsisCutsRows(l: Lora)
    requires Denotes(l) && l.B.batch == [1] && l.B.rows == 2 && l.A.cols == 2
    ensures var m := GetIndices(l, [Dots, One(Slice(None, Some(1), 1))]);
            m.Some? && m.value.B.rows == 1 && m.value.A.cols == 2
  {
    var p := Slice(None, Some(1), 1);
    var picks := [FULL, p, FULL];
    EllipsisMisplaced(p);
    assert picks[..1] == [FULL];
    QuotientByOne(1);
    assert SliceLength(p, 2) == 1;
    FullLength(2);
    FullLength(1);
    FullLength(l.A.rows);
    FullLength(l.B.cols);
    assert l.A.batch == [1];
    assert PicksForA([FULL], [1]) == [FULL];
    OneSlice(FULL, 1);
  }
}
