/** Conservation for `calculate_diff_split`: when prefix + side + suffix is the text of that side. */
module DiffConservation {
  import opened Segments
  import opened DiffSplit

  predicate Conserves(left: string, right: string, d: Diff) {
    d.prefix + d.left + d.suffix == left && d.prefix + d.right + d.suffix == right
  }

  /**
   One side was used up in the loop, the other was not, and a case after the loop
   matches the used-up segment again. If it was the left side, and right still has
   more than one segment, the last correction helps when left is a prefix of right.
   */
  predicate LosesText(left: string, right: string) {
    var L, R := Segmentize(left), Segmentize(right);
    L != [] && R != [] &&
    var s := Match(L, R, Start(L, R));
    s.leftDone != s.rightDone && Rematches(L, R, s) && !(s.leftDone && s.rs < s.re && left <= right)
  }

  // ----- what is matched and what is left always add up -----

  function Whole(segs: seq<Segment>, lo: nat, hi: nat, prefix: string, suffix: string): string
    requires lo <= hi <= |segs|
  {
    prefix + Concat(segs[lo..hi]) + suffix
  }

  function LeftText(L: seq<Segment>, R: seq<Segment>, s: Scan): string
    requires InRange(L, R, s)
  {
    Whole(L, s.ls, LeftStop(s), s.prefix, s.suffix)
  }

  function RightText(L: seq<Segment>, R: seq<Segment>, s: Scan): string
    requires InRange(L, R, s)
  {
    Whole(R, s.rs, RightStop(s), s.prefix, s.suffix)
  }

  lemma {:induction false} ConcatSnoc(segs: seq<Segment>, last: Segment)
    ensures Concat(segs + [last]) == Concat(segs) + last.value
  {
    if segs == [] {
      assert [last][1..] == [] && "" + last.value == last.value + "";
    } else {
      ConcatSnoc(segs[1..], last);
      assert (segs + [last])[1..] == segs[1..] + [last];
    }
  }

  lemma {:induction false} EatFirst(segs: seq<Segment>, lo: nat, hi: nat, prefix: string, suffix: string)
    requires lo < hi <= |segs|
    ensures Whole(segs, lo + 1, hi, prefix + segs[lo].value, suffix) == Whole(segs, lo, hi, prefix, suffix)
  {
    assert segs[lo..hi][1..] == segs[lo + 1..hi];
  }

  lemma {:induction false} EatLast(segs: seq<Segment>, lo: nat, hi: nat, prefix: string, suffix: string)
    requires lo < hi <= |segs|
    ensures Whole(segs, lo, hi - 1, prefix, segs[hi - 1].value + suffix) == Whole(segs, lo, hi, prefix, suffix)
  {
    assert segs[lo..hi] == segs[lo..hi - 1] + [segs[hi - 1]];
    ConcatSnoc(segs[lo..hi - 1], segs[hi - 1]);
  }

  /** Both texts, from a scan in the middle of the function. */
  predicate SameTexts(L: seq<Segment>, R: seq<Segment>, s: Scan, t: Scan)
    requires InRange(L, R, s) && InRange(L, R, t)
  {
    LeftText(L, R, t) == LeftText(L, R, s) && RightText(L, R, t) == RightText(L, R, s)
  }

  lemma MatchFirstKeeps(L: seq<Segment>, R: seq<Segment>, s: Scan)
    requires InRange(L, R, s) && s.ls < s.le && s.rs < s.re
    ensures SameTexts(L, R, s, MatchFirst(L, R, s))
  {
    if L[s.ls] == R[s.rs] {
      EatFirst(L, s.ls, LeftStop(s), s.prefix, s.suffix);
      EatFirst(R, s.rs, RightStop(s), s.prefix, s.suffix);
    }
  }

  lemma MatchLastKeeps(L: seq<Segment>, R: seq<Segment>, a: Scan)
    requires InRange(L, R, a) && !a.leftDone && !a.rightDone
    ensures SameTexts(L, R, a, MatchLast(L, R, a))
  {
    if L[a.le] == R[a.re] {
      EatLast(L, a.ls, LeftStop(a), a.prefix, a.suffix);
      EatLast(R, a.rs, RightStop(a), a.prefix, a.suffix);
    }
  }

  lemma {:induction false} TurnKeeps(L: seq<Segment>, R: seq<Segment>, s: Scan)
    requires InRange(L, R, s) && CanAdvance(L, R, s)
    ensures SameTexts(L, R, s, Turn(L, R, s))
  {
    MatchFirstKeeps(L, R, s);
    MatchLastKeeps(L, R, MatchFirst(L, R, s));
  }

  lemma {:induction false} MatchKeeps(L: seq<Segment>, R: seq<Segment>, s: Scan)
    requires InRange(L, R, s)
    ensures SameTexts(L, R, s, Match(L, R, s))
    decreases (s.le - s.ls) + (s.re - s.rs)
  {
    if CanAdvance(L, R, s) {
      TurnKeeps(L, R, s);
      MatchKeeps(L, R, Turn(L, R, s));
    }
  }

  /** At the end of the loop nothing has been lost on either side. */
  lemma {:induction false} LoopConserves(L: seq<Segment>, R: seq<Segment>)
    requires L != [] && R != []
    ensures LeftText(L, R, Match(L, R, Start(L, R))) == Concat(L)
    ensures RightText(L, R, Match(L, R, Start(L, R))) == Concat(R)
  {
    MatchKeeps(L, R, Start(L, R));
    WholeList(L);
    WholeList(R);
  }

  lemma WholeList(segs: seq<Segment>)
    ensures Whole(segs, 0, |segs|, "", "") == Concat(segs)
  {
    assert segs[0..|segs|] == segs;
  }

  predicate NonEmptySegments(segs: seq<Segment>) {
    forall i | 0 <= i < |segs| :: segs[i].value != ""
  }

  lemma {:induction false} CanonicalNonEmpty(segs: seq<Segment>)
    requires Canonical(segs)
    ensures NonEmptySegments(segs)
  {
    if segs != [] {
      CanonicalNonEmpty(segs[1..]);
      forall i | 1 <= i < |segs| ensures segs[i].value != "" {
        assert segs[i] == segs[1..][i - 1];
      }
    }
  }

  /** A case after the loop keeps the text of a side that the loop had not used up. */
  lemma RematchKeepsLeft(L: seq<Segment>, R: seq<Segment>, s: Scan)
    requires InRange(L, R, s) && (!s.leftDone || !Rematches(L, R, s))
    ensures LeftText(L, R, Rematch(L, R, s)) == LeftText(L, R, s)
  {
    if Rematches(L, R, s) {
      EatFirst(L, s.ls, LeftStop(s), s.prefix, s.suffix);
      EatLast(L, s.ls, LeftStop(s), s.prefix, s.suffix);
    }
  }

  lemma RematchKeepsRight(L: seq<Segment>, R: seq<Segment>, s: Scan)
    requires InRange(L, R, s) && (!s.rightDone || !Rematches(L, R, s))
    ensures RightText(L, R, Rematch(L, R, s)) == RightText(L, R, s)
  {
    if Rematches(L, R, s) {
      EatFirst(R, s.rs, RightStop(s), s.prefix, s.suffix);
      EatLast(R, s.rs, RightStop(s), s.prefix, s.suffix);
    }
  }

  /** Matching a used-up segment again counts its text twice. */
  lemma {:induction false} RematchDoubles(L: seq<Segment>, R: seq<Segment>, s: Scan)
    requires InRange(L, R, s) && Rematches(L, R, s) && NonEmptySegments(L) && NonEmptySegments(R)
    ensures s.leftDone ==> |LeftText(L, R, Rematch(L, R, s))| > |LeftText(L, R, s)|
    ensures s.rightDone ==> |RightText(L, R, Rematch(L, R, s))| > |RightText(L, R, s)|
  {
    var t := Rematch(L, R, s);
    assert s.leftDone ==> L[s.ls..LeftStop(s)] == [] && L[t.ls..LeftStop(t)] == [];
    assert s.rightDone ==> R[s.rs..RightStop(s)] == [] && R[t.rs..RightStop(t)] == [];
  }

  lemma TrimTextsKeeps(prefix: string, suffix: string, a: string, b: string, textStarts: bool, textEnds: bool)
    ensures var d := TrimTexts(prefix, suffix, a, b, textStarts, textEnds);
            d.prefix + d.left + d.suffix == prefix + a + suffix && d.prefix + d.right + d.suffix == prefix + b + suffix
  {
    var n := TextSuffix(a, b, textEnds);
    var m := TextPrefix(a, b, textStarts, n);
    TrimmedIsShared(a, b, textStarts, textEnds);
    TrimmedPieces(prefix, suffix, a, b, m, n);
  }

  lemma TrimmedIsShared(a: string, b: string, textStarts: bool, textEnds: bool)
    ensures var n := TextSuffix(a, b, textEnds);
            var m := TextPrefix(a, b, textStarts, n);
            a[..m] == b[..m] && a[|a| - n..] == b[|b| - n..]
  {
    var n := TextSuffix(a, b, textEnds);
    SharedSuffix(a, b, n);
    SharedPrefix(a, b, |a| - n, |b| - n, TextPrefix(a, b, textStarts, n));
  }

  lemma TrimmedPieces(prefix: string, suffix: string, a: string, b: string, m: nat, n: nat)
    requires m + n <= |a| && m + n <= |b| && a[..m] == b[..m] && a[|a| - n..] == b[|b| - n..]
    ensures (prefix + a[..m]) + a[m..|a| - n] + (a[|a| - n..] + suffix) == prefix + a + suffix
    ensures (prefix + a[..m]) + b[m..|b| - n] + (a[|a| - n..] + suffix) == prefix + b + suffix
  {
    ThreePieces(prefix, a, m, |a| - n, suffix);
    ThreePieces(prefix, b, m, |b| - n, suffix);
  }

  lemma TrimKeeps(L: seq<Segment>, R: seq<Segment>, s: Scan)
    requires InRange(L, R, s)
    ensures var d := Trim(L, R, s);
            d.prefix + d.left + d.suffix == LeftText(L, R, s) && d.prefix + d.right + d.suffix == RightText(L, R, s)
  {
    TrimTextsKeeps(s.prefix, s.suffix, LeftRest(L, R, s), RightRest(L, R, s),
                   L[s.ls].kind == Text && R[s.rs].kind == Text, L[s.le].kind == Text && R[s.re].kind == Text);
  }

  lemma SharedSuffix(a: string, b: string, n: nat)
    requires n == 0 || n == CommonSuffix(a, b)
    ensures n <= |a| && n <= |b| && a[|a| - n..] == b[|b| - n..]
  {
    CommonSuffixIsLongest(a, b);
  }

  lemma SharedPrefix(a: string, b: string, i: nat, j: nat, m: nat)
    requires i <= |a| && j <= |b| && (m == 0 || m == CommonPrefix(a[..i], b[..j]))
    ensures m <= |a| && m <= |b| && a[..m] == b[..m]
  {
    CommonPrefixIsLongest(a[..i], b[..j]);
    if m != 0 {
      assert a[..m] == a[..i][..m] && b[..m] == b[..j][..m];
    }
  }

  lemma ThreePieces(prefix: string, a: string, i: nat, j: nat, suffix: string)
    requires i <= j <= |a|
    ensures (prefix + a[..i]) + a[i..j] + (a[j..] + suffix) == prefix + a + suffix
  {
    assert a == a[..i] + a[i..j] + a[j..];
  }

  // ----- the corrections at the end -----

  lemma RepairConserves(left: string, right: string, d: Diff)
    requires Conserves(left, right, d)
    ensures Conserves(left, right, Repair(left, right, d))
  {
    if d.left == "" && d.right == "" {
      RepairOfNothing(left, d);
    } else if d.left == "" && left <= right {
      RepairOfRest(left, right, d);
    }
  }

  lemma RepairOfNothing(left: string, d: Diff)
    requires d.left == "" && d.right == ""
    ensures Conserves(left, left, Repair(left, left, d))
  {
    assert left + "" + "" == left;
  }

  lemma RepairOfRest(left: string, right: string, d: Diff)
    requires d.left == "" && d.right != "" && left <= right
    ensures Conserves(left, right, Repair(left, right, d))
  {
    assert left + "" + "" == left;
    assert left + right[|left|..] + "" == right;
  }

  /** Too long a left text is only repaired when left is a prefix of right. */
  lemma RepairOfLongerLeft(left: string, right: string, d: Diff)
    requires d.left == "" && d.right != "" && |d.prefix + d.left + d.suffix| > |left|
    ensures Conserves(left, right, Repair(left, right, d)) <==> left <= right
  {
    if left <= right {
      RepairOfRest(left, right, d);
    }
  }

  /** Too long a right text is never repaired. */
  lemma RepairOfLongerRight(left: string, right: string, d: Diff)
    requires d.left != "" && d.right == "" && |d.prefix + d.right + d.suffix| > |right|
    ensures !Conserves(left, right, Repair(left, right, d))
  {
  }

  // ----- the guarded law -----

  /** The end of the function, from a loop that ended in state `s` with nothing lost. */
  lemma {:induction false} EndConserves(left: string, right: string, L: seq<Segment>, R: seq<Segment>, s: Scan)
    requires InRange(L, R, s) && LeftText(L, R, s) == left && RightText(L, R, s) == right
    requires s.leftDone == s.rightDone || !Rematches(L, R, s)
    ensures Conserves(left, right, Repair(left, right, Trim(L, R, Rematch(L, R, s))))
  {
    var t := Rematch(L, R, s);
    if s.leftDone && s.rightDone {
      BothDone(L, R, s);
      BothDone(L, R, t);
      RepairOfNothing(left, Trim(L, R, t));
    } else {
      RematchKeepsLeft(L, R, s);
      RematchKeepsRight(L, R, s);
      TrimKeeps(L, R, t);
      RepairConserves(left, right, Trim(L, R, t));
    }
  }

  /** When both sides are used up they are the same text and nothing is left to trim. */
  lemma BothDone(L: seq<Segment>, R: seq<Segment>, s: Scan)
    requires InRange(L, R, s) && s.leftDone && s.rightDone
    ensures LeftText(L, R, s) == RightText(L, R, s)
    ensures Trim(L, R, s).left == "" && Trim(L, R, s).right == ""
  {
    assert L[s.ls..s.le] == [] && R[s.rs..s.re] == [];
  }

  /** One side was used up, and the only segment of the other is matched with it. */
  lemma LastSegmentLoses(left: string, right: string, L: seq<Segment>, R: seq<Segment>, s: Scan)
    requires InRange(L, R, s) && LeftText(L, R, s) == left && RightText(L, R, s) == right
    requires NonEmptySegments(L) && NonEmptySegments(R)
    requires s.leftDone != s.rightDone && s.ls == s.le && s.rs == s.re && Rematches(L, R, s)
    ensures !Conserves(left, right, Repair(left, right, Trim(L, R, Rematch(L, R, s))))
  {
    BothDone(L, R, Rematch(L, R, s));
    OneUsedUp(L, R, s);
  }

  /** A single segment left on one side makes that side the longer text. */
  lemma OneUsedUp(L: seq<Segment>, R: seq<Segment>, s: Scan)
    requires InRange(L, R, s) && s.ls == s.le && s.rs == s.re && s.leftDone != s.rightDone
    requires NonEmptySegments(L) && NonEmptySegments(R)
    ensures |LeftText(L, R, s)| != |RightText(L, R, s)|
  {
    if s.leftDone {
      assert L[s.ls..s.le] == [] && R[s.rs..s.re + 1] == [R[s.rs]] && R[s.rs..s.re + 1][1..] == [];
    } else {
      assert R[s.rs..s.re] == [] && L[s.ls..s.le + 1] == [L[s.ls]] && L[s.ls..s.le + 1][1..] == [];
    }
  }

  /** What is left of a side that is used up, and of one that is not. */
  lemma RestLengths(L: seq<Segment>, R: seq<Segment>, t: Scan)
    requires InRange(L, R, t) && NonEmptySegments(L) && NonEmptySegments(R)
    ensures LeftRest(L, R, t) == "" <==> t.leftDone
    ensures RightRest(L, R, t) == "" <==> t.rightDone
  {
    RestLength(L, t.ls, LeftStop(t));
    RestLength(R, t.rs, RightStop(t));
  }

  lemma RestLength(segs: seq<Segment>, lo: nat, hi: nat)
    requires lo <= hi <= |segs| && NonEmptySegments(segs)
    ensures Concat(segs[lo..hi]) == "" <==> lo == hi
  {
    if lo < hi {
      assert segs[lo..hi][0] == segs[lo];
    }
  }

  /** Nothing can be trimmed when one side has nothing left. */
  lemma NothingTrimmed(prefix: string, suffix: string, a: string, b: string, textStarts: bool, textEnds: bool)
    requires a == "" || b == ""
    ensures TrimTexts(prefix, suffix, a, b, textStarts, textEnds) == Diff(prefix, suffix, a, b)
  {
    assert TextSuffix(a, b, textEnds) == 0 && TextPrefix(a, b, textStarts, 0) == 0;
    assert a[0..|a|] == a && b[0..|b|] == b && prefix + a[..0] == prefix && a[|a|..] + suffix == suffix;
  }

  /** Only the left side was used up, and its last segment is matched a second time. */
  lemma LeftMatchedTwice(left: string, L: seq<Segment>, R: seq<Segment>, s: Scan, d: Diff)
    requires InRange(L, R, s) && LeftText(L, R, s) == left
    requires NonEmptySegments(L) && NonEmptySegments(R)
    requires s.leftDone && !s.rightDone && s.rs < s.re && Rematches(L, R, s)
    requires d == Trim(L, R, Rematch(L, R, s))
    ensures d.left == "" && d.right != "" && |d.prefix + d.left + d.suffix| > |left|
  {
    var t := Rematch(L, R, s);
    RestLengths(L, R, t);
    NothingTrimmed(t.prefix, t.suffix, LeftRest(L, R, t), RightRest(L, R, t),
                   L[t.ls].kind == Text && R[t.rs].kind == Text, L[t.le].kind == Text && R[t.re].kind == Text);
    RematchDoubles(L, R, s);
    TrimKeeps(L, R, t);
  }

  /** Only the right side was used up, and its last segment is matched a second time. */
  lemma RightMatchedTwice(right: string, L: seq<Segment>, R: seq<Segment>, s: Scan, d: Diff)
    requires InRange(L, R, s) && RightText(L, R, s) == right
    requires NonEmptySegments(L) && NonEmptySegments(R)
    requires s.rightDone && !s.leftDone && s.ls < s.le && Rematches(L, R, s)
    requires d == Trim(L, R, Rematch(L, R, s))
    ensures d.left != "" && d.right == "" && |d.prefix + d.right + d.suffix| > |right|
  {
    var t := Rematch(L, R, s);
    RestLengths(L, R, t);
    NothingTrimmed(t.prefix, t.suffix, LeftRest(L, R, t), RightRest(L, R, t),
                   L[t.ls].kind == Text && R[t.rs].kind == Text, L[t.le].kind == Text && R[t.re].kind == Text);
    RematchDoubles(L, R, s);
    TrimKeeps(L, R, t);
  }

  /** For all texts: the split conserves both of them exactly when it does not lose text. */
  lemma SplitConserves(left: string, right: string)
    ensures var d := Split(left, right);
            LosesText(left, right) <==> !Conserves(left, right, d)
  {
    SegmentsMakeText(left);
    SegmentsMakeText(right);
    var L, R := Segmentize(left), Segmentize(right);
    if L != [] && R != [] {
      SplitConservesFrom(left, right, L, R, Match(L, R, Start(L, R))) by {
        LoopConserves(L, R);
        CanonicalNonEmpty(L);
        CanonicalNonEmpty(R);
      }
    }
  }

  lemma {:induction false} SplitConservesFrom(left: string, right: string, L: seq<Segment>, R: seq<Segment>, s: Scan)
    requires InRange(L, R, s) && LeftText(L, R, s) == left && RightText(L, R, s) == right
    requires NonEmptySegments(L) && NonEmptySegments(R)
    ensures Conserves(left, right, Repair(left, right, Trim(L, R, Rematch(L, R, s)))) <==>
            !(s.leftDone != s.rightDone && Rematches(L, R, s) && !(s.leftDone && s.rs < s.re && left <= right))
  {
    if s.leftDone == s.rightDone || !Rematches(L, R, s) {
      EndConserves(left, right, L, R, s);
    } else if s.ls == s.le && s.rs == s.re {
      LastSegmentLoses(left, right, L, R, s);
    } else {
      var d := Trim(L, R, Rematch(L, R, s));
      if s.leftDone {
        LeftMatchedTwice(left, L, R, s, d);
        RepairOfLongerLeft(left, right, d);
      } else {
        RightMatchedTwice(right, L, R, s, d);
        RepairOfLongerRight(left, right, d);
      }
    }
  }

  /**
   What it means that only the left side is used up: the left segments are the right
   segments with the run `rs..re` cut out. Text is lost when that run begins or ends
   with the used-up segment.
   */
  lemma LeftUsedUp(L: seq<Segment>, R: seq<Segment>)
    requires L != [] && R != []
    ensures var t := Match(L, R, Start(L, R));
            t.leftDone && !t.rightDone ==> L == R[..t.rs] + R[t.re + 1..]
  {
    var t := Match(L, R, Start(L, R));
    MatchMatchesEnds(L, R, Start(L, R));
    if t.leftDone {
      CutAt(L, t.ls);
    }
  }

  lemma {:induction false} MatchMatchesEnds(L: seq<Segment>, R: seq<Segment>, s: Scan)
    requires InRange(L, R, s) && MatchedEnds(L, R, s)
    ensures MatchedEnds(L, R, Match(L, R, s))
    decreases (s.le - s.ls) + (s.re - s.rs)
  {
    if CanAdvance(L, R, s) {
      TurnMatchesEnds(L, R, s);
      MatchMatchesEnds(L, R, Turn(L, R, s));
    }
  }

  lemma CutAt(segs: seq<Segment>, i: nat)
    requires i <= |segs|
    ensures segs == segs[..i] + segs[i..]
  {
  }

  /** The segments outside the two windows are the same. */
  predicate MatchedEnds(L: seq<Segment>, R: seq<Segment>, s: Scan)
    requires InRange(L, R, s)
  {
    L[..s.ls] == R[..s.rs] && L[LeftStop(s)..] == R[RightStop(s)..]
  }

  lemma TurnMatchesEnds(L: seq<Segment>, R: seq<Segment>, s: Scan)
    requires InRange(L, R, s) && MatchedEnds(L, R, s) && CanAdvance(L, R, s)
    ensures MatchedEnds(L, R, Turn(L, R, s))
  {
    FirstMatchesEnds(L, R, s);
    LastMatchesEnds(L, R, MatchFirst(L, R, s));
  }

  lemma FirstMatchesEnds(L: seq<Segment>, R: seq<Segment>, s: Scan)
    requires InRange(L, R, s) && MatchedEnds(L, R, s) && s.ls < s.le && s.rs < s.re
    ensures MatchedEnds(L, R, MatchFirst(L, R, s))
  {
    assert L[..s.ls + 1] == L[..s.ls] + [L[s.ls]] && R[..s.rs + 1] == R[..s.rs] + [R[s.rs]];
  }

  lemma LastMatchesEnds(L: seq<Segment>, R: seq<Segment>, a: Scan)
    requires InRange(L, R, a) && MatchedEnds(L, R, a) && !a.leftDone && !a.rightDone
    ensures MatchedEnds(L, R, MatchLast(L, R, a))
  {
    assert L[a.le..] == [L[a.le]] + L[a.le + 1..] && R[a.re..] == [R[a.re]] + R[a.re + 1..];
  }

  /** The law fails without its guard: "<a><e>" against "<a><e><e>" loses an `<e>`. */
  lemma RepeatedMarkerIsLost()
    ensures Split("<a><e>", "<a><e><e>") == Diff("<a><e>", "", "", "")
    ensures LosesText("<a><e>", "<a><e><e>")
  {
    var a, e := Segment(Marker, "<a>"), Segment(Marker, "<e>");
    var L, R := [a, e], [a, e, e];
    RepeatedSegments(a, e);
    var s := Start(L, R);
    var t := Turn(L, R, s);
    assert t == Scan("<a>", "<e>", 1, 1, 1, 1, true, false);
    assert Match(L, R, s) == Match(L, R, t) == t;
    var u := Rematch(L, R, t);
    assert u == Scan("<a><e>", "<e>", 1, 1, 1, 1, true, true);
    BothDone(L, R, u);
  }

  lemma RepeatedSegments(a: Segment, e: Segment)
    requires a == Segment(Marker, "<a>") && e == Segment(Marker, "<e>")
    ensures Segmentize("<a><e>") == [a, e] && Segmentize("<a><e><e>") == [a, e, e]
  {
    FirstAndRest(e, []);
    assert [e] + [] == [e] && "<e>" + "" == "<e>";
    FirstAndRest(e, [e]);
    assert [e] + [e] == [e, e] && "<e>" + "<e>" == "<e><e>";
    FirstAndRest(a, [e]);
    FirstAndRest(a, [e, e]);
    assert [a] + [e] == [a, e] && "<a>" + "<e>" == "<a><e>";
    assert [a] + [e, e] == [a, e, e] && "<a>" + "<e><e>" == "<a><e><e>";
    TextMakesSegments([a, e]);
    TextMakesSegments([a, e, e]);
  }
}
