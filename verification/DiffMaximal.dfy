/** Nothing shared is left over by `calculate_diff_split`: where the unmatched parts begin and end, they differ. */
module DiffMaximal {
  import opened Segments
  import opened DiffSplit

  // ----- the segments -----

  /** The state from which common text is trimmed. */
  function Unmatched(left: string, right: string): (s: Scan)
    requires Segmentize(left) != [] && Segmentize(right) != []
    ensures InRange(Segmentize(left), Segmentize(right), s)
  {
    var L, R := Segmentize(left), Segmentize(right);
    Rematch(L, R, Match(L, R, Start(L, R)))
  }

  /** The loop goes on as long as the first or the last segments of two longer lists are the same. */
  lemma {:induction false} LoopStops(L: seq<Segment>, R: seq<Segment>, s: Scan)
    requires InRange(L, R, s)
    ensures var t := Match(L, R, s);
            t.ls < t.le && t.rs < t.re ==> L[t.ls] != R[t.rs] && L[t.le] != R[t.re]
    decreases (s.le - s.ls) + (s.re - s.rs)
  {
    if CanAdvance(L, R, s) {
      LoopStops(L, R, Turn(L, R, s));
    }
  }

  /** One and the same text is all that is left of both sides. */
  predicate SameText(L: seq<Segment>, R: seq<Segment>, s: Scan)
    requires InRange(L, R, s)
  {
    s.ls == s.le && s.rs == s.re && L[s.ls] == R[s.rs] && L[s.ls].kind == Text
  }

  /** After the loop and the three cases behind it. */
  lemma {:induction false} SegmentsDiffer(L: seq<Segment>, R: seq<Segment>)
    requires L != [] && R != []
    ensures var t := Rematch(L, R, Match(L, R, Start(L, R)));
            !t.leftDone && !t.rightDone && !SameText(L, R, t) ==> L[t.ls] != R[t.rs] && L[t.le] != R[t.re]
  {
    LoopStops(L, R, Start(L, R));
  }

  // ----- the text -----

  predicate FirstDiffer(a: string, b: string) {
    a != "" && b != "" ==> a[0] != b[0]
  }

  predicate LastDiffer(a: string, b: string) {
    a != "" && b != "" ==> a[|a| - 1] != b[|b| - 1]
  }

  /** Text that both sides end or begin with is trimmed. */
  lemma {:induction false} TrimmedDiffer(prefix: string, suffix: string, a: string, b: string, textStarts: bool, textEnds: bool)
    ensures var d := TrimTexts(prefix, suffix, a, b, textStarts, textEnds);
            (textEnds ==> LastDiffer(d.left, d.right)) && (textStarts ==> FirstDiffer(d.left, d.right))
  {
    var n := TextSuffix(a, b, textEnds);
    var m := TextPrefix(a, b, textStarts, n);
    if textEnds {
      SuffixGone(a, b, m);
    }
    if textStarts {
      PrefixGone(a[..|a| - n], b[..|b| - n]);
      CutBoth(a, |a| - n, m);
      CutBoth(b, |b| - n, m);
    }
  }

  lemma {:induction false} CutBoth(a: string, end: nat, m: nat)
    requires m <= end <= |a|
    ensures a[..end][m..] == a[m..end]
  {
  }

  lemma {:induction false} SuffixGone(a: string, b: string, m: nat)
    requires var n := CommonSuffix(a, b); m <= |a| - n && m <= |b| - n
    ensures var n := CommonSuffix(a, b); LastDiffer(a[m..|a| - n], b[m..|b| - n])
  {
    CommonSuffixIsLongest(a, b);
    LastOfCut(a, b, CommonSuffix(a, b), m);
  }

  lemma {:induction false} LastOfCut(a: string, b: string, n: nat, m: nat)
    requires m + n <= |a| && m + n <= |b|
    requires n < |a| && n < |b| ==> a[|a| - 1 - n] != b[|b| - 1 - n]
    ensures LastDiffer(a[m..|a| - n], b[m..|b| - n])
  {
  }

  lemma {:induction false} PrefixGone(a: string, b: string)
    ensures var m := CommonPrefix(a, b); FirstDiffer(a[m..], b[m..])
  {
    CommonPrefixIsLongest(a, b);
  }

  /** The corrections leave two different parts as they are. */
  lemma RepairKeeps(left: string, right: string, d: Diff)
    requires Repair(left, right, d).left != "" && Repair(left, right, d).right != ""
    ensures Repair(left, right, d) == d
  {
  }

  /**
   For all texts: where unmatched text of both sides begins or ends, the two parts of the
   split differ in their first or in their last character.
   */
  lemma {:induction false} SplitDiffers(left: string, right: string)
    requires Segmentize(left) != [] && Segmentize(right) != []
    ensures var L, R, s, d := Segmentize(left), Segmentize(right), Unmatched(left, right), Split(left, right);
            (!s.leftDone && !s.rightDone && !SameText(L, R, s) ==> L[s.ls] != R[s.rs] && L[s.le] != R[s.re]) &&
            (L[s.ls].kind == Text && R[s.rs].kind == Text ==> FirstDiffer(d.left, d.right)) &&
            (L[s.le].kind == Text && R[s.re].kind == Text ==> LastDiffer(d.left, d.right))
  {
    var L, R, s, d := Segmentize(left), Segmentize(right), Unmatched(left, right), Split(left, right);
    SegmentsDiffer(L, R);
    TrimmedDiffer(s.prefix, s.suffix, LeftRest(L, R, s), RightRest(L, R, s),
                  L[s.ls].kind == Text && R[s.rs].kind == Text, L[s.le].kind == Text && R[s.re].kind == Text);
    if d.left != "" && d.right != "" {
      RepairKeeps(left, right, Trim(L, R, s));
    }
  }

  // ----- texts without markers -----

  predicate NoMarkers(s: string) {
    forall k | 0 <= k < |Segmentize(s)| :: Segmentize(s)[k].kind == Text
  }

  /** Of two texts without markers, what is left differs at both ends. */
  lemma {:induction false} PlainTextsDiffer(left: string, right: string)
    requires NoMarkers(left) && NoMarkers(right)
    ensures var d := Split(left, right); FirstDiffer(d.left, d.right) && LastDiffer(d.left, d.right)
  {
    if Segmentize(left) != [] && Segmentize(right) != [] {
      SplitDiffers(left, right);
    }
  }

  /** A text without an opening bracket has no markers. */
  lemma {:induction false} PlainHasNoMarkers(s: string)
    requires NoOpener(s)
    ensures NoMarkers(s)
  {
    if s != "" {
      TextFirst(s, "");
      assert s + "" == s;
    }
  }
}
