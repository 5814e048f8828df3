/**
 `calculate_diff_split`: common prefix, common suffix and the two differing middles
 of two texts, matched segment by segment from both ends.
 */
module DiffSplit {
  import opened Segments

  datatype Diff = Diff(prefix: string, suffix: string, left: string, right: string)

  /**
   The iterators and flags of the source: `ls..le` and `rs..re` (both ends
   included) are still to be matched, unless the side is done.
   */
  datatype Scan = Scan(prefix: string, suffix: string, ls: nat, le: nat, rs: nat, re: nat, leftDone: bool, rightDone: bool)

  predicate InRange(L: seq<Segment>, R: seq<Segment>, s: Scan) {
    && s.ls <= s.le < |L| && s.rs <= s.re < |R|
    && (s.leftDone ==> s.ls == s.le) && (s.rightDone ==> s.rs == s.re)
  }

  predicate CanAdvance(L: seq<Segment>, R: seq<Segment>, s: Scan)
    requires InRange(L, R, s)
  {
    s.ls < s.le && s.rs < s.re && (L[s.ls] == R[s.rs] || L[s.le] == R[s.re])
  }

  /** The first segments of both sides, if they are the same. */
  function MatchFirst(L: seq<Segment>, R: seq<Segment>, s: Scan): (a: Scan)
    requires InRange(L, R, s) && s.ls < s.le && s.rs < s.re
    ensures InRange(L, R, a)
  {
    if L[s.ls] == R[s.rs] then s.(prefix := s.prefix + L[s.ls].value, ls := s.ls + 1, rs := s.rs + 1) else s
  }

  /** The last segments, if they are the same; a side with only one segment left is done. */
  function MatchLast(L: seq<Segment>, R: seq<Segment>, a: Scan): (t: Scan)
    requires InRange(L, R, a)
    ensures InRange(L, R, t)
  {
    if L[a.le] == R[a.re] then
      a.(suffix := L[a.le].value + a.suffix,
         le := if a.ls != a.le then a.le - 1 else a.le, leftDone := a.leftDone || a.ls == a.le,
         re := if a.rs != a.re then a.re - 1 else a.re, rightDone := a.rightDone || a.rs == a.re)
    else a
  }

  /** One turn of the loop: match the first segments, then the last ones. */
  function Turn(L: seq<Segment>, R: seq<Segment>, s: Scan): (t: Scan)
    requires InRange(L, R, s) && CanAdvance(L, R, s)
    ensures InRange(L, R, t) && (t.le - t.ls) + (t.re - t.rs) < (s.le - s.ls) + (s.re - s.rs)
  {
    MatchLast(L, R, MatchFirst(L, R, s))
  }

  /** The state in which the loop ends. */
  function Match(L: seq<Segment>, R: seq<Segment>, s: Scan): (t: Scan)
    requires InRange(L, R, s)
    ensures InRange(L, R, t)
    decreases (s.le - s.ls) + (s.re - s.rs)
  {
    if CanAdvance(L, R, s) then Match(L, R, Turn(L, R, s)) else s
  }

  /** Whether one of the three cases after the loop matches a segment. */
  predicate Rematches(L: seq<Segment>, R: seq<Segment>, s: Scan)
    requires InRange(L, R, s)
  {
    if s.ls == s.le && s.rs != s.re then L[s.ls] == R[s.re] || L[s.ls] == R[s.rs]
    else if s.rs == s.re && s.ls != s.le then L[s.le] == R[s.rs] || L[s.ls] == R[s.rs]
    else s.ls == s.le && s.rs == s.re && L[s.ls] == R[s.rs] && L[s.ls].kind == Marker
  }

  /** The three cases after the loop. */
  function Rematch(L: seq<Segment>, R: seq<Segment>, s: Scan): (t: Scan)
    requires InRange(L, R, s)
    ensures InRange(L, R, t)
  {
    if s.ls == s.le && s.rs != s.re then
      if L[s.ls] == R[s.re] then s.(suffix := R[s.re].value + s.suffix, re := s.re - 1, leftDone := true)
      else if L[s.ls] == R[s.rs] then s.(prefix := s.prefix + R[s.rs].value, rs := s.rs + 1, leftDone := true)
      else s
    else if s.rs == s.re && s.ls != s.le then
      if L[s.le] == R[s.rs] then s.(suffix := L[s.le].value + s.suffix, le := s.le - 1, rightDone := true)
      else if L[s.ls] == R[s.rs] then s.(prefix := s.prefix + L[s.ls].value, ls := s.ls + 1, rightDone := true)
      else s
    else if s.ls == s.le && s.rs == s.re && L[s.ls] == R[s.rs] && L[s.ls].kind == Marker then
      s.(prefix := s.prefix + R[s.rs].value, leftDone := true, rightDone := true)
    else s
  }

  function CommonPrefix(a: string, b: string): (n: nat)
    ensures n <= |a| && n <= |b|
  {
    if a == "" || b == "" || a[0] != b[0] then 0 else 1 + CommonPrefix(a[1..], b[1..])
  }

  function CommonSuffix(a: string, b: string): (n: nat)
    ensures n <= |a| && n <= |b|
  {
    if a == "" || b == "" || a[|a| - 1] != b[|b| - 1] then 0 else 1 + CommonSuffix(a[..|a| - 1], b[..|b| - 1])
  }

  /** The texts agree on the common prefix, and it cannot be made longer. */
  lemma {:induction false} CommonPrefixIsLongest(a: string, b: string)
    ensures var n := CommonPrefix(a, b);
            a[..n] == b[..n] && (n < |a| && n < |b| ==> a[n] != b[n])
  {
    if a != "" && b != "" && a[0] == b[0] {
      var n := CommonPrefix(a[1..], b[1..]);
      CommonPrefixIsLongest(a[1..], b[1..]);
      assert a[..1 + n] == [a[0]] + a[1..][..n];
      assert b[..1 + n] == [b[0]] + b[1..][..n];
    }
  }

  lemma {:induction false} CommonSuffixIsLongest(a: string, b: string)
    ensures var n := CommonSuffix(a, b);
            a[|a| - n..] == b[|b| - n..] && (n < |a| && n < |b| ==> a[|a| - 1 - n] != b[|b| - 1 - n])
  {
    if a != "" && b != "" && a[|a| - 1] == b[|b| - 1] {
      var a', b' := a[..|a| - 1], b[..|b| - 1];
      CommonSuffixIsLongest(a', b');
      SameEnd(a, b, CommonSuffix(a', b'));
    }
  }

  /** A suffix shared by two texts but for their last character, which they share as well. */
  lemma SameEnd(a: string, b: string, n: nat)
    requires a != "" && b != "" && a[|a| - 1] == b[|b| - 1] && n < |a| && n < |b|
    requires var a', b' := a[..|a| - 1], b[..|b| - 1];
             a'[|a'| - n..] == b'[|b'| - n..] && (n < |a'| && n < |b'| ==> a'[|a'| - 1 - n] != b'[|b'| - 1 - n])
    ensures a[|a| - 1 - n..] == b[|b| - 1 - n..]
    ensures n + 1 < |a| && n + 1 < |b| ==> a[|a| - 2 - n] != b[|b| - 2 - n]
  {
    LongerSuffix(a, n);
    LongerSuffix(b, n);
  }

  lemma LongerSuffix(a: string, n: nat)
    requires n < |a|
    ensures a[|a| - (1 + n)..] == a[..|a| - 1][|a| - 1 - n..] + [a[|a| - 1]]
  {
  }

  function LeftStop(s: Scan): nat {
    if s.leftDone then s.le else s.le + 1
  }

  function RightStop(s: Scan): nat {
    if s.rightDone then s.re else s.re + 1
  }

  function LeftRest(L: seq<Segment>, R: seq<Segment>, s: Scan): string
    requires InRange(L, R, s)
  {
    Concat(L[s.ls..LeftStop(s)])
  }

  function RightRest(L: seq<Segment>, R: seq<Segment>, s: Scan): string
    requires InRange(L, R, s)
  {
    Concat(R[s.rs..RightStop(s)])
  }

  /** How much common text is trimmed from the end, when both texts end in a text segment. */
  function TextSuffix(a: string, b: string, textEnds: bool): (n: nat)
    ensures n <= |a| && n <= |b|
  {
    if textEnds then CommonSuffix(a, b) else 0
  }

  /** And then from the beginning, without overlapping the trimmed suffix of length `n`. */
  function TextPrefix(a: string, b: string, textStarts: bool, n: nat): (m: nat)
    requires n <= |a| && n <= |b|
    ensures m <= |a| - n && m <= |b| - n
  {
    if textStarts then CommonPrefix(a[..|a| - n], b[..|b| - n]) else 0
  }

  function TrimTexts(prefix: string, suffix: string, a: string, b: string, textStarts: bool, textEnds: bool): Diff {
    var n := TextSuffix(a, b, textEnds);
    TrimAt(prefix, suffix, a, b, n, TextPrefix(a, b, textStarts, n))
  }

  /** The last `n` and the first `m` characters of both texts move to the ends. */
  function TrimAt(prefix: string, suffix: string, a: string, b: string, n: nat, m: nat): Diff
    requires n + m <= |a| && n + m <= |b|
  {
    Diff(prefix + a[..m], a[|a| - n..] + suffix, a[m..|a| - n], b[m..|b| - n])
  }

  /** The unmatched segments, with common text trimmed from both ends. */
  function Trim(L: seq<Segment>, R: seq<Segment>, s: Scan): Diff
    requires InRange(L, R, s)
  {
    TrimTexts(s.prefix, s.suffix, LeftRest(L, R, s), RightRest(L, R, s),
              L[s.ls].kind == Text && R[s.rs].kind == Text, L[s.le].kind == Text && R[s.re].kind == Text)
  }

  /** The two corrections at the end of the source function. */
  function Repair(left: string, right: string, d: Diff): Diff {
    var e := if d.left == "" && d.right == "" then d.(prefix := left, suffix := "") else d;
    if e.left == "" && e.right != "" && left <= right then
      e.(prefix := left, suffix := "", right := right[|left|..])
    else e
  }

  function Start(L: seq<Segment>, R: seq<Segment>): (s: Scan)
    requires L != [] && R != []
    ensures InRange(L, R, s)
  {
    Scan("", "", 0, |L| - 1, 0, |R| - 1, false, false)
  }

  function Split(left: string, right: string): Diff {
    var L, R := Segmentize(left), Segmentize(right);
    if L == [] then Diff("", "", "", right)
    else if R == [] then Diff("", "", left, "")
    else Repair(left, right, Trim(L, R, Rematch(L, R, Match(L, R, Start(L, R)))))
  }

  // ----- the loops -----

  method CommonPrefixLen(left: string, right: string) returns (n: nat)
    ensures n == CommonPrefix(left, right)
  {
    n := 0;
    while n < |left| && n < |right| && left[n] == right[n]
      invariant n <= |left| && n <= |right|
      invariant n + CommonPrefix(left[n..], right[n..]) == CommonPrefix(left, right)
    {
      assert left[n..][1..] == left[n + 1..] && right[n..][1..] == right[n + 1..];
      n := n + 1;
    }
  }

  method CommonSuffixLen(left: string, right: string) returns (n: nat)
    ensures n == CommonSuffix(left, right)
  {
    n := 0;
    ghost var a, b := left, right;
    while n < |left| && n < |right| && left[|left| - 1 - n] == right[|right| - 1 - n]
      invariant n <= |left| && n <= |right|
      invariant a == left[..|left| - n] && b == right[..|right| - n]
      invariant n + CommonSuffix(a, b) == CommonSuffix(left, right)
    {
      a, b := a[..|a| - 1], b[..|b| - 1];
      n := n + 1;
    }
  }

  method MatchLoop(L: seq<Segment>, R: seq<Segment>)
    returns (prefix: string, suffix: string, ls: nat, le: nat, rs: nat, re: nat, leftDone: bool, rightDone: bool)
    requires L != [] && R != []
    ensures Scan(prefix, suffix, ls, le, rs, re, leftDone, rightDone) == Match(L, R, Start(L, R))
  {
    prefix, suffix := "", "";
    ls, le, rs, re := 0, |L| - 1, 0, |R| - 1;
    leftDone, rightDone := false, false;
    ghost var end := Match(L, R, Start(L, R));
    while ls != le && rs != re
      invariant InRange(L, R, Scan(prefix, suffix, ls, le, rs, re, leftDone, rightDone))
      invariant Match(L, R, Scan(prefix, suffix, ls, le, rs, re, leftDone, rightDone)) == end
      decreases (le - ls) + (re - rs)
    {
      ghost var s := Scan(prefix, suffix, ls, le, rs, re, leftDone, rightDone);
      var advanced := false;
      if L[ls] == R[rs] {
        prefix := prefix + L[ls].value;
        ls := ls + 1;
        rs := rs + 1;
        advanced := true;
      }
      if L[le] == R[re] {
        suffix := L[le].value + suffix;
        if ls != le {
          le := le - 1;
        } else {
          leftDone := true;
        }
        if rs != re {
          re := re - 1;
        } else {
          rightDone := true;
        }
        advanced := true;
      }
      if !advanced {
        break;
      }
      assert Scan(prefix, suffix, ls, le, rs, re, leftDone, rightDone) == Turn(L, R, s);
    }
  }

  method CasesAfterLoop(L: seq<Segment>, R: seq<Segment>, s: Scan) returns (t: Scan)
    requires InRange(L, R, s)
    ensures t == Rematch(L, R, s)
  {
    t := s;
    if s.ls == s.le && s.rs != s.re {
      if L[s.ls] == R[s.re] {
        t := t.(suffix := R[s.re].value + s.suffix, re := s.re - 1, leftDone := true);
      } else if L[s.ls] == R[s.rs] {
        t := t.(prefix := s.prefix + R[s.rs].value, rs := s.rs + 1, leftDone := true);
      }
    } else if s.rs == s.re && s.ls != s.le {
      if L[s.le] == R[s.rs] {
        t := t.(suffix := L[s.le].value + s.suffix, le := s.le - 1, rightDone := true);
      } else if L[s.ls] == R[s.rs] {
        t := t.(prefix := s.prefix + L[s.ls].value, ls := s.ls + 1, rightDone := true);
      }
    } else if s.ls == s.le && s.rs == s.re && L[s.ls] == R[s.rs] && L[s.ls].kind == Marker {
      t := t.(prefix := s.prefix + R[s.rs].value, leftDone := true, rightDone := true);
    }
  }

  method TrimRest(L: seq<Segment>, R: seq<Segment>, s: Scan) returns (d: Diff)
    requires InRange(L, R, s)
    ensures d == Trim(L, R, s)
  {
    var left, right := LeftRest(L, R, s), RightRest(L, R, s);
    d := TrimBoth(s.prefix, s.suffix, left, right,
                  L[s.ls].kind == Text && R[s.rs].kind == Text, L[s.le].kind == Text && R[s.re].kind == Text);
  }

  method TrimBoth(prefix: string, suffix: string, left: string, right: string, textStarts: bool, textEnds: bool)
    returns (d: Diff)
    ensures d == TrimTexts(prefix, suffix, left, right, textStarts, textEnds)
  {
    var n, m := 0, 0;
    if textEnds {
      n := CommonSuffixLen(left, right);
    }
    // the suffix is cut off first, so that prefix and suffix never overlap
    if textStarts {
      m := CommonPrefixLen(left[..|left| - n], right[..|right| - n]);
    }
    d := TrimAt(prefix, suffix, left, right, n, m);
  }

  method CalculateDiffSplit(left: string, right: string) returns (result: Diff)
    ensures result == Split(left, right)
  {
    var L := SegmentizeMarkers(left);
    var R := SegmentizeMarkers(right);
    if L == [] {
      return Diff("", "", "", right);
    }
    if R == [] {
      return Diff("", "", left, "");
    }
    var prefix, suffix, ls, le, rs, re, leftDone, rightDone := MatchLoop(L, R);
    var s := CasesAfterLoop(L, R, Scan(prefix, suffix, ls, le, rs, re, leftDone, rightDone));
    result := TrimRest(L, R, s);
    if result.left == "" && result.right == "" {
      result := result.(prefix := left, suffix := "");
    }
    if result.left == "" && result.right != "" && |left| <= |right| && right[..|left|] == left {
      result := result.(prefix := left, suffix := "", right := right[|left|..]);
    }
  }
}
