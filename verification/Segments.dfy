/**
 `segmentize_markers`: cutting a text into markers (`<...>` and `[...]`) and the text
 between them.
 */
module Segments {
  import opened Sequences

  datatype Kind = Text | Marker

  datatype Segment = Segment(kind: Kind, value: string)

  predicate IsOpener(c: char) {
    c == '<' || c == '['
  }

  predicate IsCloser(op: char, c: char) {
    (op == '<' && c == '>') || (op == '[' && c == ']')
  }

  predicate NoOpener(s: string) {
    forall i | 0 <= i < |s| :: !IsOpener(s[i])
  }

  predicate NoCloser(op: char, s: string) {
    forall i | 0 <= i < |s| :: !IsCloser(op, s[i])
  }

  /** The position of the first marker opener, or the length. */
  function FindOpener(s: string): (k: nat)
    ensures k <= |s|
  {
    if s == "" || IsOpener(s[0]) then 0 else 1 + FindOpener(s[1..])
  }

  /** The position of the first closer for `op`, or the length. */
  function FindCloser(op: char, s: string): (k: nat)
    ensures k <= |s|
  {
    if s == "" || IsCloser(op, s[0]) then 0 else 1 + FindCloser(op, s[1..])
  }

  function Segmentize(text: string): seq<Segment>
    decreases |text|
  {
    if text == "" then []
    else if IsOpener(text[0]) then
      var j := FindCloser(text[0], text);
      if j == |text| then [Segment(Text, text)]
      else [Segment(Marker, text[..j + 1])] + Segmentize(text[j + 1..])
    else
      var k := FindOpener(text);
      [Segment(Text, text[..k])] + Segmentize(text[k..])
  }

  function Concat(segs: seq<Segment>): string {
    if segs == [] then "" else segs[0].value + Concat(segs[1..])
  }

  // ----- the searches -----

  lemma {:induction false} OpenerAt(s: string, k: nat)
    requires k <= |s| && NoOpener(s[..k])
    requires k < |s| ==> IsOpener(s[k])
    ensures FindOpener(s) == k
  {
    if k > 0 {
      assert s[..k][0] == s[0];
      assert s[1..][..k - 1] == s[..k][1..];
      OpenerAt(s[1..], k - 1);
    }
  }

  lemma {:induction false} CloserAt(op: char, s: string, k: nat)
    requires k <= |s| && NoCloser(op, s[..k])
    requires k < |s| ==> IsCloser(op, s[k])
    ensures FindCloser(op, s) == k
  {
    if k > 0 {
      assert s[..k][0] == s[0];
      assert s[1..][..k - 1] == s[..k][1..];
      CloserAt(op, s[1..], k - 1);
    }
  }

  lemma {:induction false} OpenerFound(s: string)
    ensures NoOpener(s[..FindOpener(s)])
    ensures FindOpener(s) < |s| ==> IsOpener(s[FindOpener(s)])
  {
    if s != "" && !IsOpener(s[0]) {
      OpenerFound(s[1..]);
      assert s[..FindOpener(s)] == [s[0]] + s[1..][..FindOpener(s[1..])];
    }
  }

  lemma {:induction false} CloserFound(op: char, s: string)
    ensures NoCloser(op, s[..FindCloser(op, s)])
    ensures FindCloser(op, s) < |s| ==> IsCloser(op, s[FindCloser(op, s)])
  {
    if s != "" && !IsCloser(op, s[0]) {
      CloserFound(op, s[1..]);
      assert s[..FindCloser(op, s)] == [s[0]] + s[1..][..FindCloser(op, s[1..])];
    }
  }

  // ----- one segment at a time -----

  /** A marker: an opener, no closer for it inside, and the closer at the end. */
  predicate IsMarker(v: string) {
    |v| >= 2 && IsOpener(v[0]) && NoCloser(v[0], v[..|v| - 1]) && IsCloser(v[0], v[|v| - 1])
  }

  predicate IsPlainText(v: string) {
    v != "" && NoOpener(v)
  }

  /** A marker that was never closed: it can only be the last segment, and counts as text. */
  predicate IsUnclosed(v: string) {
    v != "" && IsOpener(v[0]) && NoCloser(v[0], v)
  }

  predicate StartsWithOpener(s: string) {
    s == "" || IsOpener(s[0])
  }

  lemma {:induction false} MarkerFirst(v: string, rest: string)
    requires IsMarker(v)
    ensures Segmentize(v + rest) == [Segment(Marker, v)] + Segmentize(rest)
  {
    var s := v + rest;
    var j := |v| - 1;
    assert s[..j] == v[..j] && s[0] == v[0] && s[j] == v[j];
    CloserAt(v[0], s, j);
    assert s[..j + 1] == v && s[j + 1..] == rest;
  }

  lemma {:induction false} TextFirst(v: string, rest: string)
    requires IsPlainText(v) && StartsWithOpener(rest)
    ensures Segmentize(v + rest) == [Segment(Text, v)] + Segmentize(rest)
  {
    var s := v + rest;
    var k := |v|;
    assert s[0] == v[0] && s[..k] == v && s[k..] == rest;
    assert rest != "" ==> s[k] == rest[0];
    OpenerAt(s, k);
  }

  lemma {:induction false} UnclosedOnly(v: string)
    requires IsUnclosed(v)
    ensures Segmentize(v) == [Segment(Text, v)]
  {
    assert v[..|v|] == v;
    CloserAt(v[0], v, |v|);
  }

  // ----- the loop -----

  /** No border between `border` and `cur`: inside a marker, or outside. */
  predicate Scanned(text: string, border: nat, cur: nat, inMarker: bool, opener: char)
    requires border <= cur <= |text|
  {
    (inMarker ==> border < cur && opener == text[border] && IsOpener(opener)) &&
    forall i | border <= i < cur :: if inMarker then !IsCloser(opener, text[i]) else !IsOpener(text[i])
  }

  method SegmentizeMarkers(text: string) returns (segs: seq<Segment>)
    ensures segs == Segmentize(text)
  {
    segs := [];
    var inMarker := false;
    var opener := '\0';
    var border := 0;
    NothingDone(text);
    for cur := 0 to |text|
      invariant 0 <= border <= cur
      invariant Done(text, segs, border)
      invariant Scanned(text, border, cur, inMarker, opener)
    {
      var c := text[cur];
      if !inMarker && IsOpener(c) {
        if border < cur {
          AddText(segs, text, border, cur, opener);
          segs := segs + [Segment(Text, text[border..cur])];
        }
        border := cur;
        inMarker := true;
        opener := c;
        OpenerScanned(text, cur);
      } else if inMarker && IsCloser(opener, c) {
        AddMarker(segs, text, border, cur + 1);
        segs := segs + [Segment(Marker, text[border..cur + 1])];
        border := cur + 1;
        inMarker := false;
        opener := '\0';
      } else {
        StillScanned(text, border, cur, inMarker, opener);
      }
    }
    if border < |text| {
      AddLast(segs, text, border, inMarker, opener);
      segs := segs + [Segment(Text, text[border..])];
    }
    NothingLeft(segs, text);
  }

  /** The segments up to `border`. */
  predicate Done(text: string, segs: seq<Segment>, border: nat) {
    border <= |text| && Segmentize(text) == segs + Segmentize(text[border..])
  }

  lemma NothingDone(text: string)
    ensures Done(text, [], 0)
  {
    assert text[0..] == text && [] + Segmentize(text) == Segmentize(text);
  }

  lemma AddText(segs: seq<Segment>, text: string, border: nat, cur: nat, opener: char)
    requires border < cur < |text| && IsOpener(text[cur]) && Scanned(text, border, cur, false, opener)
    requires Done(text, segs, border)
    ensures Done(text, segs + [Segment(Text, text[border..cur])], cur)
  {
    TextPart(text, border, cur, opener);
    Regroup(segs, [Segment(Text, text[border..cur])], Segmentize(text[cur..]));
  }

  lemma AddMarker(segs: seq<Segment>, text: string, border: nat, end: nat)
    requires border + 1 < end <= |text| && Scanned(text, border, end - 1, true, text[border])
    requires IsCloser(text[border], text[end - 1]) && Done(text, segs, border)
    ensures Done(text, segs + [Segment(Marker, text[border..end])], end)
  {
    MarkerPart(text, border, end);
    Regroup(segs, [Segment(Marker, text[border..end])], Segmentize(text[end..]));
  }

  lemma NothingLeft(segs: seq<Segment>, text: string)
    requires Done(text, segs, |text|)
    ensures Segmentize(text) == segs
  {
    assert text[|text|..] == "";
  }

  lemma AddLast(segs: seq<Segment>, text: string, border: nat, inMarker: bool, opener: char)
    requires border < |text| && Scanned(text, border, |text|, inMarker, opener) && Done(text, segs, border)
    ensures Done(text, segs + [Segment(Text, text[border..])], |text|)
  {
    LastPart(text, border, inMarker, opener);
    assert text[|text|..] == "";
  }

  lemma StillScanned(text: string, border: nat, cur: nat, inMarker: bool, opener: char)
    requires border <= cur < |text| && Scanned(text, border, cur, inMarker, opener)
    requires if inMarker then !IsCloser(opener, text[cur]) else !IsOpener(text[cur])
    ensures Scanned(text, border, cur + 1, inMarker, opener)
  {
  }

  lemma OpenerScanned(text: string, cur: nat)
    requires cur < |text| && IsOpener(text[cur])
    ensures Scanned(text, cur, cur + 1, true, text[cur])
  {
  }

  lemma TextPart(text: string, border: nat, cur: nat, opener: char)
    requires border < cur < |text| && IsOpener(text[cur]) && Scanned(text, border, cur, false, opener)
    ensures Segmentize(text[border..]) == [Segment(Text, text[border..cur])] + Segmentize(text[cur..])
  {
    assert text[border..] == text[border..cur] + text[cur..];
    TextFirst(text[border..cur], text[cur..]);
  }

  lemma MarkerPart(text: string, border: nat, end: nat)
    requires border + 1 < end <= |text| && Scanned(text, border, end - 1, true, text[border])
    requires IsCloser(text[border], text[end - 1])
    ensures Segmentize(text[border..]) == [Segment(Marker, text[border..end])] + Segmentize(text[end..])
  {
    assert text[border..] == text[border..end] + text[end..];
    assert text[border..end][..end - 1 - border] == text[border..end - 1];
    MarkerFirst(text[border..end], text[end..]);
  }

  lemma LastPart(text: string, border: nat, inMarker: bool, opener: char)
    requires border < |text| && Scanned(text, border, |text|, inMarker, opener)
    ensures Segmentize(text[border..]) == [Segment(Text, text[border..])]
  {
    if inMarker {
      UnclosedOnly(text[border..]);
    } else {
      TextFirst(text[border..], "");
      assert text[border..] + "" == text[border..];
    }
  }

  // ----- segmenting and concatenating undo each other -----

  /** The segment lists that segmenting can produce. */
  predicate Canonical(segs: seq<Segment>) {
    segs == [] ||
    match segs[0].kind
    case Marker => IsMarker(segs[0].value) && Canonical(segs[1..])
    case Text =>
      if IsUnclosed(segs[0].value) then |segs| == 1
      else IsPlainText(segs[0].value) && Canonical(segs[1..]) && StartsWithOpener(Concat(segs[1..]))
  }

  lemma FirstAndRest(first: Segment, rest: seq<Segment>)
    ensures Concat([first] + rest) == first.value + Concat(rest)
    ensures first.kind == Marker && IsMarker(first.value) && Canonical(rest) ==> Canonical([first] + rest)
    ensures first.kind == Text && IsPlainText(first.value) && Canonical(rest) && StartsWithOpener(Concat(rest)) ==>
              Canonical([first] + rest)
    ensures first.kind == Text && IsUnclosed(first.value) && rest == [] ==> Canonical([first] + rest)
  {
    assert ([first] + rest)[1..] == rest;
  }

  lemma FirstMarkerIsMarker(text: string, j: nat)
    requires text != "" && IsOpener(text[0]) && j == FindCloser(text[0], text) < |text|
    ensures IsMarker(text[..j + 1]) && text[..j + 1] + text[j + 1..] == text
  {
    CloserFound(text[0], text);
    ClosedIsMarker(text[..j + 1], text[..j]);
  }

  lemma ClosedIsMarker(v: string, inner: string)
    requires inner != "" && IsOpener(inner[0]) && NoCloser(inner[0], inner)
    requires |v| == |inner| + 1 && v[..|inner|] == inner && IsCloser(inner[0], v[|inner|])
    ensures IsMarker(v)
  {
    assert v[0] == inner[0];
  }

  lemma FirstTextIsPlain(text: string, k: nat)
    requires text != "" && !IsOpener(text[0]) && k == FindOpener(text)
    ensures IsPlainText(text[..k]) && StartsWithOpener(text[k..]) && text[..k] + text[k..] == text
  {
    OpenerFound(text);
  }

  lemma UnclosedIsText(text: string)
    requires text != "" && IsOpener(text[0]) && FindCloser(text[0], text) == |text|
    ensures IsUnclosed(text)
  {
    CloserFound(text[0], text);
    assert text[..|text|] == text;
  }

  /** Segmenting loses no character, and gives markers with text between them. */
  lemma {:induction false} SegmentsMakeText(text: string)
    ensures Concat(Segmentize(text)) == text && Canonical(Segmentize(text))
    decreases |text|
  {
    if text == "" {
    } else if IsOpener(text[0]) {
      var j := FindCloser(text[0], text);
      if j == |text| {
        UnclosedIsText(text);
        FirstAndRest(Segment(Text, text), []);
      } else {
        FirstMarkerIsMarker(text, j);
        SegmentsMakeText(text[j + 1..]);
        FirstAndRest(Segment(Marker, text[..j + 1]), Segmentize(text[j + 1..]));
      }
    } else {
      var k := FindOpener(text);
      FirstTextIsPlain(text, k);
      SegmentsMakeText(text[k..]);
      FirstAndRest(Segment(Text, text[..k]), Segmentize(text[k..]));
    }
  }

  /** Segmenting the concatenation of a canonical list gives the list back. */
  lemma {:induction false} TextMakesSegments(segs: seq<Segment>)
    requires Canonical(segs)
    ensures Segmentize(Concat(segs)) == segs
  {
    if segs != [] {
      var v, rest := segs[0].value, Concat(segs[1..]);
      assert [segs[0]] + segs[1..] == segs;
      if segs[0].kind == Marker {
        TextMakesSegments(segs[1..]);
        MarkerFirst(v, rest);
      } else if IsUnclosed(v) {
        assert segs[1..] == [] && v + "" == v;
        UnclosedOnly(v);
      } else {
        TextMakesSegments(segs[1..]);
        TextFirst(v, rest);
      }
    }
  }

  /** After a marker the segmentation starts afresh. */
  lemma {:induction false} SegmentsOfAppend(a: string, b: string)
    requires Segmentize(a) != [] && Segmentize(a)[|Segmentize(a)| - 1].kind == Marker
    ensures Segmentize(a + b) == Segmentize(a) + Segmentize(b)
  {
    SegmentsMakeText(a);
    AppendCanonical(Segmentize(a), b);
  }

  lemma {:induction false} AppendCanonical(segs: seq<Segment>, b: string)
    requires Canonical(segs) && segs != [] && segs[|segs| - 1].kind == Marker
    ensures Segmentize(Concat(segs) + b) == segs + Segmentize(b)
  {
    if |segs| == 1 {
      OneMarker(segs, b);
    } else {
      AppendCanonical(segs[1..], b);
      FirstStays(segs, Concat(segs[1..]) + b);
      Regroup(segs[0].value, Concat(segs[1..]), b);
      FirstThenRest(segs, Segmentize(b));
    }
  }

  lemma OneMarker(segs: seq<Segment>, b: string)
    requires Canonical(segs) && |segs| == 1 && segs[0].kind == Marker
    ensures Segmentize(Concat(segs) + b) == segs + Segmentize(b)
  {
    assert segs[1..] == [] && segs[0].value + "" == segs[0].value;
    MarkerFirst(segs[0].value, b);
  }

  lemma FirstThenRest(segs: seq<Segment>, more: seq<Segment>)
    requires segs != []
    ensures [segs[0]] + (segs[1..] + more) == segs + more
  {
  }

  lemma {:induction false} FirstStays(segs: seq<Segment>, tail: string)
    requires Canonical(segs) && |segs| > 1 && Concat(segs[1..]) <= tail
    ensures Segmentize(segs[0].value + tail) == [segs[0]] + Segmentize(tail)
  {
    if segs[0].kind == Marker {
      MarkerFirst(segs[0].value, tail);
    } else {
      ConcatNonEmpty(segs[1..]);
      TextFirst(segs[0].value, tail);
    }
  }

  lemma ConcatNonEmpty(segs: seq<Segment>)
    requires Canonical(segs) && segs != []
    ensures Concat(segs) != "" && segs[0].value != ""
  {
  }
}
