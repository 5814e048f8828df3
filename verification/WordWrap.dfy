/**
 `break_str_into_lines`: text is cut at newlines, and each line that is too long is
 packed greedily, word by word, into lines of at most `max` characters. That no packing
 takes fewer lines is proved by comparing, line by line, how many words are used up, for
 any other lines that hold the same words.
 */
module WordWrap {
  import opened Sequences
  import opened CType

  // ----- lines and words of a text -----

  function UpTo(s: string, c: char): (n: nat)
    ensures n <= |s| && (n < |s| ==> s[n] == c) && c !in s[..n]
  {
    if s == "" || s[0] == c then 0
    else
      var n := UpTo(s[1..], c);
      assert s[..1 + n] == [s[0]] + s[1..][..n];
      1 + n
  }

  /** The lines `getline` yields: no line follows a final newline. */
  function Lines(s: string): seq<string>
    decreases |s|
  {
    if s == "" then []
    else
      var n := UpTo(s, '\n');
      if n == |s| then [s] else [s[..n]] + Lines(s[n + 1..])
  }

  function Unlines(ls: seq<string>): string {
    if ls == [] then "" else ls[0] + "\n" + Unlines(ls[1..])
  }

  /** The lines are the text, but for a newline missing at its end. */
  lemma {:induction false} LinesMakeText(s: string)
    ensures Unlines(Lines(s)) == if s == "" || s[|s| - 1] == '\n' then s else s + "\n"
    decreases |s|
  {
    if s != "" {
      var n := UpTo(s, '\n');
      if n == |s| {
        assert s[..n] == s;
        UnlinesOfMore(s, []);
      } else {
        LinesMakeText(s[n + 1..]);
        UnlinesOfMore(s[..n], Lines(s[n + 1..]));
        NewlineAt(s, n);
      }
    }
  }

  lemma UnlinesOfMore(l: string, ls: seq<string>)
    ensures Unlines([l] + ls) == l + "\n" + Unlines(ls)
  {
    assert ([l] + ls)[1..] == ls;
  }

  lemma NewlineAt(s: string, n: nat)
    requires n < |s| && s[n] == '\n'
    ensures s[..n] + "\n" + s[n + 1..] == s
    ensures s[..n] + "\n" + (s[n + 1..] + "\n") == s + "\n"
  {
  }

  lemma {:induction false} UpToAt(l: string, rest: string)
    requires '\n' !in l
    ensures UpTo(l + "\n" + rest, '\n') == |l|
  {
    if l == "" {
      assert l + "\n" + rest == "\n" + rest;
    } else {
      assert (l + "\n" + rest)[1..] == l[1..] + "\n" + rest;
      UpToAt(l[1..], rest);
    }
  }

  predicate OneLineEach(ls: seq<string>) {
    forall i | 0 <= i < |ls| :: '\n' !in ls[i]
  }

  /** Lines without a newline in them, each ended by one, are read back. */
  lemma {:induction false} LinesOfUnlines(ls: seq<string>)
    requires OneLineEach(ls)
    ensures Lines(Unlines(ls)) == ls
  {
    if ls != [] {
      var rest := Unlines(ls[1..]);
      UpToAt(ls[0], rest);
      LinesOfUnlines(ls[1..]);
      assert (ls[0] + "\n" + rest)[..|ls[0]|] == ls[0] && (ls[0] + "\n" + rest)[|ls[0]| + 1..] == rest;
      assert [ls[0]] + ls[1..] == ls;
    }
  }

  lemma {:induction false} LinesHaveNoNewline(s: string)
    ensures OneLineEach(Lines(s))
    decreases |s|
  {
    if s != "" {
      var n := UpTo(s, '\n');
      if n == |s| {
        assert s[..n] == s;
      } else {
        LinesHaveNoNewline(s[n + 1..]);
      }
    }
  }

  /** So the lines of a text are the only ones without a newline that make it up. */
  lemma LinesAreUnique(s: string, ls: seq<string>)
    requires OneLineEach(ls) && Unlines(ls) == Unlines(Lines(s))
    ensures ls == Lines(s)
  {
    LinesHaveNoNewline(s);
    LinesOfUnlines(ls);
    LinesOfUnlines(Lines(s));
  }

  function WordLength(s: string): (n: nat)
    ensures n <= |s|
    ensures s != "" && !IsSpace(s[0]) ==> n >= 1
  {
    if s == "" || IsSpace(s[0]) then 0 else 1 + WordLength(s[1..])
  }

  /** The words that `>>` reads from a line. */
  function Words(s: string): seq<string>
    decreases |s|
  {
    if s == "" then []
    else if IsSpace(s[0]) then Words(s[1..])
    else [s[..WordLength(s)]] + Words(s[WordLength(s)..])
  }

  predicate IsWord(w: string) {
    w != "" && forall i | 0 <= i < |w| :: !IsSpace(w[i])
  }

  predicate AllAreWords(ws: seq<string>) {
    forall i | 0 <= i < |ws| :: IsWord(ws[i])
  }

  lemma {:induction false} WordLengthIsWord(s: string)
    requires s != "" && !IsSpace(s[0])
    ensures IsWord(s[..WordLength(s)])
  {
    var n := WordLength(s[1..]);
    if n > 0 {
      WordLengthIsWord(s[1..]);
      assert s[..1 + n] == [s[0]] + s[1..][..n];
    }
  }

  lemma {:induction false} WordsAreWords(s: string)
    ensures AllAreWords(Words(s))
    decreases |s|
  {
    if s != "" {
      if IsSpace(s[0]) {
        WordsAreWords(s[1..]);
      } else {
        WordLengthIsWord(s);
        WordsAreWords(s[WordLength(s)..]);
      }
    }
  }

  /** A word followed by nothing or by a space. */
  lemma {:induction false} WordThenSpace(w: string, rest: string)
    requires IsWord(w) && (rest != "" ==> IsSpace(rest[0]))
    ensures Words(w + rest) == [w] + Words(rest)
  {
    WordLengthAppend(w, rest);
    assert (w + rest)[..|w|] == w && (w + rest)[|w|..] == rest;
    assert (w + rest)[0] == w[0];
  }

  lemma {:induction false} WordLengthAppend(w: string, rest: string)
    requires forall i | 0 <= i < |w| :: !IsSpace(w[i])
    requires rest != "" ==> IsSpace(rest[0])
    ensures WordLength(w + rest) == |w|
  {
    if w == "" {
      assert w + rest == rest;
    } else {
      assert (w + rest)[1..] == w[1..] + rest;
      WordLengthAppend(w[1..], rest);
    }
  }

  // ----- joining words with single spaces -----

  function Join(ws: seq<string>): string {
    if ws == [] then ""
    else if |ws| == 1 then ws[0]
    else Join(ws[..|ws| - 1]) + " " + ws[|ws| - 1]
  }

  /** The words followed by `rest`, one space after each word but the last. */
  lemma {:induction false} WordsOfJoin(ws: seq<string>, rest: string)
    requires AllAreWords(ws) && (rest != "" ==> IsSpace(rest[0]))
    ensures Words(Join(ws) + rest) == ws + Words(rest)
  {
    var n := |ws| - 1;
    if ws == [] {
      assert Join(ws) + rest == rest;
    } else if n == 0 {
      WordThenSpace(ws[0], rest);
    } else {
      var tail := " " + (ws[n] + rest);
      WordsOfJoin(ws[..n], tail);
      LastWord(ws[n], rest);
      JoinThen(ws, rest);
      FrontAndLast(ws, Words(rest));
    }
  }

  lemma LastWord(w: string, rest: string)
    requires IsWord(w) && (rest != "" ==> IsSpace(rest[0]))
    ensures Words(" " + (w + rest)) == [w] + Words(rest)
  {
    WordThenSpace(w, rest);
    WordsAfterSpace(w + rest);
  }

  lemma FrontAndLast(ws: seq<string>, more: seq<string>)
    requires ws != []
    ensures ws[..|ws| - 1] + ([ws[|ws| - 1]] + more) == ws + more
  {
  }

  lemma WordsAfterSpace(s: string)
    ensures Words(" " + s) == Words(s)
  {
    assert (" " + s)[1..] == s;
  }

  lemma {:induction false} JoinThen(ws: seq<string>, rest: string)
    requires |ws| > 1
    ensures Join(ws) + rest == Join(ws[..|ws| - 1]) + (" " + (ws[|ws| - 1] + rest))
  {
    SpaceBetween(Join(ws[..|ws| - 1]), ws[|ws| - 1], rest);
  }

  lemma SpaceBetween(a: string, b: string, rest: string)
    ensures (a + " " + b) + rest == a + (" " + (b + rest))
  {
    Regroup(a, " ", b);
    RegroupFour(a, " ", b, rest);
  }

  lemma {:induction false} JoinLength(a: seq<string>, b: seq<string>)
    requires b != []
    ensures |Join(a + b)| == |Join(a)| + (if a == [] then 0 else 1) + |Join(b)|
    decreases |b|
  {
    if a == [] {
      assert a + b == b;
    } else {
      assert (a + b)[..|a + b| - 1] == a + b[..|b| - 1];
      if |b| == 1 {
        assert a + b[..0] == a;
      } else {
        JoinLength(a, b[..|b| - 1]);
      }
    }
  }

  /** Words of a text, joined, are not longer than the text. */
  lemma {:induction false} JoinedWordsAreShort(s: string)
    ensures |Join(Words(s))| <= |s|
    ensures s != "" && IsSpace(s[0]) && Words(s) != [] ==> |Join(Words(s))| < |s|
    decreases |s|
  {
    if s != "" {
      if IsSpace(s[0]) {
        JoinedWordsAreShort(s[1..]);
      } else {
        var n := WordLength(s);
        WordEnds(s);
        JoinedWordsAreShort(s[n..]);
        if Words(s[n..]) != [] {
          JoinLength([s[..n]], Words(s[n..]));
        }
      }
    }
  }

  lemma {:induction false} WordEnds(s: string)
    ensures WordLength(s) < |s| ==> IsSpace(s[WordLength(s)])
  {
    if s != "" && !IsSpace(s[0]) {
      WordEnds(s[1..]);
    }
  }

  // ----- greedy packing -----

  /** The lines that packing adds when `current` is the line begun and `ws` are the words to come. */
  function Pack(max: nat, current: string, ws: seq<string>): seq<string>
    decreases |ws|
  {
    var done := if current == "" then [] else [current];
    if ws == [] then done
    else if |current| + |done| + |ws[0]| > max then done + Pack(max, ws[0], ws[1..])
    else Pack(max, if current == "" then ws[0] else current + " " + ws[0], ws[1..])
  }

  /** What `add_line` makes of one line. */
  function AddLine(max: nat, l: string): seq<string> {
    if |l| <= max then [l] else Pack(max, "", Words(l))
  }

  function AddLines(max: nat, ls: seq<string>): seq<string> {
    if ls == [] then [] else AddLine(max, ls[0]) + AddLines(max, ls[1..])
  }

  function BreakIntoLines(max: nat, input: string): seq<string> {
    AddLines(max, Lines(input))
  }

  /** How many words go on the first line, when `n` do already. */
  function Grow(max: nat, ws: seq<string>, n: nat): (f: nat)
    requires 1 <= n <= |ws|
    ensures n <= f <= |ws|
    decreases |ws| - n
  {
    if n < |ws| && |Join(ws[..n + 1])| <= max then Grow(max, ws, n + 1) else n
  }

  /** The least number of lines: as many words as fit on the first line, and the rest likewise. */
  function LineCount(max: nat, ws: seq<string>): nat
    decreases |ws|
  {
    if ws == [] then 0 else 1 + LineCount(max, ws[Grow(max, ws, 1)..])
  }

  /** The lines of a wrapping may be too long only when they hold a single word. */
  predicate FitsOrSingle(max: nat, ws: seq<string>) {
    |ws| <= 1 || |Join(ws)| <= max
  }

  predicate EveryLineFits(max: nat, lines: seq<string>) {
    forall i | 0 <= i < |lines| :: |lines[i]| <= max || |Words(lines[i])| == 1
  }

  function AllWords(lines: seq<string>): seq<string> {
    if lines == [] then [] else Words(lines[0]) + AllWords(lines[1..])
  }

  /** Packing writes on the current line as many words as fit. */
  lemma {:induction false} PackFillsLine(max: nat, ws: seq<string>, n: nat)
    requires 1 <= n <= |ws| && AllAreWords(ws)
    ensures var f := Grow(max, ws, n);
            Pack(max, Join(ws[..n]), ws[n..]) == [Join(ws[..f])] + Pack(max, "", ws[f..])
    decreases |ws| - n
  {
    if n == |ws| {
      PackLast(max, ws);
    } else {
      PackNext(max, ws, n);
      if |Join(ws[..n + 1])| <= max {
        PackFillsLine(max, ws, n + 1);
      } else {
        PackStarts(max, ws[n..]);
      }
    }
  }

  lemma PackLast(max: nat, ws: seq<string>)
    requires AllAreWords(ws) && ws != []
    ensures Pack(max, Join(ws[..|ws|]), ws[|ws|..]) == [Join(ws[..|ws|])] + Pack(max, "", ws[|ws|..])
  {
    assert ws[..|ws|] == ws;
    JoinNotEmpty(ws);
  }

  lemma PackNext(max: nat, ws: seq<string>, n: nat)
    requires 1 <= n < |ws| && AllAreWords(ws)
    ensures var current, longer := Join(ws[..n]), Join(ws[..n + 1]);
            Pack(max, current, ws[n..]) ==
            if |longer| <= max then Pack(max, longer, ws[n + 1..]) else [current] + Pack(max, ws[n..][0], ws[n..][1..])
  {
    JoinNotEmpty(ws[..n]);
    assert ws[n..][1..] == ws[n + 1..] && ws[n..][0] == ws[n];
    assert ws[..n + 1][..n] == ws[..n];
  }

  lemma JoinNotEmpty(ws: seq<string>)
    requires AllAreWords(ws) && ws != []
    ensures Join(ws) != ""
  {
  }

  /** The first word begins a line, whether or not it fits. */
  lemma PackStarts(max: nat, ws: seq<string>)
    requires ws != [] && AllAreWords(ws)
    ensures Pack(max, "", ws) == Pack(max, ws[0], ws[1..])
  {
  }

  /** Packed lines hold the words in order, are too long only with a single word, and are `LineCount` many. */
  lemma {:induction false} PackWraps(max: nat, ws: seq<string>)
    requires AllAreWords(ws)
    ensures var lines := Pack(max, "", ws);
            AllWords(lines) == ws && EveryLineFits(max, lines) && |lines| == LineCount(max, ws)
    decreases |ws|
  {
    if ws != [] {
      var f := Grow(max, ws, 1);
      PackFirstLine(max, ws);
      PackWraps(max, ws[f..]);
      GrownFits(max, ws, 1);
      JoinedLine(max, ws[..f]);
      FirstWords(ws, f);
      LineFirst(max, Join(ws[..f]), Pack(max, "", ws[f..]));
    }
  }

  /** Every line is its words with one space between them. */
  predicate EveryLineJoined(lines: seq<string>) {
    forall i | 0 <= i < |lines| :: lines[i] == Join(Words(lines[i]))
  }

  lemma {:induction false} PackJoins(max: nat, ws: seq<string>)
    requires AllAreWords(ws)
    ensures EveryLineJoined(Pack(max, "", ws))
    decreases |ws|
  {
    if ws != [] {
      var f := Grow(max, ws, 1);
      PackFirstLine(max, ws);
      PackJoins(max, ws[f..]);
      GrownFits(max, ws, 1);
      JoinedLine(max, ws[..f]);
    }
  }

  lemma FirstWords(ws: seq<string>, f: nat)
    requires f <= |ws|
    ensures ws[..f] + ws[f..] == ws
  {
  }

  lemma PackFirstLine(max: nat, ws: seq<string>)
    requires AllAreWords(ws) && ws != []
    ensures var f := Grow(max, ws, 1);
            Pack(max, "", ws) == [Join(ws[..f])] + Pack(max, "", ws[f..])
  {
    PackStarts(max, ws);
    assert Join(ws[..1]) == ws[0];
    PackFillsLine(max, ws, 1);
  }

  lemma JoinedLine(max: nat, ws: seq<string>)
    requires AllAreWords(ws) && ws != [] && FitsOrSingle(max, ws)
    ensures Words(Join(ws)) == ws && (|Join(ws)| <= max || |Words(Join(ws))| == 1)
  {
    WordsOfJoin(ws, "");
    assert Join(ws) + "" == Join(ws) && ws + [] == ws;
  }

  lemma LineFirst(max: nat, line: string, lines: seq<string>)
    requires EveryLineFits(max, lines) && (|line| <= max || |Words(line)| == 1)
    ensures EveryLineFits(max, [line] + lines)
    ensures AllWords([line] + lines) == Words(line) + AllWords(lines)
  {
    assert ([line] + lines)[1..] == lines;
  }

  lemma {:induction false} GrownFits(max: nat, ws: seq<string>, n: nat)
    requires 1 <= n <= |ws| && FitsOrSingle(max, ws[..n])
    ensures FitsOrSingle(max, ws[..Grow(max, ws, n)])
    decreases |ws| - n
  {
    if n < |ws| && |Join(ws[..n + 1])| <= max {
      GrownFits(max, ws, n + 1);
    }
  }

  // ----- no wrapping has fewer lines -----

  /** A longer beginning of the words has a longer joined text. */
  lemma BeginningIsShorter(ws: seq<string>, n: nat, m: nat)
    requires n <= m <= |ws|
    ensures |Join(ws[..n])| <= |Join(ws[..m])|
  {
    if n < m {
      CutIn(ws, n, m);
      JoinLength(ws[..n], ws[n..m]);
    }
  }

  /** No more than `Grow` words fit on the first line. */
  lemma {:induction false} GrowIsMost(max: nat, ws: seq<string>, n: nat, m: nat)
    requires 1 <= n <= m <= |ws| && (m == n || |Join(ws[..m])| <= max)
    ensures m <= Grow(max, ws, n)
    decreases |ws| - n
  {
    if n < m {
      BeginningIsShorter(ws, n + 1, m);
      GrowIsMost(max, ws, n + 1, m);
    }
  }

  /** Leaving out words at the beginning never takes more lines. */
  lemma {:induction false} CountFrom(max: nat, ws: seq<string>, j: nat)
    requires j < |ws|
    ensures LineCount(max, ws[j..]) == 1 + LineCount(max, ws[j + Grow(max, ws[j..], 1)..])
  {
    DropTwice(ws, j, Grow(max, ws[j..], 1));
  }

  lemma {:induction false} FewerWordsFewerLines(max: nat, ws: seq<string>, j: nat)
    requires j <= |ws|
    ensures LineCount(max, ws[j..]) <= LineCount(max, ws)
    decreases |ws|
  {
    if j < |ws| && j > 0 {
      var f := Grow(max, ws, 1);
      if f <= j {
        DropTwice(ws, f, j - f);
        FewerWordsFewerLines(max, ws[f..], j - f);
      } else {
        var g := Grow(max, ws[j..], 1);
        RestOfLineFits(max, ws, j);
        CountFrom(max, ws, j);
        DropTwice(ws, f, j + g - f);
        FewerWordsFewerLines(max, ws[f..], j + g - f);
      }
    } else if j == 0 {
      assert ws[0..] == ws;
    }
  }

  lemma CutIn(ws: seq<string>, j: nat, f: nat)
    requires j <= f <= |ws|
    ensures ws[..f] == ws[..j] + ws[j..f] && ws[j..][..f - j] == ws[j..f]
  {
  }

  lemma RestOfLineFits(max: nat, ws: seq<string>, j: nat)
    requires 0 < j < |ws| && j < Grow(max, ws, 1)
    ensures Grow(max, ws, 1) <= j + Grow(max, ws[j..], 1)
  {
    var f := Grow(max, ws, 1);
    GrownFits(max, ws, 1);
    CutIn(ws, j, f);
    JoinLength(ws[..j], ws[j..f]);
    GrowIsMost(max, ws[j..], 1, f - j);
  }

  /** Any lines that hold the words, too long only with a single word, are at least `LineCount` many. */
  lemma {:induction false} NoFewerLines(max: nat, ws: seq<string>, lines: seq<string>)
    requires AllWords(lines) == ws && EveryLineFits(max, lines)
    ensures LineCount(max, ws) <= |lines|
    decreases |lines|
  {
    if lines != [] {
      var rest := AllWords(lines[1..]);
      NoFewerLines(max, rest, lines[1..]);
      OneLineLess(max, lines[0], rest);
    }
  }

  lemma Drops(a: seq<string>, b: seq<string>, f: nat)
    requires |a| <= f <= |a| + |b|
    ensures (a + b)[f..] == b[f - |a|..]
  {
  }

  lemma OneLineLess(max: nat, line: string, rest: seq<string>)
    requires |line| <= max || |Words(line)| == 1
    ensures LineCount(max, Words(line) + rest) <= 1 + LineCount(max, rest)
  {
    var first := Words(line);
    var n, ws := |first|, first + rest;
    Parts(first, rest);
    if n > 0 {
      JoinedWordsAreShort(line);
      GrowIsMost(max, ws, 1, n);
      var f := Grow(max, ws, 1);
      Drops(first, rest, f);
      FewerWordsFewerLines(max, rest, f - n);
    }
  }

  /**
   A line that is too long keeps its words, gives a line that is too long only for a
   single word, and no lines that do the same are fewer.
   */
  lemma LongLineIsWrapped(max: nat, l: string)
    requires max < |l|
    ensures AllWords(AddLine(max, l)) == Words(l) && EveryLineFits(max, AddLine(max, l)) && EveryLineJoined(AddLine(max, l))
    ensures forall lines | AllWords(lines) == Words(l) && EveryLineFits(max, lines) :: |AddLine(max, l)| <= |lines|
  {
    WordsAreWords(l);
    PackWraps(max, Words(l));
    PackJoins(max, Words(l));
    forall lines | AllWords(lines) == Words(l) && EveryLineFits(max, lines) ensures |AddLine(max, l)| <= |lines| {
      NoFewerLines(max, Words(l), lines);
    }
  }

  lemma {:induction false} AddLinesAppend(max: nat, a: seq<string>, b: seq<string>)
    ensures AddLines(max, a + b) == AddLines(max, a) + AddLines(max, b)
  {
    if a == [] {
      assert a + b == b;
    } else {
      assert (a + b)[1..] == a[1..] + b;
      AddLinesAppend(max, a[1..], b);
      Regroup(AddLine(max, a[0]), AddLines(max, a[1..]), AddLines(max, b));
    }
  }

  /** A line that fits stays as it is and where it is, indentation and blank lines included. */
  lemma FittingLineStays(max: nat, a: seq<string>, l: string, b: seq<string>)
    requires |l| <= max
    ensures AddLines(max, a + ([l] + b)) == AddLines(max, a) + ([l] + AddLines(max, b))
  {
    AddLinesAppend(max, a, [l] + b);
    assert ([l] + b)[1..] == b;
  }

  /** Where all lines fit, nothing changes. */
  lemma {:induction false} FittingLinesStay(max: nat, ls: seq<string>)
    requires forall i | 0 <= i < |ls| :: |ls[i]| <= max
    ensures AddLines(max, ls) == ls
  {
    if ls != [] {
      FittingLinesStay(max, ls[1..]);
      assert [ls[0]] + ls[1..] == ls;
    }
  }

  lemma FittingTextStays(max: nat, input: string)
    requires forall i | 0 <= i < |Lines(input)| :: |Lines(input)[i]| <= max
    ensures BreakIntoLines(max, input) == Lines(input)
  {
    FittingLinesStay(max, Lines(input));
  }

  /** The whole text keeps its words. */
  lemma {:induction false} WordsAreKept(max: nat, ls: seq<string>)
    ensures AllWords(AddLines(max, ls)) == AllWords(ls)
  {
    if ls != [] {
      WordsAreKept(max, ls[1..]);
      AllWordsAppend(AddLine(max, ls[0]), AddLines(max, ls[1..]));
      if |ls[0]| > max {
        LongLineIsWrapped(max, ls[0]);
      } else {
        assert AllWords([ls[0]]) == Words(ls[0]);
      }
    }
  }

  lemma {:induction false} AllWordsAppend(a: seq<string>, b: seq<string>)
    ensures AllWords(a + b) == AllWords(a) + AllWords(b)
  {
    if a == [] {
      assert a + b == b;
    } else {
      assert (a + b)[1..] == a[1..] + b;
      AllWordsAppend(a[1..], b);
    }
  }

  // ----- the loops of the source -----

  /** The first place from `pos` on that is not a space. */
  method SkipSpaces(l: string, pos: nat) returns (start: nat)
    requires pos <= |l|
    ensures pos <= start <= |l| && Words(l[start..]) == Words(l[pos..])
    ensures start < |l| ==> !IsSpace(l[start])
  {
    start := pos;
    while start < |l| && IsSpace(l[start])
      invariant pos <= start <= |l|
      invariant Words(l[start..]) == Words(l[pos..])
    {
      assert l[start..][1..] == l[start + 1..];
      start := start + 1;
    }
  }

  /** The first place from `start` on that is a space. */
  method SkipWord(l: string, start: nat) returns (end: nat)
    requires start <= |l|
    ensures start <= end <= |l| && end == start + WordLength(l[start..])
  {
    end := start;
    while end < |l| && !IsSpace(l[end])
      invariant start <= end <= |l|
      invariant WordLength(l[start..]) == end - start + WordLength(l[end..])
    {
      assert l[end..][1..] == l[end + 1..];
      end := end + 1;
    }
  }

  /** `line_stream >> word`: the next word from `pos` on, "" when there is none. */
  method NextWord(l: string, pos: nat) returns (word: string, next: nat)
    requires pos <= |l|
    ensures pos <= next <= |l|
    ensures word == "" ==> Words(l[pos..]) == []
    ensures word != "" ==> pos < next && Words(l[pos..]) == [word] + Words(l[next..])
  {
    var start := SkipSpaces(l, pos);
    next := SkipWord(l, start);
    word := l[start..next];
    FirstWord(l, start);
  }

  lemma {:induction false} FirstWord(l: string, start: nat)
    requires start < |l| ==> !IsSpace(l[start])
    requires start <= |l|
    ensures var n := WordLength(l[start..]);
            if start == |l| then Words(l[start..]) == [] && n == 0
            else n > 0 && start + n <= |l| && Words(l[start..]) == [l[start..start + n]] + Words(l[start + n..])
  {
    DropTwice(l, start, WordLength(l[start..]));
  }

  /** The word does not fit: the line begun is finished. */
  lemma PackFlushes(max: nat, lines: seq<string>, current: string, word: string, rest: seq<string>)
    requires |current| + (if current == "" then 0 else 1) + |word| > max
    ensures lines + Pack(max, current, [word] + rest) ==
            (if current == "" then lines else lines + [current]) + Pack(max, word, rest)
  {
    assert ([word] + rest)[1..] == rest;
    if current == "" {
      assert [] + Pack(max, word, rest) == Pack(max, word, rest);
    } else {
      Regroup(lines, [current], Pack(max, word, rest));
    }
  }

  lemma PackExtends(max: nat, current: string, word: string, rest: seq<string>)
    requires |current| + (if current == "" then 0 else 1) + |word| <= max
    ensures Pack(max, current, [word] + rest) ==
            Pack(max, if current == "" then word else current + " " + word, rest)
  {
    assert ([word] + rest)[1..] == rest;
  }

  /** One turn of the packing loop. */
  method PackWord(max: nat, lines: seq<string>, current: string, word: string, ghost rest: seq<string>)
    returns (done: seq<string>, next: string)
    ensures lines + Pack(max, current, [word] + rest) == done + Pack(max, next, rest)
  {
    done := lines;
    if |current| + (if current == "" then 0 else 1) + |word| > max {
      PackFlushes(max, lines, current, word, rest);
      if current != "" {
        done := done + [current];
      }
      next := word;
    } else {
      PackExtends(max, current, word, rest);
      next := if current == "" then word else current + " " + word;
    }
  }

  method WrapLine(max: nat, l: string) returns (lines: seq<string>)
    ensures lines == AddLine(max, l)
  {
    if |l| <= max {
      return [l];
    }
    lines := [];
    var current := "";
    var word, pos := NextWord(l, 0);
    ghost var whole := AddLine(max, l);
    assert l[0..] == l;
    while word != ""
      invariant pos <= |l|
      invariant whole == lines + Pack(max, current, if word == "" then [] else [word] + Words(l[pos..]))
      decreases |l| - pos, |word|
    {
      lines, current := PackWord(max, lines, current, word, Words(l[pos..]));
      word, pos := NextWord(l, pos);
    }
    if current != "" {
      lines := lines + [current];
    }
  }

  /** `getline`: the line that begins at `pos`, and where the next one begins. */
  method NextLine(input: string, pos: nat) returns (line: string, next: nat)
    requires pos < |input|
    ensures pos < next <= |input| && Lines(input[pos..]) == [line] + Lines(input[next..])
  {
    var end := pos;
    while end < |input| && input[end] != '\n'
      invariant pos <= end <= |input|
      invariant UpTo(input[pos..], '\n') == end - pos + UpTo(input[end..], '\n')
    {
      assert input[end..][1..] == input[end + 1..];
      end := end + 1;
    }
    line := input[pos..end];
    next := if end < |input| then end + 1 else end;
    FirstLine(input, pos, end);
  }

  lemma {:induction false} FirstLine(input: string, pos: nat, end: nat)
    requires pos < |input| && pos <= end <= |input| && end == pos + UpTo(input[pos..], '\n')
    ensures Lines(input[pos..]) == [input[pos..end]] + Lines(input[if end < |input| then end + 1 else end..])
  {
    var next := if end < |input| then end + 1 else end;
    OneLineFirst(input[pos..], end - pos, next - pos);
    assert input[pos..][..end - pos] == input[pos..end] by { DropTwice(input, pos, end - pos); }
    assert input[pos..][next - pos..] == input[next..] by { DropTwice(input, pos, next - pos); }
  }

  lemma {:induction false} OneLineFirst(s: string, n: nat, next: nat)
    requires s != "" && n == UpTo(s, '\n') && next == if n < |s| then n + 1 else n
    ensures Lines(s) == [s[..n]] + Lines(s[next..])
  {
    if n == |s| {
      WithNothing(s);
    }
  }

  lemma WithNothing(s: string)
    ensures s[..|s|] == s && [s] + Lines(s[|s|..]) == [s]
  {
    assert s[|s|..] == "";
  }

  lemma AddLinesOfMore(max: nat, l: string, ls: seq<string>)
    ensures AddLines(max, [l] + ls) == AddLine(max, l) + AddLines(max, ls)
  {
    assert ([l] + ls)[1..] == ls;
  }

  method BreakStringIntoLines(input: string, max: nat) returns (result: seq<string>)
    ensures result == BreakIntoLines(max, input)
  {
    result := [];
    var pos := 0;
    assert input[0..] == input;
    while pos < |input|
      invariant pos <= |input|
      invariant BreakIntoLines(max, input) == result + AddLines(max, Lines(input[pos..]))
    {
      var line, next := NextLine(input, pos);
      AddLinesOfMore(max, line, Lines(input[next..]));
      var lines := WrapLine(max, line);
      Regroup(result, lines, AddLines(max, Lines(input[next..])));
      result := result + lines;
      pos := next;
    }
  }
}
