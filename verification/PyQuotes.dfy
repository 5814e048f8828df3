/**
 `normalize_quotes_to_json`: the automaton that rewrites Python-style values as
 JSON text. The specification is a function on the text still to be read; the
 method is the loop of the source.
 */
module PyQuotes {
  import opened Options
  import opened Sequences

  datatype Mode = Outside | Single | Double

  /** One turn of the loop: what it writes, how many characters it reads, the mode after. */
  datatype Step = Step(out: string, n: nat, mode: Mode)

  predicate IsWordChar(c: char) {
    'a' <= c <= 'z' || 'A' <= c <= 'Z' || '0' <= c <= '9' || c == '_'
  }

  function WordRun(s: string): (n: nat)
    ensures n <= |s|
  {
    if s != "" && IsWordChar(s[0]) then 1 + WordRun(s[1..]) else 0
  }

  const LITERALS: seq<(string, string)> := [("True", "true"), ("False", "false"), ("None", "null")]

  /** The JSON spelling of a possibly incomplete Python literal, looked up from entry `k` on. */
  function Literal(token: string, k: nat := 0): (r: Option<string>)
    requires k <= |LITERALS|
    decreases |LITERALS| - k
  {
    if k == |LITERALS| then None
    else if token <= LITERALS[k].0 then
      assert |LITERALS[k].0| == |LITERALS[k].1|;
      Some(LITERALS[k].1[..|token|])
    else Literal(token, k + 1)
  }

  predicate StartsLiteral(s: string, m: Mode, afterWord: bool)
    requires s != ""
  {
    m == Outside && s[0] in "TFN" && !afterWord
  }

  function StepOf(s: string, m: Mode, afterWord: bool): (r: Step)
    requires s != ""
    ensures 1 <= r.n <= |s|
  {
    if s[0] == '\\' && |s| > 1 then EscapeStep(s[1], m)
    else if s[0] == '"' then
      match m
      case Single => Step("\\\"", 1, m)
      case Double => Step("\"", 1, Outside)
      case Outside => Step("\"", 1, Double)
    else if s[0] == '\'' then
      match m
      case Double => Step("'", 1, m)
      case Single => Step("\"", 1, Outside)
      case Outside => Step("\"", 1, Single)
    else if StartsLiteral(s, m, afterWord) then WordStep(s)
    else Step([s[0]], 1, m)
  }

  /** A backslash before `next`. */
  function EscapeStep(next: char, m: Mode): Step {
    match m
    case Single =>
      if next == '\'' then Step("'", 2, m)
      else if next == '"' then Step("\\\"", 2, m)
      else Step(['\\', next], 2, m)
    case Double => Step(['\\', next], 2, m)
    case Outside => Step("\\", 1, m)
  }

  /** A word outside strings: a literal is written in JSON's notation. */
  function WordStep(s: string): (r: Step)
    requires s != "" && IsWordChar(s[0])
    ensures 1 <= r.n <= |s|
  {
    var n := WordRun(s);
    match Literal(s[..n])
    case Some(js) => Step(js, n, Outside)
    case None => Step([s[0]], 1, Outside)
  }

  /**
   The translation of the remaining text `s`, read in mode `m`; `afterWord` says
   whether the character before it is a word character.
   */
  function Normalize(s: string, m: Mode, afterWord: bool): string
    decreases |s|
  {
    if s == "" then ""
    else
      var r := StepOf(s, m, afterWord);
      r.out + Normalize(s[r.n..], r.mode, IsWordChar(s[r.n - 1]))
  }

  function ModeOf(inSingle: bool, inDouble: bool): Mode {
    if inSingle then Single else if inDouble then Double else Outside
  }

  predicate AfterWord(input: string, i: nat)
    requires i <= |input|
  {
    i > 0 && IsWordChar(input[i - 1])
  }

  /** The translation of what follows position `i`. */
  ghost function From(input: string, i: nat, m: Mode): string
    requires i <= |input|
  {
    Normalize(input[i..], m, AfterWord(input, i))
  }

  lemma {:induction false} Unfold(input: string, i: nat, m: Mode, r: Step)
    requires i < |input|
    requires r == StepOf(input[i..], m, AfterWord(input, i))
    ensures From(input, i, m) == r.out + From(input, i + r.n, r.mode)
  {
    assert input[i..][r.n..] == input[i + r.n..];
    assert input[i..][r.n - 1] == input[i + r.n - 1];
  }

  lemma Append(whole: string, a: string, b: string, x: string, y: string)
    requires whole == a + x && x == b + y
    ensures whole == (a + b) + y
  {
  }

  method NormalizeQuotesToJson(input: string) returns (result: string)
    ensures result == Normalize(input, Outside, false)
  {
    result := "";
    var inSingle, inDouble := false, false;
    var i := 0;
    ghost var todo := From(input, 0, Outside);
    assert input[0..] == input;
    while i < |input|
      invariant 0 <= i <= |input|
      invariant !(inSingle && inDouble)
      invariant Normalize(input, Outside, false) == result + todo
      invariant todo == From(input, i, ModeOf(inSingle, inDouble))
    {
      var out, n;
      out, n, inSingle, inDouble := Turn(input, i, inSingle, inDouble);
      ghost var before := todo;
      todo := From(input, i + n, ModeOf(inSingle, inDouble));
      Append(Normalize(input, Outside, false), result, out, before, todo);
      result := result + out;
      i := i + n;
    }
    NothingLeft(input, result, ModeOf(inSingle, inDouble));
  }

  lemma NothingLeft(input: string, result: string, m: Mode)
    ensures result + From(input, |input|, m) == result
  {
    assert input[|input|..] == "";
  }

  method Turn(input: string, i: nat, inSingle: bool, inDouble: bool)
    returns (out: string, n: nat, inSingle': bool, inDouble': bool)
    requires i < |input| && !(inSingle && inDouble)
    ensures 1 <= n <= |input| - i && !(inSingle' && inDouble')
    ensures From(input, i, ModeOf(inSingle, inDouble)) == out + From(input, i + n, ModeOf(inSingle', inDouble'))
  {
    out, n, inSingle', inDouble' := OneStep(input, i, inSingle, inDouble);
    Unfold(input, i, ModeOf(inSingle, inDouble), Step(out, n, ModeOf(inSingle', inDouble')));
  }

  method Backslash(next: char, inSingle: bool, inDouble: bool) returns (out: string, n: nat)
    ensures Step(out, n, ModeOf(inSingle, inDouble)) == EscapeStep(next, ModeOf(inSingle, inDouble))
  {
    out, n := "\\", 1;
    if inSingle {
      n := 2;
      if next == '\'' {
        out := "'";
      } else if next == '"' {
        out := "\\\"";
      } else {
        out := ['\\', next];
      }
    } else if inDouble {
      n := 2;
      out := ['\\', next];
    }
  }

  /** At a word that may be a literal. */
  method Word(input: string, i: nat) returns (out: string, n: nat)
    requires i < |input| && IsWordChar(input[i])
    ensures n <= |input| - i && Step(out, n, Outside) == WordStep(input[i..])
  {
    var run := ScanWord(input, i);
    assert input[i..][..run] == input[i..i + run];
    var literal := Literal(input[i..i + run]);
    if literal.Some? {
      return literal.value, run;
    }
    return [input[i]], 1;
  }

  method OneStep(input: string, i: nat, inSingle: bool, inDouble: bool)
    returns (out: string, n: nat, inSingle': bool, inDouble': bool)
    requires i < |input| && !(inSingle && inDouble)
    ensures 1 <= n <= |input| - i && !(inSingle' && inDouble')
    ensures Step(out, n, ModeOf(inSingle', inDouble')) == StepOf(input[i..], ModeOf(inSingle, inDouble), AfterWord(input, i))
  {
    var c := input[i];
    out, n, inSingle', inDouble' := [c], 1, inSingle, inDouble;
    if c == '\\' && i + 1 < |input| {
      out, n := Backslash(input[i + 1], inSingle, inDouble);
      assert input[i..][1] == input[i + 1];
    } else if c == '"' {
      if inSingle {
        out := "\\\"";
      } else {
        inDouble' := !inDouble;
      }
    } else if c == '\'' {
      if inSingle {
        inSingle' := false;
        out := "\"";
      } else if !inDouble {
        inSingle' := true;
        out := "\"";
      }
    } else if !inSingle && !inDouble && (c == 'T' || c == 'F' || c == 'N') && (i == 0 || !IsWordChar(input[i - 1])) {
      out, n := Word(input, i);
    }
  }

  method ScanWord(input: string, i: nat) returns (n: nat)
    requires i < |input|
    ensures n == WordRun(input[i..])
  {
    n := 0;
    while i + n < |input| && IsWordChar(input[i + n])
      invariant i + n <= |input|
      invariant n + WordRun(input[i + n..]) == WordRun(input[i..])
    {
      assert input[i + n..][1..] == input[i + n + 1..];
      n := n + 1;
    }
  }

  // ----- translating twice changes nothing more -----

  function Image(m: Mode): Mode {
    if m == Outside then Outside else Double
  }

  lemma {:induction false} LiteralIsLower(token: string)
    requires token != "" && Literal(token).Some?
    ensures var js := Literal(token).value;
            js[0] in "tfn" && IsPlain(js)
  {
    if token <= LITERALS[0].0 {
      assert Literal(token).value == "true"[..|token|];
    } else if token <= LITERALS[1].0 {
      assert Literal(token).value == "false"[..|token|];
    } else {
      assert Literal(token, 1) == Literal(token, 2);
      assert Literal(token).value == "null"[..|token|];
    }
  }

  /** Word characters none of which can begin a literal. */
  predicate IsPlain(s: string) {
    forall c <- s :: IsWordChar(c) && c !in "TFN"
  }

  /** A step whose output is `o` and which leaves `t` to be read, in mode `m'`. */
  lemma {:induction false} Take(s: string, m: Mode, afterWord: bool, r: Step, t: string)
    requires s != "" && StepOf(s, m, afterWord) == r && s[r.n..] == t
    ensures Normalize(s, m, afterWord) == r.out + Normalize(t, r.mode, IsWordChar(s[r.n - 1]))
  {
  }

  lemma {:induction false} WordRunKept(s: string)
    ensures var t := Normalize(s, Outside, true);
            WordRun(t) == WordRun(s) && t[..WordRun(t)] == s[..WordRun(s)]
    decreases |s|
  {
    if s != "" && IsWordChar(s[0]) {
      WordRunKept(s[1..]);
      var t := Normalize(s[1..], Outside, true);
      Take(s, Outside, true, Step([s[0]], 1, Outside), s[1..]);
      WordRunStep(s[0], t);
      WordRunStep(s[0], s[1..]);
      assert [s[0]] + s[1..] == s;
    }
  }

  lemma WordRunStep(c: char, t: string)
    requires IsWordChar(c)
    ensures var u := [c] + t;
            WordRun(u) == 1 + WordRun(t) && u[..WordRun(u)] == [c] + t[..WordRun(t)]
  {
    assert ([c] + t)[1..] == t;
  }

  lemma PlainPasses(a: string, b: string, afterWord: bool)
    requires IsPlain(a)
    ensures Normalize(a + b, Outside, afterWord) ==
            a + Normalize(b, Outside, if a == "" then afterWord else true)
  {
    if a == "" {
      assert a + b == b;
    } else {
      PlainPasses(a[1..], b, true);
      PlainPass(a, b, afterWord, Normalize(b, Outside, true));
    }
  }

  lemma {:induction false} PlainPass(a: string, b: string, afterWord: bool, x: string)
    requires a != "" && IsPlain(a)
    requires Normalize(a[1..] + b, Outside, true) == a[1..] + x
    ensures Normalize(a + b, Outside, afterWord) == a + x
  {
    assert (a + b)[1..] == a[1..] + b;
    assert a[0] in a && (a + b)[0] == a[0];
    Take(a + b, Outside, afterWord, Step([a[0]], 1, Outside), a[1..] + b);
    assert a + x == [a[0]] + (a[1..] + x);
  }

  lemma {:induction false} WordRunChars(s: string)
    ensures forall i | 0 <= i < WordRun(s) :: IsWordChar(s[i])
    ensures WordRun(s) < |s| ==> !IsWordChar(s[WordRun(s)])
  {
    if s != "" && IsWordChar(s[0]) {
      WordRunChars(s[1..]);
    }
  }

  lemma {:induction false} UnmatchedAgain(s: string)
    requires s != "" && s[0] in "TFN" && Literal(s[..WordRun(s)]).None?
    ensures var u := [s[0]] + Normalize(s[1..], Outside, true);
            Literal(u[..WordRun(u)]).None?
  {
    WordRunKept(s[1..]);
    WordRunStep(s[0], Normalize(s[1..], Outside, true));
    WordRunStep(s[0], s[1..]);
    assert [s[0]] + s[1..] == s;
  }

  /** The step of a matched literal: its output is copied unchanged by a second run. */
  predicate WritesLiteral(r: Step, m: Mode, afterWord: bool, after: bool) {
    m == Outside && r.mode == Outside && !afterWord && after && r.out != "" && IsPlain(r.out)
  }

  /** The second run reads the output of the step, before `t`, in one step that copies it. */
  predicate Repeats(r: Step, m: Mode, afterWord: bool, after: bool, t: string) {
    r.out != "" &&
    StepOf(r.out + t, Image(m), afterWord) == Step(r.out, |r.out|, Image(r.mode)) &&
    IsWordChar(r.out[|r.out| - 1]) == after
  }

  lemma {:induction false} LiteralStep(s: string, m: Mode, afterWord: bool)
    requires s != "" && StartsLiteral(s, m, afterWord) && Literal(s[..WordRun(s)]).Some?
    ensures var r := StepOf(s, m, afterWord);
            WritesLiteral(r, m, afterWord, IsWordChar(s[r.n - 1]))
  {
    LiteralIsLower(s[..WordRun(s)]);
    WordRunChars(s);
  }

  /** Any other step of the first run is repeated by the second. */
  /** `t` is the translation of what follows the first step. */
  predicate Follows(s: string, m: Mode, afterWord: bool, t: string)
    requires s != ""
  {
    var r := StepOf(s, m, afterWord);
    t == Normalize(s[r.n..], r.mode, IsWordChar(s[r.n - 1]))
  }

  predicate StepRepeats(s: string, m: Mode, afterWord: bool, t: string)
    requires s != ""
  {
    var r := StepOf(s, m, afterWord);
    Repeats(r, m, afterWord, IsWordChar(s[r.n - 1]), t)
  }

  lemma {:induction false} StepAgain(s: string, m: Mode, afterWord: bool, t: string)
    requires s != ""
    requires StartsLiteral(s, m, afterWord) ==> Literal(s[..WordRun(s)]).None?
    requires Follows(s, m, afterWord, t)
    ensures StepRepeats(s, m, afterWord, t)
  {
    if StartsLiteral(s, m, afterWord) {
      WordAgain(s, t);
    } else {
      PlainAgain(s, m, afterWord, t);
    }
  }

  lemma {:induction false} WordAgain(s: string, t: string)
    requires s != "" && s[0] in "TFN" && Literal(s[..WordRun(s)]).None?
    requires t == Normalize(s[1..], Outside, true)
    ensures Repeats(Step([s[0]], 1, Outside), Outside, false, true, t)
  {
    UnmatchedAgain(s);
    var u := [s[0]] + t;
    assert u[0] == s[0];
  }

  lemma {:induction false} PlainAgain(s: string, m: Mode, afterWord: bool, t: string)
    requires s != "" && !StartsLiteral(s, m, afterWord)
    requires Follows(s, m, afterWord, t)
    ensures StepRepeats(s, m, afterWord, t)
  {
    match m
    case Single => SingleAgain(s, afterWord, t);
    case Double => DoubleAgain(s, afterWord, t);
    case Outside => OutsideAgain(s, afterWord, t);
  }

  lemma {:induction false} OutsideAgain(s: string, afterWord: bool, t: string)
    requires s != "" && !StartsLiteral(s, Outside, afterWord)
    requires Follows(s, Outside, afterWord, t)
    ensures StepRepeats(s, Outside, afterWord, t)
  {
    var r := StepOf(s, Outside, afterWord);
    assert (r.out + t)[0] == r.out[0];
  }

  /** Inside a single-quoted string, which the second run reads as double-quoted. */
  lemma {:induction false} SingleAgain(s: string, afterWord: bool, t: string)
    requires s != ""
    requires Follows(s, Single, afterWord, t)
    ensures StepRepeats(s, Single, afterWord, t)
  {
    var r := StepOf(s, Single, afterWord);
    assert (r.out + t)[0] == r.out[0];
    if s[0] == '\\' && |s| > 1 {
      EscapeAgain(s, afterWord, t);
    }
  }

  lemma {:induction false} EscapeAgain(s: string, afterWord: bool, t: string)
    requires |s| > 1 && s[0] == '\\'
    ensures var r := StepOf(s, Single, afterWord);
            Repeats(r, Single, afterWord, IsWordChar(s[1]), t)
  {
    var r := StepOf(s, Single, afterWord);
    var u := r.out + t;
    assert u[0] == r.out[0];
    if s[1] != '\'' {
      assert u[1] == r.out[1];
    }
  }

  lemma {:induction false} DoubleAgain(s: string, afterWord: bool, t: string)
    requires s != ""
    requires Follows(s, Double, afterWord, t)
    ensures StepRepeats(s, Double, afterWord, t)
  {
    var r := StepOf(s, Double, afterWord);
    var u := r.out + t;
    assert u[0] == r.out[0] == s[0];
    if s[0] == '\\' && |s| > 1 {
      assert u[1] == s[1];
    }
  }

  lemma {:induction false} SecondStep(s: string, m: Mode, afterWord: bool, r: Step, t: string)
    requires s != "" && r == StepOf(s, m, afterWord)
    requires t == Normalize(s[r.n..], r.mode, IsWordChar(s[r.n - 1]))
    ensures var after := IsWordChar(s[r.n - 1]);
            WritesLiteral(r, m, afterWord, after) || Repeats(r, m, afterWord, after, t)
  {
    if StartsLiteral(s, m, afterWord) && Literal(s[..WordRun(s)]).Some? {
      LiteralStep(s, m, afterWord);
    } else {
      StepAgain(s, m, afterWord, t);
    }
  }

  lemma {:induction false} RunAgain(r: Step, m: Mode, afterWord: bool, after: bool, t: string)
    requires WritesLiteral(r, m, afterWord, after) || Repeats(r, m, afterWord, after, t)
    requires Normalize(t, Image(r.mode), after) == t
    ensures Normalize(r.out + t, Image(m), afterWord) == r.out + t
  {
    if WritesLiteral(r, m, afterWord, after) {
      PlainPasses(r.out, t, afterWord);
    } else {
      RepeatAgain(r, m, afterWord, after, t);
    }
  }

  lemma {:induction false} RepeatAgain(r: Step, m: Mode, afterWord: bool, after: bool, t: string)
    requires Repeats(r, m, afterWord, after, t)
    requires Normalize(t, Image(r.mode), after) == t
    ensures Normalize(r.out + t, Image(m), afterWord) == r.out + t
  {
    CopyStep(r.out, t, Image(m), afterWord, Image(r.mode));
  }

  lemma {:induction false} CopyStep(o: string, t: string, m: Mode, afterWord: bool, m': Mode)
    requires o != "" && StepOf(o + t, m, afterWord) == Step(o, |o|, m')
    ensures Normalize(o + t, m, afterWord) == o + Normalize(t, m', IsWordChar(o[|o| - 1]))
  {
    Parts(o, t);
    assert IsWordChar((o + t)[|o| - 1]) == IsWordChar(o[|o| - 1]);
    Take(o + t, m, afterWord, Step(o, |o|, m'), t);
  }

  /** A second translation of any text, whatever state the first one started in, is the identity. */
  lemma {:induction false} Idempotent(s: string, m: Mode, afterWord: bool)
    ensures var t := Normalize(s, m, afterWord);
            Normalize(t, Image(m), afterWord) == t
    decreases |s|
  {
    if s != "" {
      var r := StepOf(s, m, afterWord);
      var after := IsWordChar(s[r.n - 1]);
      var t := Normalize(s[r.n..], r.mode, after);
      Idempotent(s[r.n..], r.mode, after);
      SecondStep(s, m, afterWord, r, t);
      RunAgain(r, m, afterWord, after, t);
      Take(s, m, afterWord, r, s[r.n..]);
    }
  }
}
