/**
 Python values, their printed form, and what `normalize_quotes_to_json` makes of it:
 the JSON text of the same value, exactly when no string holds a control character
 that Python prints as `\xHH`. Printers write a value followed by the rest of the
 text, so that no proof has to regroup concatenations.
 */
module PyValues {
  import opened Options
  import opened PyQuotes
  import opened PyStreaming
  import J = JsonText

  datatype PyValue =
    | PyNone
    | PyBool(b: bool)
    | PyNum(text: string)
    | PyStr(s: string, quote: Mode)
    | PyList(items: seq<PyValue>)
    | PyDict(entries: seq<PyEntry>)

  datatype PyEntry = PyEntry(key: string, quote: Mode, value: PyValue)

  function ToJson(v: PyValue): J.Json {
    match v
    case PyNone => J.Null
    case PyBool(b) => J.Bool(b)
    case PyNum(text) => J.Num(text)
    case PyStr(s, _) => J.Str(s)
    case PyList(items) => J.Arr(seq(|items|, i requires 0 <= i < |items| => ToJson(items[i])))
    case PyDict(entries) =>
      J.Obj(seq(|entries|, i requires 0 <= i < |entries| => J.Member(entries[i].key, ToJson(entries[i].value))))
  }

  /** Numbers are JSON numbers and quotes are quotes. */
  ghost predicate WellFormed(v: PyValue) {
    match v
    case PyNum(text) => J.IsNumber(text)
    case PyStr(_, q) => q != Outside
    case PyList(items) => forall i | 0 <= i < |items| :: WellFormed(items[i])
    case PyDict(entries) => forall i | 0 <= i < |entries| :: entries[i].quote != Outside && WellFormed(entries[i].value)
    case _ => true
  }

  // ----- printing -----

  function QuoteChar(q: Mode): char {
    if q == Single then '\'' else '"'
  }

  /** Characters Python prints as `\xHH`. */
  predicate IsHexEscaped(c: char) {
    (c < ' ' && c !in "\n\r\t") || c as int == 127
  }

  function HexEscape(c: char): string
    requires c as int < 256
  {
    "\\x" + [J.HexDigit(c as int / 16), J.HexDigit(c as int % 16)]
  }

  /** A character inside a string delimited by `q`, as Python prints it. */
  function PyChar(c: char, q: char): string {
    if c == '\\' then "\\\\"
    else if c == q then ['\\', c]
    else if c == '\n' then "\\n"
    else if c == '\r' then "\\r"
    else if c == '\t' then "\\t"
    else if IsHexEscaped(c) then HexEscape(c)
    else [c]
  }

  function PyEscape(s: string, q: char, rest: string): string {
    if s == "" then rest else PyChar(s[0], q) + PyEscape(s[1..], q, rest)
  }

  function PyString(s: string, q: Mode, rest: string): string {
    [QuoteChar(q)] + PyEscape(s, QuoteChar(q), [QuoteChar(q)] + rest)
  }

  /** The text of a value followed by `rest`, with `sp` after every comma and colon. */
  function PyPrint(v: PyValue, sp: string, rest: string): string
    decreases v, 1
  {
    match v
    case PyNone => "None" + rest
    case PyBool(b) => if b then "True" + rest else "False" + rest
    case PyNum(text) => text + rest
    case PyStr(s, q) => PyString(s, q, rest)
    case PyList(items) => "[" + PyItems(items, sp, "]" + rest)
    case PyDict(entries) => "{" + PyEntries(entries, sp, "}" + rest)
  }

  function PyItems(items: seq<PyValue>, sp: string, rest: string): string
    decreases items, 0
  {
    if |items| == 0 then rest
    else if |items| == 1 then PyPrint(items[0], sp, rest)
    else PyPrint(items[0], sp, "," + (sp + PyItems(items[1..], sp, rest)))
  }

  function PyEntryText(e: PyEntry, sp: string, rest: string): string
    decreases e, 2
  {
    PyString(e.key, e.quote, ":" + (sp + PyPrint(e.value, sp, rest)))
  }

  function PyEntries(entries: seq<PyEntry>, sp: string, rest: string): string
    decreases entries, 0
  {
    if |entries| == 0 then rest
    else if |entries| == 1 then PyEntryText(entries[0], sp, rest)
    else PyEntryText(entries[0], sp, "," + (sp + PyEntries(entries[1..], sp, rest)))
  }

  // ----- what the translation of the printed form is -----

  function OutChar(c: char): string {
    if c == '\\' then "\\\\"
    else if c == '"' then "\\\""
    else if c == '\n' then "\\n"
    else if c == '\r' then "\\r"
    else if c == '\t' then "\\t"
    else if IsHexEscaped(c) then HexEscape(c)
    else [c]
  }

  function OutEscape(s: string, rest: string): string {
    if s == "" then rest else OutChar(s[0]) + OutEscape(s[1..], rest)
  }

  function OutString(s: string, rest: string): string {
    "\"" + OutEscape(s, "\"" + rest)
  }

  function Out(v: PyValue, sp: string, rest: string): string
    decreases v, 1
  {
    match v
    case PyNone => "null" + rest
    case PyBool(b) => if b then "true" + rest else "false" + rest
    case PyNum(text) => text + rest
    case PyStr(s, _) => OutString(s, rest)
    case PyList(items) => "[" + OutItems(items, sp, "]" + rest)
    case PyDict(entries) => "{" + OutEntries(entries, sp, "}" + rest)
  }

  function OutItems(items: seq<PyValue>, sp: string, rest: string): string
    decreases items, 0
  {
    if |items| == 0 then rest
    else if |items| == 1 then Out(items[0], sp, rest)
    else Out(items[0], sp, "," + (sp + OutItems(items[1..], sp, rest)))
  }

  function OutEntry(e: PyEntry, sp: string, rest: string): string
    decreases e, 2
  {
    OutString(e.key, ":" + (sp + Out(e.value, sp, rest)))
  }

  function OutEntries(entries: seq<PyEntry>, sp: string, rest: string): string
    decreases entries, 0
  {
    if |entries| == 0 then rest
    else if |entries| == 1 then OutEntry(entries[0], sp, rest)
    else OutEntry(entries[0], sp, "," + (sp + OutEntries(entries[1..], sp, rest)))
  }

  // ----- the structural argument -----

  /** Every word that looks like a literal while reading `s` is (the beginning of) one. */
  ghost predicate WordsKnown(s: string, m: Mode, afterWord: bool)
    decreases |s|
  {
    s == "" ||
    (var r := StepOf(s, m, afterWord);
     && (StartsLiteral(s, m, afterWord) ==> Literal(s[..WordRun(s)]).Some?)
     && WordsKnown(s[r.n..], r.mode, IsWordChar(s[r.n - 1])))
  }

  ghost predicate Translates(s: string, m: Mode, afterWord: bool, out: string) {
    Normalize(s, m, afterWord) == out && WordsKnown(s, m, afterWord)
  }

  lemma {:induction false} StepTranslates(s: string, m: Mode, afterWord: bool, r: Step, t: string, out: string)
    requires s != "" && StepOf(s, m, afterWord) == r && s[r.n..] == t
    requires StartsLiteral(s, m, afterWord) ==> Literal(s[..WordRun(s)]).Some?
    requires Translates(t, r.mode, IsWordChar(s[r.n - 1]), out)
    ensures Translates(s, m, afterWord, r.out + out)
  {
    Take(s, m, afterWord, r, t);
  }

  lemma {:induction false} CharTranslates(c: char, t: string, m: Mode, afterWord: bool, m': Mode, o: string, out: string)
    requires c != '\\' && !StartsLiteral([c], m, afterWord)
    requires StepOf([c], m, afterWord) == Step(o, 1, m')
    requires Translates(t, m', IsWordChar(c), out)
    ensures Translates([c] + t, m, afterWord, o + out)
  {
    assert ([c] + t)[1..] == t;
    StepTranslates([c] + t, m, afterWord, Step(o, 1, m'), t, out);
  }

  lemma {:induction false} EscapeTranslates(d: char, t: string, m: Mode, afterWord: bool, o: string, out: string)
    requires m != Outside && StepOf(['\\', d], m, afterWord) == Step(o, 2, m)
    requires Translates(t, m, IsWordChar(d), out)
    ensures Translates(['\\', d] + t, m, afterWord, o + out)
  {
    assert (['\\', d] + t)[2..] == t;
    StepTranslates(['\\', d] + t, m, afterWord, Step(o, 2, m), t, out);
  }

  /** Inside a string, and before a closing character, the character just read does not matter. */
  lemma {:induction false} AnyBefore(t: string, m: Mode, b: bool, b': bool, out: string)
    requires m != Outside || t == "" || t[0] !in "TFN"
    requires Translates(t, m, b, out)
    ensures Translates(t, m, b', out)
  {
    if t != "" {
      assert StepOf(t, m, b) == StepOf(t, m, b');
    }
  }

  lemma {:induction false} PyCharTranslates(c: char, q: Mode, t: string, b: bool, out: string)
    requires q != Outside && Translates(t, q, false, out)
    ensures Translates(PyChar(c, QuoteChar(q)) + t, q, b, OutChar(c) + out)
  {
    var p := PyChar(c, QuoteChar(q));
    AnyBefore(t, q, false, true, out);
    if p == [c] {
      PlainStep(c, q, b);
      CharTranslates(c, t, q, b, q, OutChar(c), out);
    } else if |p| == 2 {
      EscapedStep(c, q, b);
      EscapeTranslates(p[1], t, q, b, OutChar(c), out);
    } else {
      HexChar(c, q);
      HexTranslates(c, q, t, b, out);
    }
  }

  lemma PlainStep(c: char, q: Mode, b: bool)
    requires q != Outside && PyChar(c, QuoteChar(q)) == [c]
    ensures c != '\\' && StepOf([c], q, b) == Step(OutChar(c), 1, q)
  {
  }

  lemma EscapedStep(c: char, q: Mode, b: bool)
    requires q != Outside && |PyChar(c, QuoteChar(q))| == 2
    ensures PyChar(c, QuoteChar(q)) == ['\\', PyChar(c, QuoteChar(q))[1]]
    ensures StepOf(PyChar(c, QuoteChar(q)), q, b) == Step(OutChar(c), 2, q)
  {
  }

  lemma HexChar(c: char, q: Mode)
    requires q != Outside && PyChar(c, QuoteChar(q)) != [c] && |PyChar(c, QuoteChar(q))| != 2
    ensures c as int < 256 && PyChar(c, QuoteChar(q)) == HexEscape(c) == OutChar(c)
  {
  }

  lemma {:induction false} HexTranslates(c: char, q: Mode, t: string, b: bool, out: string)
    requires q != Outside && c as int < 256 && Translates(t, q, true, out)
    ensures Translates(HexEscape(c) + t, q, b, HexEscape(c) + out)
  {
    var h, l := J.HexDigit(c as int / 16), J.HexDigit(c as int % 16);
    HexDigitIsPlain(c as int / 16);
    HexDigitIsPlain(c as int % 16);
    CharTranslates(l, t, q, true, q, [l], out);
    CharTranslates(h, [l] + t, q, true, q, [h], [l] + out);
    EscapeTranslates('x', [h] + ([l] + t), q, b, ['\\', 'x'], [h] + ([l] + out));
    HexAppend(c, t);
    HexAppend(c, out);
  }

  lemma HexAppend(c: char, t: string)
    requires c as int < 256
    ensures HexEscape(c) + t == ['\\', 'x'] + ([J.HexDigit(c as int / 16)] + ([J.HexDigit(c as int % 16)] + t))
  {
  }

  lemma HexDigitIsPlain(n: nat)
    requires n < 16
    ensures IsWordChar(J.HexDigit(n))
  {
    J.HexValueOfDigit(n);
  }

  lemma {:induction false} PyEscapeTranslates(s: string, q: Mode, rest: string, b: bool, out: string)
    requires q != Outside && Translates(rest, Outside, false, out)
    ensures Translates(PyEscape(s, QuoteChar(q), [QuoteChar(q)] + rest), q, b, OutEscape(s, "\"" + out))
  {
    if s == "" {
      CharTranslates(QuoteChar(q), rest, q, b, Outside, "\"", out);
    } else {
      PyEscapeTranslates(s[1..], q, rest, false, out);
      PyCharTranslates(s[0], q, PyEscape(s[1..], QuoteChar(q), [QuoteChar(q)] + rest), b, OutEscape(s[1..], "\"" + out));
    }
  }

  lemma {:induction false} PyStringTranslates(s: string, q: Mode, rest: string, out: string)
    requires q != Outside && Translates(rest, Outside, false, out)
    ensures Translates(PyString(s, q, rest), Outside, false, OutString(s, out))
  {
    PyEscapeTranslates(s, q, rest, false, out);
    CharTranslates(QuoteChar(q), PyEscape(s, QuoteChar(q), [QuoteChar(q)] + rest), Outside, false, q,
                   "\"", OutEscape(s, "\"" + out));
  }

  lemma Uncons(a: string, t: string)
    requires a != ""
    ensures a + t == [a[0]] + (a[1..] + t)
  {
  }

  /** A value can end before `rest`. */
  predicate Closes(rest: string) {
    rest == "" || rest[0] in ",]}"
  }

  lemma {:induction false} NumberTranslates(text: string, rest: string, b: bool, out: string)
    requires forall c <- text :: J.IsNumberChar(c)
    requires Closes(rest) && Translates(rest, Outside, false, out)
    ensures Translates(text + rest, Outside, b, text + out)
  {
    if text == "" {
      assert text + rest == rest && text + out == out;
      AnyBefore(rest, Outside, false, b, out);
    } else {
      assert text[0] in text && J.IsNumberChar(text[0]);
      NumberTranslates(text[1..], rest, IsWordChar(text[0]), out);
      CharTranslates(text[0], text[1..] + rest, Outside, b, Outside, [text[0]], text[1..] + out);
      Uncons(text, rest);
      Uncons(text, out);
    }
  }

  lemma {:induction false} SpaceTranslates(sp: string, rest: string, out: string)
    requires J.AllSpace(sp) && Translates(rest, Outside, false, out)
    ensures Translates(sp + rest, Outside, false, sp + out)
  {
    if sp == "" {
      assert sp + rest == rest && sp + out == out;
    } else {
      assert sp[0] in sp && J.IsSpace(sp[0]);
      SpaceTranslates(sp[1..], rest, out);
      CharTranslates(sp[0], sp[1..] + rest, Outside, false, Outside, [sp[0]], sp[1..] + out);
      Uncons(sp, rest);
      Uncons(sp, out);
    }
  }

  /** A separator and the space after it. */
  lemma {:induction false} SeparatorTranslates(c: char, sp: string, rest: string, out: string)
    requires c in ",:" && J.AllSpace(sp) && Translates(rest, Outside, false, out)
    ensures Translates([c] + (sp + rest), Outside, false, [c] + (sp + out))
  {
    SpaceTranslates(sp, rest, out);
    CharTranslates(c, sp + rest, Outside, false, Outside, [c], sp + out);
  }

  lemma {:induction false} LiteralTranslates(k: nat, rest: string, out: string)
    requires k < |LITERALS|
    requires Closes(rest) && Translates(rest, Outside, false, out)
    ensures Translates(LITERALS[k].0 + rest, Outside, false, LITERALS[k].1 + out)
  {
    var py, js := LITERALS[k].0, LITERALS[k].1;
    AnyBefore(rest, Outside, false, true, out);
    LiteralFound(k);
    LiteralWord(k, rest);
    var s := py + rest;
    assert s[0] == py[0] && s[|py| - 1] == py[|py| - 1];
    StepTranslates(s, Outside, false, Step(js, |py|, Outside), rest, out);
  }

  lemma LiteralWord(k: nat, rest: string)
    requires k < |LITERALS| && Closes(rest)
    ensures var s := LITERALS[k].0 + rest;
            var n := |LITERALS[k].0|;
            WordRun(s) == n && s[..n] == LITERALS[k].0 && s[n..] == rest
  {
    LiteralFound(k);
    WordRunAppend(LITERALS[k].0, rest);
  }

  lemma LiteralFound(k: nat)
    requires k < |LITERALS|
    ensures var py := LITERALS[k].0;
            Literal(py) == Some(LITERALS[k].1) && WordRun(py) == |py| &&
            py != "" && py[0] in "TFN" && IsWordChar(py[|py| - 1])
  {
    var py := LITERALS[k].0;
    assert IsWord(py);
    WordRunOf(py);
    if k == 0 {
      assert "true"[..4] == "true";
    } else if k == 1 {
      assert Literal("False") == Literal("False", 1);
      assert "false"[..5] == "false";
    } else {
      assert Literal("None") == Literal("None", 1) == Literal("None", 2);
      assert "null"[..4] == "null";
    }
  }

  predicate IsWord(w: string) {
    forall i | 0 <= i < |w| :: IsWordChar(w[i])
  }

  lemma {:induction false} WordRunOf(w: string)
    requires IsWord(w)
    ensures WordRun(w) == |w|
  {
    if w != "" {
      WordRunOf(w[1..]);
    }
  }

  /** The translation of a printed value, followed by anything that can follow a value. */
  lemma {:induction false} ValueTranslates(v: PyValue, sp: string, rest: string, out: string)
    requires WellFormed(v) && J.AllSpace(sp)
    requires Closes(rest) && Translates(rest, Outside, false, out)
    ensures Translates(PyPrint(v, sp, rest), Outside, false, Out(v, sp, out))
    decreases v, 1
  {
    match v
    case PyNone => LiteralTranslates(2, rest, out);
    case PyBool(b) =>
      if b {
        LiteralTranslates(0, rest, out);
      } else {
        LiteralTranslates(1, rest, out);
      }
    case PyNum(text) => NumberTranslates(text, rest, false, out);
    case PyStr(s, q) => PyStringTranslates(s, q, rest, out);
    case PyList(items) =>
      CharTranslates(']', rest, Outside, false, Outside, "]", out);
      ItemsTranslate(items, sp, "]" + rest, "]" + out);
      CharTranslates('[', PyItems(items, sp, "]" + rest), Outside, false, Outside, "[", OutItems(items, sp, "]" + out));
    case PyDict(entries) =>
      CharTranslates('}', rest, Outside, false, Outside, "}", out);
      EntriesTranslate(entries, sp, "}" + rest, "}" + out);
      CharTranslates('{', PyEntries(entries, sp, "}" + rest), Outside, false, Outside, "{", OutEntries(entries, sp, "}" + out));
  }

  lemma {:induction false} ItemsTranslate(items: seq<PyValue>, sp: string, rest: string, out: string)
    requires forall i | 0 <= i < |items| :: WellFormed(items[i])
    requires J.AllSpace(sp) && Closes(rest) && Translates(rest, Outside, false, out)
    ensures Translates(PyItems(items, sp, rest), Outside, false, OutItems(items, sp, out))
    decreases items, 0
  {
    if |items| == 1 {
      ValueTranslates(items[0], sp, rest, out);
    } else if |items| > 1 {
      ItemsTranslate(items[1..], sp, rest, out);
      SeparatorTranslates(',', sp, PyItems(items[1..], sp, rest), OutItems(items[1..], sp, out));
      ValueTranslates(items[0], sp, "," + (sp + PyItems(items[1..], sp, rest)), "," + (sp + OutItems(items[1..], sp, out)));
    }
  }

  lemma {:induction false} EntryTranslates(e: PyEntry, sp: string, rest: string, out: string)
    requires e.quote != Outside && WellFormed(e.value)
    requires J.AllSpace(sp) && Closes(rest) && Translates(rest, Outside, false, out)
    ensures Translates(PyEntryText(e, sp, rest), Outside, false, OutEntry(e, sp, out))
    decreases e, 2
  {
    ValueTranslates(e.value, sp, rest, out);
    SeparatorTranslates(':', sp, PyPrint(e.value, sp, rest), Out(e.value, sp, out));
    PyStringTranslates(e.key, e.quote, ":" + (sp + PyPrint(e.value, sp, rest)), ":" + (sp + Out(e.value, sp, out)));
  }

  lemma {:induction false} EntriesTranslate(entries: seq<PyEntry>, sp: string, rest: string, out: string)
    requires forall i | 0 <= i < |entries| :: entries[i].quote != Outside && WellFormed(entries[i].value)
    requires J.AllSpace(sp) && Closes(rest) && Translates(rest, Outside, false, out)
    ensures Translates(PyEntries(entries, sp, rest), Outside, false, OutEntries(entries, sp, out))
    decreases entries, 0
  {
    if |entries| == 1 {
      EntryTranslates(entries[0], sp, rest, out);
    } else if |entries| > 1 {
      EntriesTranslate(entries[1..], sp, rest, out);
      SeparatorTranslates(',', sp, PyEntries(entries[1..], sp, rest), OutEntries(entries[1..], sp, out));
      EntryTranslates(entries[0], sp, "," + (sp + PyEntries(entries[1..], sp, rest)), "," + (sp + OutEntries(entries[1..], sp, out)));
    }
  }
}
