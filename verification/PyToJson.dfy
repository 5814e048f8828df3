/** Printed Python values: when their translation is the JSON text of the same value, and can be streamed. */
module PyToJson {
  import opened Options
  import opened PyQuotes
  import opened PyStreaming
  import opened PyValues
  import J = JsonText

  predicate CleanText(s: string) {
    forall i | 0 <= i < |s| :: !IsHexEscaped(s[i])
  }

  /** No string of the value holds a character that Python prints as `\xHH`. */
  predicate Clean(v: PyValue) {
    match v
    case PyStr(s, _) => CleanText(s)
    case PyList(items) => forall i | 0 <= i < |items| :: Clean(items[i])
    case PyDict(entries) => forall i | 0 <= i < |entries| :: CleanText(entries[i].key) && Clean(entries[i].value)
    case _ => true
  }

  lemma {:induction false} JsonIsWellFormed(v: PyValue)
    requires WellFormed(v)
    ensures J.WellFormed(ToJson(v))
  {
    match v
    case PyList(items) =>
      forall i | 0 <= i < |items| ensures J.WellFormed(ToJson(items[i])) {
        JsonIsWellFormed(items[i]);
      }
    case PyDict(entries) =>
      forall i | 0 <= i < |entries| ensures J.WellFormed(ToJson(entries[i].value)) {
        JsonIsWellFormed(entries[i].value);
      }
    case _ =>
  }

  // ----- clean values -----

  lemma {:induction false} CleanString(s: string, rest: string)
    requires CleanText(s)
    ensures OutEscape(s, rest) == J.Escape(s, rest)
  {
    if s != "" {
      CleanString(s[1..], rest);
      assert OutChar(s[0]) == J.EscapeChar(s[0]);
    }
  }

  function JsonItems(items: seq<PyValue>): seq<J.Json> {
    seq(|items|, i requires 0 <= i < |items| => ToJson(items[i]))
  }

  function JsonMembers(entries: seq<PyEntry>): seq<J.Member> {
    seq(|entries|, i requires 0 <= i < |entries| => J.Member(entries[i].key, ToJson(entries[i].value)))
  }

  /** For a clean value the translation is the JSON printing, character for character. */
  lemma {:induction false} CleanOut(v: PyValue, sp: string, rest: string)
    requires Clean(v)
    ensures Out(v, sp, rest) == J.Print(ToJson(v), sp, rest)
    decreases v, 1
  {
    match v
    case PyStr(s, _) => CleanString(s, "\"" + rest);
    case PyList(items) =>
      CleanItems(items, sp, "]" + rest);
      assert ToJson(v) == J.Arr(JsonItems(items));
    case PyDict(entries) =>
      CleanEntries(entries, sp, "}" + rest);
      assert ToJson(v) == J.Obj(JsonMembers(entries));
    case _ =>
  }

  lemma {:induction false} CleanItems(items: seq<PyValue>, sp: string, rest: string)
    requires forall i | 0 <= i < |items| :: Clean(items[i])
    ensures OutItems(items, sp, rest) == J.PrintItems(JsonItems(items), sp, rest)
    decreases items, 0
  {
    if items != [] {
      CleanItems(items[1..], sp, rest);
      assert JsonItems(items)[1..] == JsonItems(items[1..]);
      CleanOut(items[0], sp, if |items| == 1 then rest else "," + (sp + OutItems(items[1..], sp, rest)));
    }
  }

  lemma {:induction false} CleanEntry(e: PyEntry, sp: string, rest: string)
    requires CleanText(e.key) && Clean(e.value)
    ensures OutEntry(e, sp, rest) == J.PrintMember(J.Member(e.key, ToJson(e.value)), sp, rest)
    decreases e, 2
  {
    CleanOut(e.value, sp, rest);
    CleanString(e.key, "\"" + (":" + (sp + Out(e.value, sp, rest))));
  }

  lemma {:induction false} CleanEntries(entries: seq<PyEntry>, sp: string, rest: string)
    requires forall i | 0 <= i < |entries| :: CleanText(entries[i].key) && Clean(entries[i].value)
    ensures OutEntries(entries, sp, rest) == J.PrintMembers(JsonMembers(entries), sp, rest)
    decreases entries, 0
  {
    if entries != [] {
      CleanEntries(entries[1..], sp, rest);
      assert JsonMembers(entries)[1..] == JsonMembers(entries[1..]);
      CleanEntry(entries[0], sp, if |entries| == 1 then rest else "," + (sp + OutEntries(entries[1..], sp, rest)));
    }
  }

  // ----- other values -----

  lemma {:induction false} DirtyString(s: string, rest: string)
    requires !CleanText(s)
    ensures J.ReadString(OutEscape(s, rest)).None?
  {
    var t := OutEscape(s[1..], rest);
    if IsHexEscaped(s[0]) {
      assert (HexEscape(s[0]) + t)[1] == 'x';
    } else {
      DirtyString(s[1..], rest);
      assert OutChar(s[0]) == J.EscapeChar(s[0]);
      J.ReadEscapedChar(s[0], t);
    }
  }

  /** The translation of a value that is not clean cannot be read as JSON. */
  lemma {:induction false} DirtyOut(v: PyValue, sp: string, rest: string)
    requires WellFormed(v) && J.AllSpace(sp) && !Clean(v)
    ensures J.ReadValue(Out(v, sp, rest)).None?
    decreases v, 1
  {
    match v
    case PyStr(s, _) =>
      DirtyString(s, "\"" + rest);
      NoString(OutEscape(s, "\"" + rest));
    case PyList(items) =>
      DirtyItems(items, sp, "]" + rest);
      NoList(OutItems(items, sp, "]" + rest));
    case PyDict(entries) =>
      DirtyEntries(entries, sp, "}" + rest);
      NoObject(OutEntries(entries, sp, "}" + rest));
    case _ =>
  }

  lemma NoList(t: string)
    requires t != "" && t[0] != ']' && J.SkipSpace(t) == t && J.ReadItems(t).None?
    ensures J.ReadValue("[" + t).None?
  {
    var s := "[" + t;
    assert s[0] == '[' && s[1..] == t;
    assert J.SkipSpace(s[1..]) == t;
  }

  lemma NoObject(t: string)
    requires t != "" && t[0] != '}' && J.SkipSpace(t) == t && J.ReadMembers(t).None?
    ensures J.ReadValue("{" + t).None?
  {
    var s := "{" + t;
    assert s[0] == '{' && s[1..] == t;
    assert J.SkipSpace(s[1..]) == t;
  }

  lemma NoString(t: string)
    requires J.ReadString(t).None?
    ensures J.ReadValue("\"" + t).None?
  {
    assert ("\"" + t)[1..] == t;
  }

  lemma OutStarts(v: PyValue, sp: string, rest: string)
    requires WellFormed(v)
    ensures var p := Out(v, sp, rest);
            p != "" && !J.IsSpace(p[0]) && p[0] !in "]},:"
  {
  }

  lemma {:induction false} DirtyItems(items: seq<PyValue>, sp: string, rest: string)
    requires forall i | 0 <= i < |items| :: WellFormed(items[i])
    requires !(forall i | 0 <= i < |items| :: Clean(items[i]))
    requires J.AllSpace(sp) && rest != "" && rest[0] == ']'
    ensures var t := OutItems(items, sp, rest);
            t != "" && t[0] != ']' && J.SkipSpace(t) == t && J.ReadItems(t).None?
    decreases items, 0
  {
    var t := OutItems(items, sp, rest);
    var after := if |items| == 1 then rest else "," + (sp + OutItems(items[1..], sp, rest));
    OutStarts(items[0], sp, after);
    if !Clean(items[0]) {
      DirtyOut(items[0], sp, after);
    } else {
      var more := OutItems(items[1..], sp, rest);
      DirtyItems(items[1..], sp, rest);
      CleanOut(items[0], sp, after);
      JsonIsWellFormed(items[0]);
      J.ReadPrinted(ToJson(items[0]), sp, after);
      J.ReadItem(t, ToJson(items[0]), after);
      assert after[1..] == sp + more;
      OutStarts(items[1], sp, if |items| == 2 then rest else "," + (sp + OutItems(items[2..], sp, rest)));
      J.SkipSpaces(sp, more);
    }
  }

  /** Reading stops at a member whose key or value is not clean. */
  lemma {:induction false} DirtyEntry(e: PyEntry, sp: string, rest: string)
    requires WellFormed(e.value) && J.AllSpace(sp) && !(CleanText(e.key) && Clean(e.value))
    ensures J.ReadMembers(OutEntry(e, sp, rest)).None?
    decreases e, 2
  {
    var value := Out(e.value, sp, rest);
    var colon := ":" + (sp + value);
    var t := OutEscape(e.key, "\"" + colon);
    assert ("\"" + t)[1..] == t;
    if !CleanText(e.key) {
      DirtyString(e.key, "\"" + colon);
    } else {
      DirtyOut(e.value, sp, rest);
      CleanString(e.key, "\"" + colon);
      J.ReadEscaped(e.key, colon);
      assert colon[1..] == sp + value;
      OutStarts(e.value, sp, rest);
      J.SkipSpaces(sp, value);
    }
  }

  lemma {:induction false} DirtyEntries(entries: seq<PyEntry>, sp: string, rest: string)
    requires forall i | 0 <= i < |entries| :: WellFormed(entries[i].value)
    requires !(forall i | 0 <= i < |entries| :: CleanText(entries[i].key) && Clean(entries[i].value))
    requires J.AllSpace(sp) && rest != "" && rest[0] == '}'
    ensures var t := OutEntries(entries, sp, rest);
            t != "" && t[0] == '"' && J.SkipSpace(t) == t && J.ReadMembers(t).None?
    decreases entries, 0
  {
    var e := entries[0];
    var more := OutEntries(entries[1..], sp, rest);
    var after := if |entries| == 1 then rest else "," + (sp + more);
    assert OutEntries(entries, sp, rest) == OutEntry(e, sp, after);
    if !(CleanText(e.key) && Clean(e.value)) {
      DirtyEntry(e, sp, after);
    } else {
      DirtyEntries(entries[1..], sp, rest);
      CleanEntry(e, sp, after);
      JsonIsWellFormed(e.value);
      var m := J.Member(e.key, ToJson(e.value));
      J.ReadPrinted(m.value, sp, after);
      J.ReadPrintedMember(m, sp, after);
      assert after[1..] == sp + more;
      J.SkipSpaces(sp, more);
    }
  }

  // ----- the promises -----

  /**
   The translated text of a printed value is read back, as JSON, to the same value
   if and only if the value is clean; and then it is the JSON printing of the value.
   */
  lemma TranslationIsJson(v: PyValue, sp: string)
    requires WellFormed(v) && J.AllSpace(sp)
    ensures var text := Normalize(PyPrint(v, sp, ""), Outside, false);
            (J.ReadValue(text) == Some((ToJson(v), "")) <==> Clean(v)) &&
            (Clean(v) ==> text == J.Print(ToJson(v), sp, ""))
  {
    ValueTranslates(v, sp, "", "");
    if Clean(v) {
      CleanOut(v, sp, "");
      JsonIsWellFormed(v);
      J.ReadPrinted(ToJson(v), sp, "");
    } else {
      DirtyOut(v, sp, "");
    }
  }

  /** A string with a vertical tab is printed `'\x0b'` and translated to text JSON cannot read. */
  lemma VerticalTabIsNotJson()
    ensures var v := PyStr([11 as char], Single);
            J.ReadValue(Normalize(PyPrint(v, "", ""), Outside, false)).None?
  {
    var v := PyStr([11 as char], Single);
    assert IsHexEscaped(v.s[0]);
    ValueTranslates(v, "", "", "");
    DirtyOut(v, "", "");
  }

  lemma {:induction false} KnownWordsNeverChange(p: string, q: string, m: Mode, afterWord: bool)
    requires WordsKnown(p + q, m, afterWord)
    ensures PendingOf(p, m, afterWord).OpenWord? ==> Safe(PendingOf(p, m, afterWord), q)
    decreases |p|
  {
    if p == "" || p == "\\" {
    } else if IsOpenWord(p, m, afterWord) {
      OpenWordIsKnown(p, q, m, afterWord);
    } else {
      var r := StepOf(p, m, afterWord);
      SameStep(p, q, m, afterWord);
      DropStep(p, q, r.n);
      KnownWordsNeverChange(p[r.n..], q, r.mode, IsWordChar(p[r.n - 1]));
    }
  }

  lemma DropStep(p: string, q: string, n: nat)
    requires 1 <= n <= |p|
    ensures (p + q)[n..] == p[n..] + q && (p + q)[n - 1] == p[n - 1]
  {
  }

  lemma OpenWordIsKnown(p: string, q: string, m: Mode, afterWord: bool)
    requires p != "" && IsOpenWord(p, m, afterWord) && WordsKnown(p + q, m, afterWord)
    ensures Safe(PendingOf(p, m, afterWord), q)
  {
    WordRunAppend(p, q);
    assert (p + q)[..WordRun(p + q)] == p + q[..WordRun(q)];
    assert (p + q)[0] == p[0];
  }

  /**
   Streaming a printed value: cutting its text anywhere, even inside a literal,
   gives a prefix of the final translation unless the cut separates a backslash
   from a single quote inside a single-quoted string.
   */
  lemma {:induction false} StreamedTranslationIsPrefix(v: PyValue, sp: string, k: nat)
    requires WellFormed(v) && J.AllSpace(sp)
    requires k <= |PyPrint(v, sp, "")|
    ensures var text := PyPrint(v, sp, "");
            Normalize(text[..k], Outside, false) <= Normalize(text, Outside, false)
            <==> !(PendingOf(text[..k], Outside, false) == Dangling(Single) && k < |text| && text[k] == '\'')
  {
    var text := PyPrint(v, sp, "");
    ValueTranslates(v, sp, "", "");
    KnownWordsCut(text, k);
  }

  /** A text whose words are all literals, cut anywhere. */
  lemma {:induction false} KnownWordsCut(text: string, k: nat)
    requires WordsKnown(text, Outside, false) && k <= |text|
    ensures Normalize(text[..k], Outside, false) <= Normalize(text, Outside, false)
            <==> !(PendingOf(text[..k], Outside, false) == Dangling(Single) && k < |text| && text[k] == '\'')
  {
    assert text[..k] + text[k..] == text;
    CutIsPrefix(text[..k], text[k..], Outside, false);
    KnownWordsNeverChange(text[..k], text[k..], Outside, false);
  }
}
