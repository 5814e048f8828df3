/**
 JSON values, the text `ordered_json::dump` writes for them, and an independent
 reader for JSON text (RFC 8259). The other modules state "this text is the JSON
 of that value" against this printer and this reader. The printer takes the space
 written after separators, and the text that follows the value, as arguments; the
 reader returns the text it has not read.
 */
module JsonText {
  import opened Sequences
  import opened Options

  datatype Json =
    | Null
    | Bool(b: bool)
    | Num(text: string)
    | Str(s: string)
    | Arr(items: seq<Json>)
    | Obj(members: seq<Member>)

  datatype Member = Member(key: string, value: Json)

  // ----- strings (RFC 8259 section 7) -----

  function HexDigit(n: nat): char
    requires n < 16
  {
    "0123456789abcdef"[n]
  }

  /** The value of a hexadecimal digit; 16 for any other character. */
  function HexValue(c: char): (n: nat)
    ensures n <= 16
  {
    if '0' <= c <= '9' then c as int - '0' as int
    else if 'a' <= c <= 'f' then c as int - 'a' as int + 10
    else if 'A' <= c <= 'F' then c as int - 'A' as int + 10
    else 16
  }

  function EscapeChar(c: char): string {
    if c == '"' then "\\\""
    else if c == '\\' then "\\\\"
    else if c == '\n' then "\\n"
    else if c == '\r' then "\\r"
    else if c == '\t' then "\\t"
    else if c as int == 8 then "\\b"
    else if c as int == 12 then "\\f"
    else if c < ' ' then "\\u00" + [HexDigit(c as int / 16), HexDigit(c as int % 16)]
    else [c]
  }

  /** The escaped content of a string, followed by `rest`. */
  function Escape(s: string, rest: string): string {
    if s == "" then rest else EscapeChar(s[0]) + Escape(s[1..], rest)
  }

  /** `ordered_json(s).dump()`, followed by `rest`. */
  function Dump(s: string, rest: string): string {
    "\"" + Escape(s, "\"" + rest)
  }

  /** Reads what follows a backslash: the character meant and the remaining text. */
  function ReadEscape(s: string): (r: Option<(char, string)>)
    ensures r.Some? ==> |r.value.1| < |s|
  {
    if s == "" then None
    else if s[0] in "\"\\/" then Some((s[0], s[1..]))
    else if s[0] == 'n' then Some(('\n', s[1..]))
    else if s[0] == 'r' then Some(('\r', s[1..]))
    else if s[0] == 't' then Some(('\t', s[1..]))
    else if s[0] == 'b' then Some((8 as char, s[1..]))
    else if s[0] == 'f' then Some((12 as char, s[1..]))
    else if s[0] == 'u' && |s| >= 5 && s[1] == '0' && s[2] == '0' && HexValue(s[3]) < 8 && HexValue(s[4]) < 16 then
      Some(((HexValue(s[3]) * 16 + HexValue(s[4])) as char, s[5..]))
    else None
  }

  /** Reads string content up to and including the closing quote. */
  function ReadString(s: string): (r: Option<(string, string)>)
    ensures r.Some? ==> |r.value.1| < |s|
    decreases |s|
  {
    if s == "" then None
    else if s[0] == '"' then Some(("", s[1..]))
    else if s[0] == '\\' then
      var e :- ReadEscape(s[1..]);
      var r :- ReadString(e.1);
      Some(([e.0] + r.0, r.1))
    else if s[0] < ' ' then None
    else
      var r :- ReadString(s[1..]);
      Some(([s[0]] + r.0, r.1))
  }

  // ----- numbers (RFC 8259 section 6) -----

  predicate IsDigit(c: char) {
    '0' <= c <= '9'
  }

  predicate IsNumberChar(c: char) {
    IsDigit(c) || c in "-+.eE"
  }

  function DigitRun(s: string): (n: nat)
    ensures n <= |s|
  {
    if s != "" && IsDigit(s[0]) then 1 + DigitRun(s[1..]) else 0
  }

  function NumberRun(s: string): (n: nat)
    ensures n <= |s|
  {
    if s != "" && IsNumberChar(s[0]) then 1 + NumberRun(s[1..]) else 0
  }

  predicate IsExponent(s: string) {
    s == "" ||
    (s[0] in "eE" &&
     var t := if |s| > 1 && s[1] in "+-" then s[2..] else s[1..];
     t != "" && DigitRun(t) == |t|)
  }

  predicate IsFraction(s: string) {
    if s != "" && s[0] == '.' then
      var n := DigitRun(s[1..]);
      n > 0 && IsExponent(s[1 + n..])
    else IsExponent(s)
  }

  predicate IsNumber(t: string) {
    var u := if t != "" && t[0] == '-' then t[1..] else t;
    && (forall c <- t :: IsNumberChar(c))
    && u != "" && IsDigit(u[0])
    && IsFraction(if u[0] == '0' then u[1..] else u[DigitRun(u)..])
  }

  // ----- values -----

  predicate IsSpace(c: char) {
    c in " \t\n\r"
  }

  function SkipSpace(s: string): (r: string)
    ensures |r| <= |s|
  {
    if s != "" && IsSpace(s[0]) then SkipSpace(s[1..]) else s
  }

  /**
   The text of a value followed by `rest`, with `sp` written after every comma
   and colon; `Print(v, "", "")` is `v.dump()`.
   */
  function Print(v: Json, sp: string, rest: string): string
    decreases v, 1
  {
    match v
    case Null => "null" + rest
    case Bool(b) => if b then "true" + rest else "false" + rest
    case Num(text) => text + rest
    case Str(s) => Dump(s, rest)
    case Arr(items) => "[" + PrintItems(items, sp, "]" + rest)
    case Obj(members) => "{" + PrintMembers(members, sp, "}" + rest)
  }

  function PrintItems(items: seq<Json>, sp: string, rest: string): string
    decreases items, 0
  {
    if |items| == 0 then rest
    else if |items| == 1 then Print(items[0], sp, rest)
    else Print(items[0], sp, "," + (sp + PrintItems(items[1..], sp, rest)))
  }

  function PrintMember(m: Member, sp: string, rest: string): string
    decreases m, 2
  {
    Dump(m.key, ":" + (sp + Print(m.value, sp, rest)))
  }

  function PrintMembers(members: seq<Member>, sp: string, rest: string): string
    decreases members, 0
  {
    if |members| == 0 then rest
    else if |members| == 1 then PrintMember(members[0], sp, rest)
    else PrintMember(members[0], sp, "," + (sp + PrintMembers(members[1..], sp, rest)))
  }

  function ReadValue(s: string): (r: Option<(Json, string)>)
    ensures r.Some? ==> |r.value.1| < |s|
    decreases |s|, 0
  {
    if s == "" then None
    else if "null" <= s then Some((Null, s[4..]))
    else if "true" <= s then Some((Bool(true), s[4..]))
    else if "false" <= s then Some((Bool(false), s[5..]))
    else if s[0] == '"' then
      var r :- ReadString(s[1..]);
      Some((Str(r.0), r.1))
    else if s[0] == '[' then
      var t := SkipSpace(s[1..]);
      if t != "" && t[0] == ']' then Some((Arr([]), t[1..]))
      else
        var r :- ReadItems(t);
        Some((Arr(r.0), r.1))
    else if s[0] == '{' then
      var t := SkipSpace(s[1..]);
      if t != "" && t[0] == '}' then Some((Obj([]), t[1..]))
      else
        var r :- ReadMembers(t);
        Some((Obj(r.0), r.1))
    else
      var n := NumberRun(s);
      if IsNumber(s[..n]) then Some((Num(s[..n]), s[n..])) else None
  }

  function ReadItems(s: string): (r: Option<(seq<Json>, string)>)
    ensures r.Some? ==> |r.value.1| < |s|
    decreases |s|, 1
  {
    var v :- ReadValue(s);
    var t := SkipSpace(v.1);
    if t == "" then None
    else if t[0] == ']' then Some(([v.0], t[1..]))
    else if t[0] == ',' then
      var r :- ReadItems(SkipSpace(t[1..]));
      Some(([v.0] + r.0, r.1))
    else None
  }

  function ReadMembers(s: string): (r: Option<(seq<Member>, string)>)
    ensures r.Some? ==> |r.value.1| < |s|
    decreases |s|, 1
  {
    if s == "" || s[0] != '"' then None
    else
      var k :- ReadString(s[1..]);
      var c := SkipSpace(k.1);
      if c == "" || c[0] != ':' then None
      else
        var v :- ReadValue(SkipSpace(c[1..]));
        var t := SkipSpace(v.1);
        if t == "" then None
        else if t[0] == '}' then Some(([Member(k.0, v.0)], t[1..]))
        else if t[0] == ',' then
          var r :- ReadMembers(SkipSpace(t[1..]));
          Some(([Member(k.0, v.0)] + r.0, r.1))
        else None
  }

  /** Number texts are numbers; every other value is unrestricted. */
  ghost predicate WellFormed(v: Json) {
    match v
    case Num(text) => IsNumber(text)
    case Arr(items) => forall i | 0 <= i < |items| :: WellFormed(items[i])
    case Obj(members) => forall i | 0 <= i < |members| :: WellFormed(members[i].value)
    case _ => true
  }

  ghost predicate AllSpace(sp: string) {
    forall c <- sp :: IsSpace(c)
  }

  /** `rest` cannot be mistaken for the continuation of a number. */
  ghost predicate Ends(rest: string) {
    rest == "" || !IsNumberChar(rest[0])
  }

  // ----- reading undoes printing -----

  lemma {:induction false} ReadEscapedChar(c: char, t: string)
    ensures ReadString(EscapeChar(c) + t) ==
            (var r :- ReadString(t); Some(([c] + r.0, r.1)))
  {
    var e := EscapeChar(c);
    if e == [c] {
      assert (e + t)[1..] == t;
    } else if |e| == 2 {
      assert (e + t)[1..] == [e[1]] + t;
      assert ([e[1]] + t)[1..] == t;
    } else {
      var h, l := c as int / 16, c as int % 16;
      assert (e + t)[1..] == ['u', '0', '0', HexDigit(h), HexDigit(l)] + t;
      assert (['u', '0', '0', HexDigit(h), HexDigit(l)] + t)[5..] == t;
      HexValueOfDigit(h);
      HexValueOfDigit(l);
    }
  }

  lemma HexValueOfDigit(n: nat)
    requires n < 16
    ensures HexValue(HexDigit(n)) == n
  {
    if n < 10 {
      assert HexDigit(n) == "0123456789"[n];
    } else {
      assert HexDigit(n) == "abcdef"[n - 10];
    }
  }

  lemma {:induction false} ReadEscaped(s: string, rest: string)
    ensures ReadString(Escape(s, "\"" + rest)) == Some((s, rest))
  {
    if s == "" {
      assert ("\"" + rest)[1..] == rest;
    } else {
      ReadEscaped(s[1..], rest);
      ReadEscapedChar(s[0], Escape(s[1..], "\"" + rest));
      assert [s[0]] + s[1..] == s;
    }
  }

  lemma {:induction false} NumberRunStops(t: string, rest: string)
    requires forall c <- t :: IsNumberChar(c)
    requires Ends(rest)
    ensures NumberRun(t + rest) == |t|
  {
    if t == "" {
      assert t + rest == rest;
    } else {
      assert (t + rest)[1..] == t[1..] + rest;
      NumberRunStops(t[1..], rest);
    }
  }

  lemma {:induction false} SkipSpaces(sp: string, t: string)
    requires AllSpace(sp)
    requires t != "" && !IsSpace(t[0])
    ensures SkipSpace(sp + t) == t
  {
    if sp == "" {
      assert sp + t == t;
    } else {
      assert (sp + t)[1..] == sp[1..] + t;
      SkipSpaces(sp[1..], t);
    }
  }

  /** The first character of a printed value is never space, a closing bracket or a separator. */
  lemma PrintStarts(v: Json, sp: string, rest: string)
    requires WellFormed(v)
    ensures var p := Print(v, sp, rest);
            p != "" && !IsSpace(p[0]) && p[0] !in "]},:"
  {
  }

  /** Reading the printed text of any value gives the value back and leaves the rest unread. */
  lemma {:induction false} ReadPrinted(v: Json, sp: string, rest: string)
    requires WellFormed(v) && AllSpace(sp) && Ends(rest)
    ensures ReadValue(Print(v, sp, rest)) == Some((v, rest))
    decreases v, 1
  {
    match v
    case Null => ReadPrintedScalar(v, sp, rest);
    case Bool(_) => ReadPrintedScalar(v, sp, rest);
    case Num(text) => ReadPrintedNumber(text, sp, rest);
    case Str(str) => ReadPrintedString(str, sp, rest);
    case Arr(items) => ReadPrintedArray(items, sp, rest);
    case Obj(members) => ReadPrintedObject(members, sp, rest);
  }

  lemma ReadPrintedScalar(v: Json, sp: string, rest: string)
    requires v.Null? || v.Bool?
    ensures ReadValue(Print(v, sp, rest)) == Some((v, rest))
  {
    match v
    case Null => assert ("null" + rest)[4..] == rest;
    case Bool(b) =>
      if b {
        assert ("true" + rest)[0] == 't' && ("true" + rest)[4..] == rest;
      } else {
        assert ("false" + rest)[0] == 'f' && ("false" + rest)[5..] == rest;
      }
  }

  lemma ReadPrintedNumber(text: string, sp: string, rest: string)
    requires IsNumber(text) && Ends(rest)
    ensures ReadValue(Print(Num(text), sp, rest)) == Some((Num(text), rest))
  {
    NumberRunStops(text, rest);
    assert (text + rest)[..|text|] == text && (text + rest)[|text|..] == rest;
    assert (text + rest)[0] == text[0];
  }

  lemma {:induction false} ReadPrintedString(str: string, sp: string, rest: string)
    ensures ReadValue(Print(Str(str), sp, rest)) == Some((Str(str), rest))
  {
    ReadEscaped(str, rest);
    var u := Escape(str, "\"" + rest);
    assert ("\"" + u)[1..] == u && ("\"" + u)[0] == '"';
  }

  lemma {:induction false} ReadPrintedArray(items: seq<Json>, sp: string, rest: string)
    requires AllSpace(sp)
    requires forall i | 0 <= i < |items| :: WellFormed(items[i])
    ensures ReadValue(Print(Arr(items), sp, rest)) == Some((Arr(items), rest))
    decreases items, 1
  {
    var t := PrintItems(items, sp, "]" + rest);
    assert ("[" + t)[1..] == t;
    if items == [] {
      assert t[1..] == rest;
    } else {
      ReadPrintedItems(items, sp, rest);
      ReadPrintedItemsStart(items, sp, "]" + rest);
    }
  }

  lemma ReadPrintedItemsStart(items: seq<Json>, sp: string, rest: string)
    requires items != [] && WellFormed(items[0])
    ensures var t := PrintItems(items, sp, rest);
            SkipSpace(t) == t && t != "" && !IsSpace(t[0]) && t[0] != ']'
  {
    PrintStarts(items[0], sp, if |items| == 1 then rest else "," + (sp + PrintItems(items[1..], sp, rest)));
  }

  lemma {:induction false} ReadPrintedItems(items: seq<Json>, sp: string, rest: string)
    requires items != [] && AllSpace(sp)
    requires forall i | 0 <= i < |items| :: WellFormed(items[i])
    ensures ReadItems(PrintItems(items, sp, "]" + rest)) == Some((items, rest))
    decreases items, 0
  {
    if |items| == 1 {
      ReadPrinted(items[0], sp, "]" + rest);
      ReadLastItem(items[0], sp, rest);
      assert [items[0]] == items;
    } else {
      var more := PrintItems(items[1..], sp, "]" + rest);
      var after := "," + (sp + more);
      ReadPrinted(items[0], sp, after);
      ReadPrintedItemsStart(items[1..], sp, "]" + rest);
      ReadPrintedItems(items[1..], sp, rest);
      ReadNextItem(PrintItems(items, sp, "]" + rest), items[0], sp, more);
      assert [items[0]] + items[1..] == items;
    }
  }

  lemma ReadNextItem(t: string, v: Json, sp: string, more: string)
    requires AllSpace(sp) && more != "" && !IsSpace(more[0])
    requires ReadValue(t) == Some((v, "," + (sp + more)))
    ensures ReadItems(t) == (var r :- ReadItems(more); Some(([v] + r.0, r.1)))
  {
    var after := "," + (sp + more);
    ReadItem(t, v, after);
    assert after[1..] == sp + more;
    SkipSpaces(sp, more);
  }

  lemma ReadLastItem(v: Json, sp: string, rest: string)
    requires ReadValue(Print(v, sp, "]" + rest)) == Some((v, "]" + rest))
    ensures ReadItems(PrintItems([v], sp, "]" + rest)) == Some(([v], rest))
  {
    ReadItem(PrintItems([v], sp, "]" + rest), v, "]" + rest);
    assert ("]" + rest)[1..] == rest;
  }

  lemma {:induction false} ReadItem(t: string, v: Json, after: string)
    requires ReadValue(t) == Some((v, after))
    requires after != "" && !IsSpace(after[0])
    ensures ReadItems(t) ==
            if after[0] == ']' then Some(([v], after[1..]))
            else if after[0] == ',' then
              (var r :- ReadItems(SkipSpace(after[1..])); Some(([v] + r.0, r.1)))
            else None
  {
    assert SkipSpace(after) == after;
  }

  lemma {:induction false} ReadPrintedObject(members: seq<Member>, sp: string, rest: string)
    requires AllSpace(sp)
    requires forall i | 0 <= i < |members| :: WellFormed(members[i].value)
    ensures ReadValue(Print(Obj(members), sp, rest)) == Some((Obj(members), rest))
    decreases members, 1
  {
    var t := PrintMembers(members, sp, "}" + rest);
    assert ("{" + t)[1..] == t;
    if members == [] {
      assert t[1..] == rest;
    } else {
      ReadPrintedMembers(members, sp, rest);
      PrintMembersStart(members, sp, "}" + rest);
    }
  }

  lemma PrintMembersStart(members: seq<Member>, sp: string, rest: string)
    requires members != []
    ensures var t := PrintMembers(members, sp, rest);
            t != "" && t[0] == '"'
  {
    var m := members[0];
    assert |PrintMember(m, sp, rest)| > 0;
  }

  lemma {:induction false} ReadPrintedMembers(members: seq<Member>, sp: string, rest: string)
    requires members != [] && AllSpace(sp)
    requires forall i | 0 <= i < |members| :: WellFormed(members[i].value)
    ensures ReadMembers(PrintMembers(members, sp, "}" + rest)) == Some((members, rest))
    decreases members, 0
  {
    var m := members[0];
    if |members| == 1 {
      var after := "}" + rest;
      ReadPrinted(m.value, sp, after);
      ReadPrintedMember(m, sp, after);
      assert after[1..] == rest;
      assert [m] == members;
    } else {
      var more := PrintMembers(members[1..], sp, "}" + rest);
      var after := "," + (sp + more);
      ReadPrinted(m.value, sp, after);
      ReadPrintedMember(m, sp, after);
      assert after[1..] == sp + more;
      PrintMembersStart(members[1..], sp, "}" + rest);
      SkipSpaces(sp, more);
      ReadPrintedMembers(members[1..], sp, rest);
      assert [m] + members[1..] == members;
    }
  }

  lemma {:induction false} ReadPrintedMember(m: Member, sp: string, after: string)
    requires AllSpace(sp) && WellFormed(m.value)
    requires ReadValue(Print(m.value, sp, after)) == Some((m.value, after))
    requires after != "" && !IsSpace(after[0])
    ensures ReadMembers(PrintMember(m, sp, after)) ==
            if after[0] == '}' then Some(([m], after[1..]))
            else if after[0] == ',' then
              (var r :- ReadMembers(SkipSpace(after[1..])); Some(([m] + r.0, r.1)))
            else None
  {
    var value := Print(m.value, sp, after);
    var colon := ":" + (sp + value);
    ReadEscaped(m.key, colon);
    assert colon[1..] == sp + value;
    PrintStarts(m.value, sp, after);
    SkipSpaces(sp, value);
    ReadMember(PrintMember(m, sp, after), m, colon, after);
  }

  lemma {:induction false} ReadMember(t: string, m: Member, colon: string, after: string)
    requires t != "" && t[0] == '"' && ReadString(t[1..]) == Some((m.key, colon))
    requires colon != "" && colon[0] == ':'
    requires ReadValue(SkipSpace(colon[1..])) == Some((m.value, after))
    requires after != "" && !IsSpace(after[0])
    ensures ReadMembers(t) ==
            if after[0] == '}' then Some(([m], after[1..]))
            else if after[0] == ',' then
              (var r :- ReadMembers(SkipSpace(after[1..])); Some(([m] + r.0, r.1)))
            else None
  {
    assert SkipSpace(colon) == colon;
    assert SkipSpace(after) == after;
  }

  // ----- what follows a printed value is simply appended -----

  lemma {:induction false} EscapeAppend(s: string, a: string, b: string)
    ensures Escape(s, a + b) == Escape(s, a) + b
  {
    if s != "" {
      EscapeAppend(s[1..], a, b);
      Regroup(EscapeChar(s[0]), Escape(s[1..], a), b);
    }
  }

  /** A beginning of a string is escaped to a beginning of the escaped string. */
  lemma {:induction false} EscapePrefix(a: string, b: string)
    requires a <= b
    ensures Escape(a, "") <= Escape(b, "")
  {
    if a != "" {
      EscapePrefix(a[1..], b[1..]);
      PrefixAfter(EscapeChar(a[0]), Escape(a[1..], ""), Escape(b[1..], ""));
    }
  }

  lemma {:induction false} DumpAppend(s: string, a: string, b: string)
    ensures Dump(s, a + b) == Dump(s, a) + b
  {
    Regroup("\"", a, b);
    EscapeAppend(s, "\"" + a, b);
    Regroup("\"", Escape(s, "\"" + a), b);
  }

  lemma {:induction false} PrintAppend(v: Json, sp: string, a: string, b: string)
    ensures Print(v, sp, a + b) == Print(v, sp, a) + b
    decreases v, 1
  {
    match v
    case Null => Regroup("null", a, b);
    case Bool(x) => Regroup(if x then "true" else "false", a, b);
    case Num(text) => Regroup(text, a, b);
    case Str(s) => DumpAppend(s, a, b);
    case Arr(items) =>
      Regroup("]", a, b);
      PrintItemsAppend(items, sp, "]" + a, b);
      Regroup("[", PrintItems(items, sp, "]" + a), b);
    case Obj(members) =>
      Regroup("}", a, b);
      PrintMembersAppend(members, sp, "}" + a, b);
      Regroup("{", PrintMembers(members, sp, "}" + a), b);
  }

  lemma {:induction false} SeparatorAppend(c: string, sp: string, t: string, b: string)
    ensures c + (sp + (t + b)) == (c + (sp + t)) + b
  {
    Regroup(sp, t, b);
    Regroup(c, sp + t, b);
  }

  lemma {:induction false} PrintItemsAppend(items: seq<Json>, sp: string, a: string, b: string)
    ensures PrintItems(items, sp, a + b) == PrintItems(items, sp, a) + b
    decreases items, 0
  {
    if |items| == 1 {
      PrintAppend(items[0], sp, a, b);
    } else if |items| > 1 {
      var t := PrintItems(items[1..], sp, a);
      PrintItemsAppend(items[1..], sp, a, b);
      SeparatorAppend(",", sp, t, b);
      PrintAppend(items[0], sp, "," + (sp + t), b);
    }
  }

  lemma {:induction false} PrintMemberAppend(m: Member, sp: string, a: string, b: string)
    ensures PrintMember(m, sp, a + b) == PrintMember(m, sp, a) + b
    decreases m, 2
  {
    var t := Print(m.value, sp, a);
    PrintAppend(m.value, sp, a, b);
    SeparatorAppend(":", sp, t, b);
    DumpAppend(m.key, ":" + (sp + t), b);
  }

  lemma {:induction false} PrintMembersAppend(members: seq<Member>, sp: string, a: string, b: string)
    ensures PrintMembers(members, sp, a + b) == PrintMembers(members, sp, a) + b
    decreases members, 0
  {
    if |members| == 1 {
      PrintMemberAppend(members[0], sp, a, b);
    } else if |members| > 1 {
      var t := PrintMembers(members[1..], sp, a);
      PrintMembersAppend(members[1..], sp, a, b);
      SeparatorAppend(",", sp, t, b);
      PrintMemberAppend(members[0], sp, "," + (sp + t), b);
    }
  }
}
