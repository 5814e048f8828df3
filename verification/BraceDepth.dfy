/**
 `json_brace_depth`: how many braces of a JSON-like text are still open, not counting
 braces inside strings. Printed JSON values always balance, whatever stands in their
 strings: the scan of a printed value ends in the state in which it began, at any depth
 and before any text that may follow it.
 */
module BraceDepth {
  import J = JsonText

  datatype Scan = Scan(depth: int, inString: bool, escaped: bool)

  function Read(s: Scan, c: char): Scan {
    if s.escaped then s.(escaped := false)
    else if c == '\\' && s.inString then s.(escaped := true)
    else if c == '"' then s.(inString := !s.inString)
    else if s.inString then s
    else if c == '{' then s.(depth := s.depth + 1)
    else if c == '}' then s.(depth := s.depth - 1)
    else s
  }

  function ReadAll(s: Scan, text: string): Scan
    decreases |text|
  {
    if text == "" then s else ReadAll(Read(s, text[0]), text[1..])
  }

  function Depth(text: string): int {
    ReadAll(Scan(0, false, false), text).depth
  }

  method JsonBraceDepth(s: string) returns (depth: int)
    ensures depth == Depth(s)
  {
    depth := 0;
    var inString, escaped := false, false;
    var i := 0;
    assert s[0..] == s;
    while i < |s|
      invariant i <= |s|
      invariant ReadAll(Scan(depth, inString, escaped), s[i..]) == ReadAll(Scan(0, false, false), s)
    {
      var c := s[i];
      assert s[i..][1..] == s[i + 1..];
      i := i + 1;
      if escaped {
        escaped := false;
        continue;
      }
      if c == '\\' && inString {
        escaped := true;
        continue;
      }
      if c == '"' {
        inString := !inString;
        continue;
      }
      if !inString {
        if c == '{' {
          depth := depth + 1;
        } else if c == '}' {
          depth := depth - 1;
        }
      }
    }
  }

  lemma ReadCons(s: Scan, c: char, t: string)
    ensures ReadAll(s, [c] + t) == ReadAll(Read(s, c), t)
  {
    assert ([c] + t)[1..] == t;
  }

  /** Text without quotes, braces or backslashes, outside strings. */
  predicate Neutral(text: string) {
    forall i | 0 <= i < |text| :: text[i] !in "\\\"{}"
  }

  lemma {:induction false} ReadNeutral(text: string, d: int, rest: string)
    requires Neutral(text)
    ensures ReadAll(Scan(d, false, false), text + rest) == ReadAll(Scan(d, false, false), rest)
  {
    if text == "" {
      assert text + rest == rest;
    } else {
      assert (text + rest)[1..] == text[1..] + rest;
      ReadNeutral(text[1..], d, rest);
    }
  }

  lemma {:induction false} ReadHexEscape(h: char, l: char, d: int, rest: string)
    requires h !in "\\\"" && l !in "\\\""
    ensures ReadAll(Scan(d, true, false), ['\\'] + (['u'] + (['0'] + (['0'] + ([h] + ([l] + rest)))))) ==
            ReadAll(Scan(d, true, false), rest)
  {
    var s := Scan(d, true, false);
    ReadCons(s, '\\', ['u'] + (['0'] + (['0'] + ([h] + ([l] + rest)))));
    ReadCons(s.(escaped := true), 'u', ['0'] + (['0'] + ([h] + ([l] + rest))));
    ReadCons(s, '0', ['0'] + ([h] + ([l] + rest)));
    ReadCons(s, '0', [h] + ([l] + rest));
    ReadCons(s, h, [l] + rest);
    ReadCons(s, l, rest);
  }

  lemma {:induction false} ReadEscapedChar(c: char, d: int, rest: string)
    ensures ReadAll(Scan(d, true, false), J.EscapeChar(c) + rest) == ReadAll(Scan(d, true, false), rest)
  {
    var e := J.EscapeChar(c);
    if |e| == 1 {
      ReadCons(Scan(d, true, false), c, rest);
    } else if |e| == 2 {
      assert e + rest == [e[0]] + ([e[1]] + rest);
      ReadCons(Scan(d, true, false), e[0], [e[1]] + rest);
      ReadCons(Scan(d, true, true), e[1], rest);
    } else {
      var h, l := J.HexDigit(c as int / 16), J.HexDigit(c as int % 16);
      J.HexValueOfDigit(c as int / 16);
      J.HexValueOfDigit(c as int % 16);
      assert e + rest == ['\\'] + (['u'] + (['0'] + (['0'] + ([h] + ([l] + rest)))));
      ReadHexEscape(h, l, d, rest);
    }
  }

  lemma {:induction false} ReadEscape(s: string, d: int, rest: string)
    ensures ReadAll(Scan(d, true, false), J.Escape(s, "\"" + rest)) == ReadAll(Scan(d, false, false), rest)
  {
    if s == "" {
      ReadCons(Scan(d, true, false), '"', rest);
    } else {
      ReadEscapedChar(s[0], d, J.Escape(s[1..], "\"" + rest));
      ReadEscape(s[1..], d, rest);
    }
  }

  lemma {:induction false} ReadDump(s: string, d: int, rest: string)
    ensures ReadAll(Scan(d, false, false), J.Dump(s, rest)) == ReadAll(Scan(d, false, false), rest)
  {
    ReadCons(Scan(d, false, false), '"', J.Escape(s, "\"" + rest));
    ReadEscape(s, d, rest);
  }

  lemma {:induction false} ReadSeparator(c: char, sp: string, d: int, rest: string)
    requires c in ",:" && J.AllSpace(sp)
    ensures ReadAll(Scan(d, false, false), [c] + (sp + rest)) == ReadAll(Scan(d, false, false), rest)
  {
    ReadCons(Scan(d, false, false), c, sp + rest);
    assert Neutral(sp) by {
      forall i | 0 <= i < |sp| ensures sp[i] !in "\\\"{}" {
        assert sp[i] in sp && J.IsSpace(sp[i]);
      }
    }
    ReadNeutral(sp, d, rest);
  }

  lemma NumberIsNeutral(text: string)
    requires J.IsNumber(text)
    ensures Neutral(text)
  {
    forall i | 0 <= i < |text| ensures text[i] !in "\\\"{}" {
      assert text[i] in text && J.IsNumberChar(text[i]);
    }
  }

  /** A printed value leaves the depth as it was. */
  lemma {:induction false} ValueBalances(v: J.Json, sp: string, d: int, rest: string)
    requires J.WellFormed(v) && J.AllSpace(sp)
    ensures ReadAll(Scan(d, false, false), J.Print(v, sp, rest)) == ReadAll(Scan(d, false, false), rest)
    decreases v, 1
  {
    match v
    case Null => ReadNeutral("null", d, rest);
    case Bool(b) => ReadNeutral(if b then "true" else "false", d, rest);
    case Num(text) =>
      NumberIsNeutral(text);
      ReadNeutral(text, d, rest);
    case Str(s) => ReadDump(s, d, rest);
    case Arr(items) =>
      ReadCons(Scan(d, false, false), '[', J.PrintItems(items, sp, "]" + rest));
      ItemsBalance(items, sp, d, "]" + rest);
      ReadCons(Scan(d, false, false), ']', rest);
    case Obj(members) =>
      ReadCons(Scan(d, false, false), '{', J.PrintMembers(members, sp, "}" + rest));
      MembersBalance(members, sp, d + 1, "}" + rest);
      ReadCons(Scan(d + 1, false, false), '}', rest);
  }

  lemma {:induction false} ItemsBalance(items: seq<J.Json>, sp: string, d: int, rest: string)
    requires J.AllSpace(sp)
    requires forall i | 0 <= i < |items| :: J.WellFormed(items[i])
    ensures ReadAll(Scan(d, false, false), J.PrintItems(items, sp, rest)) == ReadAll(Scan(d, false, false), rest)
    decreases items, 0
  {
    if |items| == 1 {
      ValueBalances(items[0], sp, d, rest);
    } else if |items| > 1 {
      var t := J.PrintItems(items[1..], sp, rest);
      ValueBalances(items[0], sp, d, "," + (sp + t));
      ReadSeparator(',', sp, d, t);
      ItemsBalance(items[1..], sp, d, rest);
    }
  }

  lemma {:induction false} MemberBalances(m: J.Member, sp: string, d: int, rest: string)
    requires J.AllSpace(sp) && J.WellFormed(m.value)
    ensures ReadAll(Scan(d, false, false), J.PrintMember(m, sp, rest)) == ReadAll(Scan(d, false, false), rest)
    decreases m, 2
  {
    var t := J.Print(m.value, sp, rest);
    ReadDump(m.key, d, ":" + (sp + t));
    ReadSeparator(':', sp, d, t);
    ValueBalances(m.value, sp, d, rest);
  }

  lemma {:induction false} MembersBalance(members: seq<J.Member>, sp: string, d: int, rest: string)
    requires J.AllSpace(sp)
    requires forall i | 0 <= i < |members| :: J.WellFormed(members[i].value)
    ensures ReadAll(Scan(d, false, false), J.PrintMembers(members, sp, rest)) == ReadAll(Scan(d, false, false), rest)
    decreases members, 0
  {
    if |members| == 1 {
      MemberBalances(members[0], sp, d, rest);
    } else if |members| > 1 {
      var t := J.PrintMembers(members[1..], sp, rest);
      MemberBalances(members[0], sp, d, "," + (sp + t));
      ReadSeparator(',', sp, d, t);
      MembersBalance(members[1..], sp, d, rest);
    }
  }

  // ----- what is counted -----

  function Count(text: string, c: char): nat {
    if text == "" then 0 else (if text[0] == c then 1 else 0) + Count(text[1..], c)
  }

  lemma {:induction false} ScanCounts(d: int, text: string)
    requires '"' !in text
    ensures ReadAll(Scan(d, false, false), text) == Scan(d + Count(text, '{') - Count(text, '}'), false, false)
    decreases |text|
  {
    if text != "" {
      ScanCounts(Read(Scan(d, false, false), text[0]).depth, text[1..]);
    }
  }

  /** Without strings the depth is the number of opening braces less that of closing ones; brackets do not count. */
  lemma DepthCounts(text: string)
    requires '"' !in text
    ensures Depth(text) == Count(text, '{') - Count(text, '}')
  {
    ScanCounts(0, text);
  }

  lemma {:induction false} ReadAppend(s: Scan, a: string, b: string)
    ensures ReadAll(s, a + b) == ReadAll(ReadAll(s, a), b)
    decreases |a|
  {
    if a == "" {
      assert a + b == b;
    } else {
      assert (a + b)[1..] == a[1..] + b;
      ReadAppend(Read(s, a[0]), a[1..], b);
    }
  }

  /** A string, whatever characters it holds, opens and closes nothing between two other texts. */
  lemma StringsDoNotCount(before: string, key: string, after: string)
    requires '"' !in before && '"' !in after
    ensures Depth(before + J.Dump(key, after)) ==
            Count(before, '{') - Count(before, '}') + Count(after, '{') - Count(after, '}')
  {
    ScanCounts(0, before);
    var d := Count(before, '{') - Count(before, '}');
    ReadAppend(Scan(0, false, false), before, J.Dump(key, after));
    ReadDump(key, d, after);
    ScanCounts(d, after);
  }
}
