/**
 `string_process_escapes`: backslash escapes are replaced in the text itself. The text
 written so far never reaches what is still to be read, so the loop computes `Unescape` of
 the text as it was. Each turn reads one escape, or one character that begins none, and
 writes what it stands for; both are told by `FirstEscape`.
 */
module Escapes {
  import opened Options
  import opened CType
  import opened Sequences
  import J = JsonText

  /** The character for a short escape. */
  function ShortEscape(c: char): Option<char> {
    if c == 'n' then Some('\n')
    else if c == 'r' then Some('\r')
    else if c == 't' then Some('\t')
    else if c == '\'' || c == '"' || c == '\\' then Some(c)
    else None
  }

  /**
   `strtol` in base 16, when it reads both characters: two digits, or a space or a sign
   before one digit. The value is cut to a byte.
   */
  function HexByte(a: char, b: char): Option<char> {
    var low := J.HexValue(b);
    if low == 16 then None
    else if J.HexValue(a) < 16 then Some((16 * J.HexValue(a) + low) as char)
    else if IsSpace(a) || a == '+' then Some(low as char)
    else if a == '-' then Some(((256 - low) % 256) as char)
    else None
  }

  /** The first character of the result, and how much of the text it stands for. */
  function FirstEscape(s: string): (r: (string, nat))
    requires s != ""
    ensures |r.0| <= r.1 <= |s| && 1 <= r.1
  {
    if s[0] != '\\' || |s| == 1 then (s[..1], 1)
    else if ShortEscape(s[1]).Some? then ([ShortEscape(s[1]).value], 2)
    else if s[1] == 'x' && |s| >= 4 && HexByte(s[2], s[3]).Some? then ([HexByte(s[2], s[3]).value], 4)
    else (s[..2], 2)
  }

  function Unescape(s: string): string
    decreases |s|
  {
    if s == "" then "" else FirstEscape(s).0 + Unescape(s[FirstEscape(s).1..])
  }

  lemma {:induction false} UnescapeIsShort(s: string)
    ensures |Unescape(s)| <= |s|
    decreases |s|
  {
    if s != "" {
      UnescapeIsShort(s[FirstEscape(s).1..]);
    }
  }

  // ----- undoing an escaper -----

  /** The ways to write one character: as it is, with a short escape, or as `\xHH` in either case of the digits. */
  datatype Written = Plain(c: char) | Short(c: char) | Hex(c: char, upperHigh: bool, upperLow: bool)

  predicate CanBeWritten(w: Written) {
    match w
    case Plain(c) => c != '\\'
    case Short(c) => c == '\n' || c == '\r' || c == '\t' || c == '\'' || c == '"' || c == '\\'
    case Hex(c, _, _) => c as int < 256
  }

  function HexDigit(n: nat, upper: bool): char
    requires n < 16
  {
    if n < 10 then ('0' as int + n) as char
    else if upper then ('A' as int + n - 10) as char
    else ('a' as int + n - 10) as char
  }

  function TextOf(w: Written): string
    requires CanBeWritten(w)
  {
    match w
    case Plain(c) => [c]
    case Short(c) =>
      ['\\', if c == '\n' then 'n' else if c == '\r' then 'r' else if c == '\t' then 't' else c]
    case Hex(c, upperHigh, upperLow) =>
      ['\\', 'x', HexDigit(c as int / 16, upperHigh), HexDigit(c as int % 16, upperLow)]
  }

  predicate AllCanBeWritten(ws: seq<Written>) {
    forall i | 0 <= i < |ws| :: CanBeWritten(ws[i])
  }

  /** The text an escaper writes, whatever way it chooses for each character. */
  function Escaped(ws: seq<Written>): string
    requires AllCanBeWritten(ws)
  {
    if ws == [] then "" else TextOf(ws[0]) + Escaped(ws[1..])
  }

  function Original(ws: seq<Written>): string {
    if ws == [] then "" else [ws[0].c] + Original(ws[1..])
  }

  lemma HexValueOfHexDigit(n: nat, upper: bool)
    requires n < 16
    ensures J.HexValue(HexDigit(n, upper)) == n
  {
  }

  lemma HexByteOfDigits(c: char, upperHigh: bool, upperLow: bool)
    requires c as int < 256
    ensures HexByte(HexDigit(c as int / 16, upperHigh), HexDigit(c as int % 16, upperLow)) == Some(c)
  {
    HexValueOfHexDigit(c as int / 16, upperHigh);
    HexValueOfHexDigit(c as int % 16, upperLow);
  }

  /** A character written in any way is the first escape of the text. */
  lemma FirstWritten(w: Written, rest: string)
    requires CanBeWritten(w)
    ensures FirstEscape(TextOf(w) + rest) == ([w.c], |TextOf(w)|)
  {
    var s := TextOf(w) + rest;
    match w
    case Plain(c) =>
      assert s[..1] == [c];
    case Short(c) =>
      assert s[0] == '\\' && s[1] == TextOf(w)[1];
    case Hex(c, upperHigh, upperLow) =>
      HexByteOfDigits(c, upperHigh, upperLow);
      assert s[0] == '\\' && s[1] == 'x' && s[2] == TextOf(w)[2] && s[3] == TextOf(w)[3];
  }

  /** Processing the escapes gives back what was written. */
  lemma {:induction false} UnescapeUndoesEscaping(ws: seq<Written>)
    requires AllCanBeWritten(ws)
    ensures Unescape(Escaped(ws)) == Original(ws)
  {
    if ws != [] {
      var rest := Escaped(ws[1..]);
      FirstWritten(ws[0], rest);
      UnescapeUndoesEscaping(ws[1..]);
      assert (TextOf(ws[0]) + rest)[|TextOf(ws[0])|..] == rest;
    }
  }

  /** Processing the escapes changes nothing or makes the text shorter. */
  lemma {:induction false} UnchangedOrShorter(s: string)
    ensures Unescape(s) == s || |Unescape(s)| < |s|
    decreases |s|
  {
    if s != "" {
      var (out, n) := FirstEscape(s);
      UnchangedOrShorter(s[n..]);
      UnescapeIsShort(s[n..]);
      KeptOrShorter(s);
      assert s[..n] + s[n..] == s;
    }
  }

  lemma KeptOrShorter(s: string)
    requires s != ""
    ensures var (out, n) := FirstEscape(s);
            out == s[..n] || |out| < n
  {
  }

  // ----- what is no escape -----

  predicate IsHex(c: char) {
    c in "0123456789abcdefABCDEF"
  }

  /** A backslash before a letter of an escape, or before `x` and what `strtol` reads both of. */
  predicate BeginsEscape(s: string) {
    |s| > 1 && s[0] == '\\' &&
    (s[1] in "nrt'\"\\" ||
     (s[1] == 'x' && |s| > 3 && (IsHex(s[2]) || IsSpace(s[2]) || s[2] in "+-") && IsHex(s[3])))
  }

  predicate HasEscape(s: string) {
    exists i | 0 <= i < |s| :: BeginsEscape(s[i..])
  }

  lemma HexHasValue(c: char)
    ensures J.HexValue(c) < 16 <==> IsHex(c)
  {
    if J.HexValue(c) < 16 {
      var n := J.HexValue(c);
      assert c == "0123456789abcdef"[n] || c == "0123456789ABCDEF"[n];
    }
  }

  lemma HexByteRead(a: char, b: char)
    ensures HexByte(a, b).Some? <==> (IsHex(a) || IsSpace(a) || a in "+-") && IsHex(b)
  {
    HexHasValue(a);
    HexHasValue(b);
  }

  lemma FirstIsKept(s: string)
    requires s != ""
    ensures BeginsEscape(s) <==> FirstEscape(s).0 != s[..FirstEscape(s).1]
    ensures BeginsEscape(s) <==> |FirstEscape(s).0| < FirstEscape(s).1
  {
    if |s| > 3 {
      HexByteRead(s[2], s[3]);
    }
  }

  lemma EscapeLater(s: string, n: nat)
    requires n <= |s| && forall i | 0 <= i < n :: !BeginsEscape(s[i..])
    ensures HasEscape(s) <==> HasEscape(s[n..])
  {
    if HasEscape(s) {
      var i :| 0 <= i < |s| && BeginsEscape(s[i..]);
      assert s[n..][i - n..] == s[i..];
    }
    if HasEscape(s[n..]) {
      var i :| 0 <= i < |s[n..]| && BeginsEscape(s[n..][i..]);
      assert s[n..][i..] == s[n + i..];
    }
  }

  /** A text is kept as it is exactly when no escape begins in it; any other backslash stays. */
  lemma {:induction false} UnchangedIff(s: string)
    ensures Unescape(s) == s <==> !HasEscape(s)
    decreases |s|
  {
    if s != "" {
      var (out, n) := FirstEscape(s);
      FirstIsKept(s);
      UnescapeIsShort(s[n..]);
      if BeginsEscape(s) {
        assert s[0..] == s;
      } else {
        NotInside(s, n);
        EscapeLater(s, n);
        UnchangedIff(s[n..]);
        SameRest(s, n, Unescape(s[n..]));
      }
    }
  }

  lemma SameRest(s: string, n: nat, x: string)
    requires n <= |s|
    ensures s[..n] + x == s <==> x == s[n..]
  {
    assert s[..n] + s[n..] == s && (s[..n] + x)[n..] == x;
  }

  /** No escape begins at the second character of a pair that is kept. */
  lemma NotInside(s: string, n: nat)
    requires s != "" && !BeginsEscape(s) && n == FirstEscape(s).1
    ensures n <= 2 && forall i | 0 <= i < n :: !BeginsEscape(s[i..])
  {
    FirstIsKept(s);
    assert s[0..] == s;
    if n == 2 {
      assert s[1..][0] == s[1];
    }
  }

  // ----- the loop of the source -----

  /** `done` is written at the beginning, and nothing from `read` on has changed. */
  predicate Processing(whole: string, was: string, now: string, done: string, read: nat) {
    |was| == |now| && |done| <= read <= |was| && now[..|done|] == done && now[read..] == was[read..] &&
    whole == done + Unescape(was[read..])
  }

  /** One turn: the first escape from `read` on is written after `done`. */
  lemma Turn(whole: string, was: string, now: string, done: string, read: nat)
    requires Processing(whole, was, now, done, read) && read < |was|
    ensures now[read..] == was[read..]
    ensures var (out, n) := FirstEscape(now[read..]);
            Processing(whole, was, now[..|done|] + out + now[|done| + |out|..], done + out, read + n)
  {
    var (out, n) := FirstEscape(was[read..]);
    DropTwice(was, read, n);
    DropTwice(now, read, n);
    Spliced(now, done, out, read + n);
    Regroup(done, out, Unescape(was[read + n..]));
  }

  lemma Spliced(now: string, done: string, out: string, read: nat)
    requires |done| + |out| <= read <= |now| && now[..|done|] == done
    ensures var next := now[..|done|] + out + now[|done| + |out|..];
            |next| == |now| && next[..|done + out|] == done + out && next[read..] == now[read..]
  {
  }

  lemma WriteOne(now: string, write: nat, c: char)
    requires write < |now|
    ensures now[write := c] == now[..write] + [c] + now[write + 1..]
  {
  }

  lemma WriteTwo(now: string, write: nat, c: char, d: char)
    requires write + 1 < |now|
    ensures now[write := c][write + 1 := d] == now[..write] + [c, d] + now[write + 2..]
  {
  }

  /** One turn of the loop: reads an escape at `read` and writes what it stands for at `write`. */
  method ProcessOne(input: array<char>, read: nat, write: nat) returns (next: nat, end: nat)
    requires write <= read < input.Length
    modifies input
    ensures var (out, n) := FirstEscape(old(input[..])[read..]);
            next == read + n && end == write + |out| <= input.Length &&
            input[..] == old(input[..])[..write] + out + old(input[..])[end..]
  {
    ghost var now := input[..];
    ghost var s := now[read..];
    next, end := read, write;
    if input[read] == '\\' && read + 1 < input.Length {
      assert s[0] == now[read] && s[1] == now[read + 1];
      next := next + 1;
      var value := ShortEscape(input[next]);
      if value.None? && input[next] == 'x' && next + 2 < input.Length {
        assert s[2] == now[read + 2] && s[3] == now[read + 3];
        value := HexByte(input[next + 1], input[next + 2]);
        if value.Some? {
          next := next + 2;
        }
      }
      if value.Some? {
        WriteOne(now, write, value.value);
        input[write] := value.value;
        end := end + 1;
      } else {
        assert s[..2] == ['\\', now[next]];
        WriteTwo(now, write, '\\', now[next]);
        input[write] := '\\';
        end := end + 1;
        input[end] := input[next];
        end := end + 1;
      }
    } else {
      assert s[0] == now[read] && s[..1] == [now[read]];
      WriteOne(now, write, now[read]);
      input[write] := input[read];
      end := end + 1;
    }
    next := next + 1;
  }

  method TurnInPlace(input: array<char>, ghost whole: string, ghost was: string, ghost done: string, read: nat, write: nat)
    returns (next: nat, end: nat, ghost more: string)
    requires Processing(whole, was, input[..], done, read) && write == |done| && read < input.Length
    modifies input
    ensures Processing(whole, was, input[..], more, next) && end == |more| && read < next
  {
    Turn(whole, was, input[..], done, read);
    more := done + FirstEscape(input[..][read..]).0;
    next, end := ProcessOne(input, read, write);
  }

  method ProcessEscapes(input: array<char>) returns (length: nat)
    modifies input
    ensures length <= input.Length && input[..length] == Unescape(old(input[..]))
  {
    var read := 0;
    length := 0;
    ghost var was := input[..];
    ghost var done := "";
    NothingDone(was);
    while read < input.Length
      invariant length == |done|
      invariant Processing(Unescape(was), was, input[..], done, read)
    {
      read, length, done := TurnInPlace(input, Unescape(was), was, done, read, length);
    }
    AllDone(Unescape(was), was, input[..], done);
    assert input[..length] == input[..][..length];
  }

  lemma NothingDone(was: string)
    ensures Processing(Unescape(was), was, was, "", 0)
  {
    assert was[0..] == was && was[..0] == "" && "" + Unescape(was) == Unescape(was);
  }

  lemma AllDone(whole: string, was: string, now: string, done: string)
    requires Processing(whole, was, now, done, |was|)
    ensures |done| <= |now| && now[..|done|] == whole
  {
    assert was[|was|..] == "" && done + "" == done;
  }
}
