/** Python strings, however they are written: what the translation of one reads back as. */
module PyStrings {
  import opened Sequences
  import opened Options
  import opened PyQuotes
  import J = JsonText

  // ----- ways of writing a string -----

  /** One character of a string as it is written: as it is, or as a letter behind a backslash. */
  datatype Piece = Plain(c: char) | Escaped(letter: char)

  /** The character a Python escape stands for; None for escapes of other lengths and unknown ones. */
  function EscapedChar(letter: char): Option<char> {
    if letter in "'\"\\" then Some(letter)
    else if letter == 'n' then Some('\n')
    else if letter == 'r' then Some('\r')
    else if letter == 't' then Some('\t')
    else if letter == 'a' then Some(7 as char)
    else if letter == 'b' then Some(8 as char)
    else if letter == 'v' then Some(11 as char)
    else if letter == 'f' then Some(12 as char)
    else None
  }

  /** Between quotes `q` the quote itself and the backslash are not written as they are. */
  predicate IsPiece(p: Piece, q: char) {
    match p
    case Plain(c) => c != q && c != '\\'
    case Escaped(letter) => EscapedChar(letter).Some?
  }

  predicate AllPieces(ps: seq<Piece>, q: char) {
    forall i | 0 <= i < |ps| :: IsPiece(ps[i], q)
  }

  function Written(p: Piece): string {
    match p case Plain(c) => [c] case Escaped(letter) => ['\\', letter]
  }

  function WrittenAll(ps: seq<Piece>, rest: string): string {
    if ps == [] then rest else Written(ps[0]) + WrittenAll(ps[1..], rest)
  }

  function Meant(p: Piece): char {
    match p
    case Plain(c) => c
    case Escaped(letter) => if EscapedChar(letter).Some? then EscapedChar(letter).value else letter
  }

  function MeantAll(ps: seq<Piece>): string {
    seq(|ps|, i requires 0 <= i < |ps| => Meant(ps[i]))
  }

  /**
   JSON has no plain control characters and no `\a` and `\v`; and between double quotes
   `\'` is copied, which is no escape of JSON either.
   */
  predicate IsJson(p: Piece, q: char) {
    match p
    case Plain(c) => c >= ' '
    case Escaped(letter) => letter !in "av" && !(letter == '\'' && q == '"')
  }

  predicate AllJson(ps: seq<Piece>, q: char) {
    forall i | 0 <= i < |ps| :: IsJson(ps[i], q)
  }

  // ----- one piece -----

  function ModeOfQuote(q: char): Mode {
    if q == '\'' then Single else Double
  }

  /** What the translation writes for a piece. */
  function Out(p: Piece, q: char): string {
    if q == '\'' && p == Plain('"') then "\\\""
    else if q == '\'' && p == Escaped('\'') then "'"
    else if q == '\'' && p == Escaped('"') then "\\\""
    else Written(p)
  }

  lemma {:induction false} PieceStep(p: Piece, q: char, afterWord: bool, more: string)
    requires q in "'\"" && IsPiece(p, q)
    ensures StepOf(Written(p) + more, ModeOfQuote(q), afterWord) == Step(Out(p, q), |Written(p)|, ModeOfQuote(q))
  {
    var s := Written(p) + more;
    assert s[0] == Written(p)[0];
    if p.Escaped? {
      assert s[1] == p.letter;
    }
  }

  lemma {:induction false} PieceTaken(p: Piece, q: char, afterWord: bool, more: string)
    requires q in "'\"" && IsPiece(p, q)
    ensures exists after: bool ::
              Normalize(Written(p) + more, ModeOfQuote(q), afterWord) == Out(p, q) + Normalize(more, ModeOfQuote(q), after)
  {
    PieceStep(p, q, afterWord, more);
    Parts(Written(p), more);
    var after := IsWordChar((Written(p) + more)[|Written(p)| - 1]);
    Take(Written(p) + more, ModeOfQuote(q), afterWord, Step(Out(p, q), |Written(p)|, ModeOfQuote(q)), more);
    assert Normalize(Written(p) + more, ModeOfQuote(q), afterWord) == Out(p, q) + Normalize(more, ModeOfQuote(q), after);
  }

  lemma {:induction false} ReadPlain(c: char, t: string)
    requires c !in "\"\\"
    ensures J.ReadString([c] + t) == if c < ' ' then None else (var r :- J.ReadString(t); Some(([c] + r.0, r.1)))
  {
    assert ([c] + t)[1..] == t;
  }

  lemma {:induction false} ReadEscapedLetter(letter: char, t: string)
    requires EscapedChar(letter).Some?
    ensures J.ReadString(['\\', letter] + t) ==
            if letter in "'av" then None
            else (var r :- J.ReadString(t); Some(([EscapedChar(letter).value] + r.0, r.1)))
  {
    var s := ['\\', letter] + t;
    assert s[0] == '\\' && s[1..] == [letter] + t && ([letter] + t)[1..] == t;
  }

  lemma {:induction false} ReadPiece(p: Piece, q: char, t: string)
    requires q in "'\"" && IsPiece(p, q)
    ensures J.ReadString(Out(p, q) + t) ==
            if IsJson(p, q) then (var r :- J.ReadString(t); Some(([Meant(p)] + r.0, r.1))) else None
  {
    if q == '\'' && p == Escaped('\'') {
      ReadPlain('\'', t);
    } else if q == '\'' && p == Plain('"') {
      ReadEscapedLetter('"', t);
    } else {
      match p
      case Plain(c) => ReadPlain(c, t);
      case Escaped(letter) => ReadEscapedLetter(letter, t);
    }
  }

  // ----- whole strings -----

  lemma {:induction false} EndOfString(q: char, afterWord: bool, rest: string)
    requires q in "'\""
    ensures Normalize([q] + rest, ModeOfQuote(q), afterWord) == "\"" + Normalize(rest, Outside, false)
  {
    var s := [q] + rest;
    assert s[0] == q && s[1..] == rest && s[1 - 1] == q;
    Take(s, ModeOfQuote(q), afterWord, Step("\"", 1, Outside), rest);
  }

  /** From inside the string: the reader gets the characters meant, or stops at a piece that is no JSON. */
  lemma {:induction false} ContentReadsBack(ps: seq<Piece>, q: char, afterWord: bool, rest: string)
    requires q in "'\"" && AllPieces(ps, q)
    ensures J.ReadString(Normalize(WrittenAll(ps, [q] + rest), ModeOfQuote(q), afterWord)) ==
            if AllJson(ps, q) then Some((MeantAll(ps), Normalize(rest, Outside, false))) else None
    decreases |ps|
  {
    if ps == [] {
      EndOfString(q, afterWord, rest);
      EmptyString(Normalize(rest, Outside, false));
      assert MeantAll(ps) == "";
    } else {
      var more := WrittenAll(ps[1..], [q] + rest);
      PieceTaken(ps[0], q, afterWord, more);
      var after :| Normalize(Written(ps[0]) + more, ModeOfQuote(q), afterWord) ==
                   Out(ps[0], q) + Normalize(more, ModeOfQuote(q), after);
      ReadPiece(ps[0], q, Normalize(more, ModeOfQuote(q), after));
      ContentReadsBack(ps[1..], q, after, rest);
      FirstPiece(ps, q);
    }
  }

  lemma EmptyString(t: string)
    ensures J.ReadString("\"" + t) == Some(("", t))
  {
    assert ("\"" + t)[1..] == t;
  }

  lemma FirstPiece(ps: seq<Piece>, q: char)
    requires ps != []
    ensures MeantAll(ps) == [Meant(ps[0])] + MeantAll(ps[1..])
    ensures AllJson(ps, q) <==> IsJson(ps[0], q) && AllJson(ps[1..], q)
  {
    assert ps == [ps[0]] + ps[1..];
  }

  lemma {:induction false} StartOfString(q: char, t: string)
    requires q in "'\""
    ensures Normalize([q] + t, Outside, false) == "\"" + Normalize(t, ModeOfQuote(q), false)
  {
    var s := [q] + t;
    assert s[0] == q && s[1..] == t && s[1 - 1] == q;
    Take(s, Outside, false, Step("\"", 1, ModeOfQuote(q)), t);
  }

  /**
   A Python string, in either quotes and with any of its characters escaped, is translated
   to a JSON string of the same characters if and only if all its pieces have a place in JSON.
   */
  lemma StringReadsBack(ps: seq<Piece>, q: char)
    requires q in "'\"" && AllPieces(ps, q)
    ensures J.ReadValue(Normalize([q] + WrittenAll(ps, [q]), Outside, false)) ==
            if AllJson(ps, q) then Some((J.Str(MeantAll(ps)), "")) else None
  {
    StartOfString(q, WrittenAll(ps, [q]));
    assert [q] + "" == [q];
    ContentReadsBack(ps, q, false, "");
    ReadQuoted(Normalize(WrittenAll(ps, [q]), ModeOfQuote(q), false));
  }

  lemma ReadQuoted(t: string)
    ensures J.ReadValue("\"" + t) == (var r :- J.ReadString(t); Some((J.Str(r.0), r.1)))
  {
    assert ("\"" + t)[1..] == t && ("\"" + t)[0] == '"';
  }

  /** A quote escaped between double quotes, as in "it\'s", is not JSON once translated. */
  lemma EscapedQuoteIsNotJson()
    ensures J.ReadValue(Normalize("\"\\'\"", Outside, false)) == None
  {
    var ps := [Escaped('\'')];
    assert WrittenAll(ps, "\"") == "\\'" + "\"" by {
      assert ps[1..] == [];
    }
    assert "\"" + ("\\'" + "\"") == "\"\\'\"";
    assert !IsJson(ps[0], '"');
    StringReadsBack(ps, '"');
  }

  // ----- outside strings -----

  /** A word begins at `i` that could be the beginning of a Python literal. */
  predicate MayBeLiteral(s: string, i: nat, afterWord: bool)
    requires i < |s|
  {
    !(if i == 0 then afterWord else IsWordChar(s[i - 1])) &&
    var word := s[i..][..WordRun(s[i..])];
    word != "" && (word <= "True" || word <= "False" || word <= "None")
  }

  lemma LiteralIsOneOfThree(word: string)
    ensures Literal(word).Some? <==> word <= "True" || word <= "False" || word <= "None"
  {
    assert Literal(word, 1) == if word <= "False" then Some("false"[..|word|]) else Literal(word, 2);
    assert Literal(word, 2) == if word <= "None" then Some("null"[..|word|]) else Literal(word, 3);
  }

  /** A text without quotes is kept as it is where it has no literals. */
  lemma {:induction false} OtherTextIsKept(s: string, afterWord: bool)
    requires forall i | 0 <= i < |s| :: s[i] !in "'\"" && !MayBeLiteral(s, i, afterWord)
    ensures Normalize(s, Outside, afterWord) == s
    decreases |s|
  {
    if s != "" {
      forall i | 0 <= i < |s| - 1 ensures s[1..][i] !in "'\"" && !MayBeLiteral(s[1..], i, IsWordChar(s[0])) {
        assert s[1..][i] == s[i + 1] && s[1..][i..] == s[i + 1..];
        assert !MayBeLiteral(s, i + 1, afterWord);
      }
      OtherTextIsKept(s[1..], IsWordChar(s[0]));
      KeptStep(s, afterWord);
      Take(s, Outside, afterWord, Step([s[0]], 1, Outside), s[1..]);
      assert [s[0]] + s[1..] == s;
    }
  }

  lemma {:induction false} KeptStep(s: string, afterWord: bool)
    requires s != "" && s[0] !in "'\"" && !MayBeLiteral(s, 0, afterWord)
    ensures StepOf(s, Outside, afterWord) == Step([s[0]], 1, Outside)
  {
    if StartsLiteral(s, Outside, afterWord) {
      assert s[0..] == s;
      LiteralIsOneOfThree(s[..WordRun(s)]);
    }
  }
}
