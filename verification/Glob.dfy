/**
 `glob_match`: `**` matches anything, `*` anything without a slash, `?` one character
 that is no slash, `[...]` one character of a class, an unclosed `[` itself.
 */
module Glob {

  // ----- character classes -----

  /** An entry of a class. */
  datatype Item = Single(c: char) | Range(lo: char, hi: char)

  predicate Contains(item: Item, c: char) {
    match item
    case Single(d) => c == d
    case Range(lo, hi) => lo <= c <= hi
  }

  /** The entries of a class body after its leading `!` and its literal first `]` or `-`. */
  function Items(body: string): seq<Item>
    decreases |body|
  {
    if body == "" then []
    else if |body| > 2 && body[1] == '-' && body[2] != ']' then [Range(body[0], body[2])] + Items(body[3..])
    else [Single(body[0])] + Items(body[1..])
  }

  predicate IsNegated(body: string) {
    body != "" && body[0] == '!'
  }

  /** All entries of a class: a `]` or `-` at its beginning stands for itself. */
  function ClassItems(body: string): seq<Item> {
    var rest := if IsNegated(body) then body[1..] else body;
    if rest != "" && rest[0] in "]-" then [Single(rest[0])] + Items(rest[1..]) else Items(rest)
  }

  predicate AnyContains(items: seq<Item>, c: char) {
    exists k | 0 <= k < |items| :: Contains(items[k], c)
  }

  predicate InClass(c: char, body: string) {
    IsNegated(body) != AnyContains(ClassItems(body), c)
  }

  lemma AnyContainsFirst(first: Item, rest: seq<Item>, c: char)
    ensures AnyContains([first] + rest, c) <==> Contains(first, c) || AnyContains(rest, c)
  {
    if AnyContains(rest, c) {
      var k :| 0 <= k < |rest| && Contains(rest[k], c);
      assert ([first] + rest)[k + 1] == rest[k];
    }
    if Contains(first, c) {
      assert ([first] + rest)[0] == first;
    }
  }

  /** One of the entries from position `k` on contains the character. */
  predicate AnyFrom(body: string, k: nat, c: char)
    requires k <= |body|
  {
    AnyContains(Items(body[k..]), c)
  }

  lemma FirstOfClass(body: string, k: nat, c: char)
    requires k == (if IsNegated(body) then 1 else 0)
    ensures AnyContains(ClassItems(body), c) <==>
            if k < |body| && body[k] in "]-" then body[k] == c || AnyFrom(body, k + 1, c) else AnyFrom(body, k, c)
  {
    var rest := body[k..];
    assert rest == if IsNegated(body) then body[1..] else body;
    if k < |body| && body[k] in "]-" {
      assert rest[0] == body[k] && rest[1..] == body[k + 1..];
      AnyContainsFirst(Single(rest[0]), Items(rest[1..]), c);
    }
  }

  lemma {:induction false} NextEntry(body: string, k: nat, c: char)
    requires k < |body|
    ensures AnyFrom(body, k, c) <==>
            if k + 2 < |body| && body[k + 1] == '-' && body[k + 2] != ']' then body[k] <= c <= body[k + 2] || AnyFrom(body, k + 3, c)
            else body[k] == c || AnyFrom(body, k + 1, c)
  {
    var rest := body[k..];
    assert rest[0] == body[k] && (|rest| > 1 ==> rest[1] == body[k + 1]) && (|rest| > 2 ==> rest[2] == body[k + 2]);
    if k + 2 < |body| && body[k + 1] == '-' && body[k + 2] != ']' {
      assert rest[3..] == body[k + 3..];
      AnyContainsFirst(Range(rest[0], rest[2]), Items(rest[3..]), c);
    } else {
      assert rest[1..] == body[k + 1..];
      AnyContainsFirst(Single(rest[0]), Items(rest[1..]), c);
    }
  }

  lemma NoEntry(body: string, c: char)
    ensures !AnyFrom(body, |body|, c)
  {
    assert body[|body|..] == "";
  }

  method GlobClassMatch(c: char, body: string) returns (r: bool)
    ensures r == InClass(c, body)
  {
    var start := 0;
    var negated := false;
    if start < |body| && body[start] == '!' {
      negated := true;
      start := start + 1;
    }
    FirstOfClass(body, start, c);
    if start < |body| && (body[start] == ']' || body[start] == '-') {
      if body[start] == c {
        return !negated;
      }
      start := start + 1;
    }
    var matched := false;
    while start < |body|
      invariant start <= |body|
      invariant AnyContains(ClassItems(body), c) <==> matched || AnyFrom(body, start, c)
      invariant !matched
    {
      NextEntry(body, start, c);
      if start + 2 < |body| && body[start + 1] == '-' && body[start + 2] != ']' {
        if body[start] <= c <= body[start + 2] {
          matched := true;
          break;
        }
        start := start + 3;
      } else {
        if body[start] == c {
          matched := true;
          break;
        }
        start := start + 1;
      }
    }
    NoEntry(body, c);
    r := if negated then !matched else matched;
  }

  // ----- what a class means -----

  /** Characters that are an entry of their own wherever they stand behind the first one. */
  predicate IsOrdinary(c: char) {
    c !in "!]-"
  }

  predicate IsEntry(item: Item) {
    match item
    case Single(c) => IsOrdinary(c)
    case Range(lo, hi) => IsOrdinary(lo) && hi != ']'
  }

  predicate AllEntries(items: seq<Item>) {
    forall k | 0 <= k < |items| :: IsEntry(items[k])
  }

  function Written(item: Item): string {
    match item
    case Single(c) => [c]
    case Range(lo, hi) => [lo, '-', hi]
  }

  function WrittenAll(items: seq<Item>): string {
    if items == [] then "" else Written(items[0]) + WrittenAll(items[1..])
  }

  lemma {:induction false} StartsOrdinary(items: seq<Item>)
    requires AllEntries(items)
    ensures WrittenAll(items) != "" ==> IsOrdinary(WrittenAll(items)[0])
  {
    if items != [] {
      assert IsEntry(items[0]);
    }
  }

  lemma {:induction false} ItemsOfWritten(items: seq<Item>)
    requires AllEntries(items)
    ensures Items(WrittenAll(items)) == items
  {
    if items != [] {
      assert IsEntry(items[0]);
      StartsOrdinary(items[1..]);
      ItemsOfWritten(items[1..]);
      FirstEntry(items[0], WrittenAll(items[1..]));
      assert [items[0]] + items[1..] == items;
    }
  }

  lemma {:induction false} FirstEntry(item: Item, rest: string)
    requires IsEntry(item) && (rest != "" ==> IsOrdinary(rest[0]))
    ensures Items(Written(item) + rest) == [item] + Items(rest)
  {
    var body := Written(item) + rest;
    match item
    case Single(c) =>
      assert body[0] == c && body[1..] == rest && (rest != "" ==> body[1] == rest[0]);
    case Range(lo, hi) =>
      assert body[0] == lo && body[1] == '-' && body[2] == hi && body[3..] == rest;
  }

  /** A class matches the characters that one of its entries names, and with `!` all the others. */
  lemma ClassMeans(c: char, items: seq<Item>, negated: bool)
    requires AllEntries(items)
    ensures InClass(c, (if negated then "!" else "") + WrittenAll(items)) <==>
            negated != exists k | 0 <= k < |items| ::
              match items[k] case Single(d) => c == d case Range(lo, hi) => lo <= c && c <= hi
  {
    var rest := WrittenAll(items);
    var body := (if negated then "!" else "") + rest;
    StartsOrdinary(items);
    ItemsOfWritten(items);
    assert if negated then body[0] == '!' && body[1..] == rest else body == rest;
    assert IsNegated(body) == negated && ClassItems(body) == items;
    NamedByEntry(items, c);
  }

  lemma NamedByEntry(items: seq<Item>, c: char)
    ensures AnyContains(items, c) <==>
            exists k | 0 <= k < |items| ::
              match items[k] case Single(d) => c == d case Range(lo, hi) => lo <= c && c <= hi
  {
    forall k | 0 <= k < |items|
      ensures Contains(items[k], c) <==>
              match items[k] case Single(d) => c == d case Range(lo, hi) => lo <= c && c <= hi
    {
    }
  }

  lemma RangeMeans(c: char, lo: char, hi: char)
    requires IsOrdinary(lo) && hi != ']'
    ensures InClass(c, [lo, '-', hi]) <==> lo <= c && c <= hi
    ensures InClass(c, ['!', lo, '-', hi]) <==> c < lo || hi < c
  {
    var items := [Range(lo, hi)];
    assert WrittenAll(items) == [lo, '-', hi] by {
      assert items[1..] == [];
    }
    assert "" + [lo, '-', hi] == [lo, '-', hi] && "!" + [lo, '-', hi] == ['!', lo, '-', hi];
    ClassMeans(c, items, false);
    ClassMeans(c, items, true);
    assert items[0] == Range(lo, hi);
  }

  // ----- patterns -----

  /** The position of the first `]` from `k` on, or the length. */
  function FindClose(p: string, k: nat): (e: nat)
    requires k <= |p|
    ensures k <= e <= |p|
    ensures e < |p| ==> p[e] == ']'
    decreases |p| - k
  {
    if k == |p| || p[k] == ']' then k else FindClose(p, k + 1)
  }

  /** Where the class opened by `p[0]` is closed, or the length: its first character does not close it. */
  function ClassEnd(p: string): (e: nat)
    requires p != ""
    ensures 1 <= e <= |p|
    ensures e < |p| ==> p[e] == ']'
  {
    FindClose(p, if |p| > 1 && p[1] in "]-" then 2 else 1)
  }

  /** The source function, on texts without NUL characters. */
  predicate Match(p: string, s: string)
    decreases |p|, 1, |s|
  {
    if p == "" then s == ""
    else if |p| > 1 && p[0] == '*' && p[1] == '*' then
      Match(p[2..], s) || (s != "" && Match(p, s[1..]))
    else if p[0] == '*' then MatchStar(p[1..], s)
    else if p[0] == '?' && s != "" && s[0] != '/' then Match(p[1..], s[1..])
    else if p[0] == '[' then
      var e := ClassEnd(p);
      if e < |p| then s != "" && InClass(s[0], p[1..e]) && Match(p[e + 1..], s[1..])
      else s != "" && s[0] == '[' && Match(p[1..], s[1..])
    else s != "" && p[0] == s[0] && Match(p[1..], s[1..])
  }

  /** The loop for a single `*`: `p` is tried at every position up to the next slash. */
  predicate MatchStar(p: string, s: string)
    decreases |p|, 2, |s|
  {
    if s != "" && s[0] != '/' then Match(p, s) || MatchStar(p, s[1..]) else Match(p, s)
  }

  /** What `c_str()` leaves of a string: everything before the first NUL. */
  function CString(s: string): string {
    if s == "" || s[0] == '\0' then "" else [s[0]] + CString(s[1..])
  }

  predicate GlobMatch(pattern: string, str: string) {
    Match(CString(pattern), CString(str))
  }

  // ----- what a pattern means -----

  datatype Token = AnyDeep | AnyFlat | One | Class(body: string) | Literal(c: char)

  function Tokens(p: string): seq<Token>
    decreases |p|
  {
    if p == "" then []
    else if |p| > 1 && p[0] == '*' && p[1] == '*' then [AnyDeep] + Tokens(p[2..])
    else if p[0] == '*' then [AnyFlat] + Tokens(p[1..])
    else if p[0] == '?' then [One] + Tokens(p[1..])
    else if p[0] == '[' && ClassEnd(p) < |p| then [Class(p[1..ClassEnd(p)])] + Tokens(p[ClassEnd(p) + 1..])
    else [Literal(p[0])] + Tokens(p[1..])
  }

  predicate Accepts(t: Token, piece: string) {
    match t
    case AnyDeep => true
    case AnyFlat => '/' !in piece
    case One => |piece| == 1 && piece[0] != '/'
    case Class(body) => |piece| == 1 && InClass(piece[0], body)
    case Literal(c) => piece == [c]
  }

  function Flatten(pieces: seq<string>): string {
    if pieces == [] then "" else pieces[0] + Flatten(pieces[1..])
  }

  /** `pieces` cuts `s` into one piece per token, each accepted by its token. */
  predicate Splits(ts: seq<Token>, pieces: seq<string>, s: string) {
    |pieces| == |ts| && Flatten(pieces) == s && forall k | 0 <= k < |ts| :: Accepts(ts[k], pieces[k])
  }

  lemma ConsSplits(t: Token, ts: seq<Token>, piece: string, pieces: seq<string>, s: string)
    requires Accepts(t, piece) && Splits(ts, pieces, s)
    ensures Splits([t] + ts, [piece] + pieces, piece + s)
  {
    assert ([piece] + pieces)[1..] == pieces;
    forall k | 0 <= k < |ts| + 1 ensures Accepts(([t] + ts)[k], ([piece] + pieces)[k]) {
      if k > 0 {
        assert Accepts(ts[k - 1], pieces[k - 1]);
      }
    }
  }

  lemma UnconsSplits(t: Token, ts: seq<Token>, pieces: seq<string>, s: string)
    requires Splits([t] + ts, pieces, s)
    ensures pieces != [] && Accepts(t, pieces[0]) && s == pieces[0] + Flatten(pieces[1..])
    ensures Splits(ts, pieces[1..], Flatten(pieces[1..]))
  {
    assert Accepts(([t] + ts)[0], pieces[0]);
    forall k | 0 <= k < |ts| ensures Accepts(ts[k], pieces[1..][k]) {
      assert Accepts(([t] + ts)[k + 1], pieces[k + 1]);
    }
  }

  // ----- soundness -----

  lemma {:induction false} MatchSplits(p: string, s: string) returns (pieces: seq<string>)
    requires Match(p, s)
    ensures Splits(Tokens(p), pieces, s)
    decreases |p|, 1, |s|
  {
    if p == "" {
      pieces := [];
    } else if |p| > 1 && p[0] == '*' && p[1] == '*' {
      if Match(p[2..], s) {
        pieces := MatchSplits(p[2..], s);
        EmptyFirst(AnyDeep, Tokens(p[2..]), pieces, s);
        pieces := [""] + pieces;
      } else {
        pieces := MatchSplits(p, s[1..]);
        pieces := LongerFirst(AnyDeep, Tokens(p[2..]), pieces, s);
      }
    } else if p[0] == '*' {
      pieces := StarSplits(p[1..], s);
    } else {
      var n := TokenLength(p);
      pieces := MatchSplits(p[n..], s[1..]);
      OneFirst(p, s, n, pieces);
      pieces := [[s[0]]] + pieces;
    }
  }

  /** How many pattern characters a token that matches one character takes. */
  function TokenLength(p: string): (n: nat)
    requires p != ""
    ensures 1 <= n <= |p|
  {
    if p[0] == '[' && ClassEnd(p) < |p| then ClassEnd(p) + 1 else 1
  }

  lemma EmptyFirst(t: Token, ts: seq<Token>, pieces: seq<string>, s: string)
    requires t in {AnyDeep, AnyFlat} && Splits(ts, pieces, s)
    ensures Splits([t] + ts, [""] + pieces, s)
  {
    ConsSplits(t, ts, "", pieces, s);
    assert "" + s == s;
  }

  lemma OneFirst(p: string, s: string, n: nat, pieces: seq<string>)
    requires p != "" && p[0] != '*' && Match(p, s) && n == TokenLength(p)
    requires s != "" && Splits(Tokens(p[n..]), pieces, s[1..])
    ensures Splits(Tokens(p), [[s[0]]] + pieces, s)
  {
    TokenMatchesOne(p, s, n);
    ConsSplits(Tokens(p)[0], Tokens(p[n..]), [s[0]], pieces, s[1..]);
    assert [s[0]] + s[1..] == s;
  }

  lemma TokenMatchesOne(p: string, s: string, n: nat)
    requires p != "" && p[0] != '*' && s != "" && Match(p, s) && n == TokenLength(p)
    ensures Tokens(p) != [] && Tokens(p) == [Tokens(p)[0]] + Tokens(p[n..]) && Accepts(Tokens(p)[0], [s[0]])
  {
  }

  /** One more character for the first piece. */
  lemma LongerFirst(t: Token, ts: seq<Token>, pieces: seq<string>, s: string) returns (longer: seq<string>)
    requires s != "" && Splits([t] + ts, pieces, s[1..]) && pieces != []
    requires t == AnyDeep || (t == AnyFlat && s[0] != '/')
    ensures Splits([t] + ts, longer, s)
  {
    UnconsSplits(t, ts, pieces, s[1..]);
    var first, rest := [s[0]] + pieces[0], Flatten(pieces[1..]);
    ConsSplits(t, ts, first, pieces[1..], rest);
    longer := [first] + pieces[1..];
    assert first + rest == [s[0]] + (pieces[0] + rest);
    assert [s[0]] + s[1..] == s;
  }

  lemma {:induction false} StarSplits(p: string, s: string) returns (pieces: seq<string>)
    requires MatchStar(p, s)
    ensures Splits([AnyFlat] + Tokens(p), pieces, s)
    decreases |p|, 2, |s|
  {
    if Match(p, s) {
      pieces := MatchSplits(p, s);
      EmptyFirst(AnyFlat, Tokens(p), pieces, s);
      pieces := [""] + pieces;
    } else {
      var rest := StarSplits(p, s[1..]);
      pieces := LongerFirst(AnyFlat, Tokens(p), rest, s);
    }
  }

  // ----- completeness -----

  lemma {:induction false} SplitsMatch(p: string, pieces: seq<string>, s: string)
    requires Splits(Tokens(p), pieces, s)
    ensures Match(p, s)
    decreases |p|, 1, |s|
  {
    if p == "" {
    } else if |p| > 1 && p[0] == '*' && p[1] == '*' {
      UnconsSplits(AnyDeep, Tokens(p[2..]), pieces, s);
      if pieces[0] == "" {
        assert "" + Flatten(pieces[1..]) == Flatten(pieces[1..]);
        SplitsMatch(p[2..], pieces[1..], s);
      } else {
        ShorterFirst(AnyDeep, Tokens(p[2..]), pieces, s);
        SplitsMatch(p, [pieces[0][1..]] + pieces[1..], s[1..]);
      }
    } else if p[0] == '*' {
      SplitsStar(p[1..], pieces, s);
    } else {
      var n := TokenLength(p);
      var t := Tokens(p)[0];
      assert Tokens(p) == [t] + Tokens(p[n..]);
      UnconsSplits(t, Tokens(p[n..]), pieces, s);
      var rest := Flatten(pieces[1..]);
      assert s[0] == pieces[0][0] && s[1..] == rest by {
        assert |pieces[0]| == 1;
        assert pieces[0] + rest == [pieces[0][0]] + rest;
      }
      SplitsMatch(p[n..], pieces[1..], rest);
    }
  }

  lemma ShorterFirst(t: Token, ts: seq<Token>, pieces: seq<string>, s: string)
    requires Splits([t] + ts, pieces, s) && pieces != [] && pieces[0] != "" && t in {AnyDeep, AnyFlat}
    ensures s != "" && s[0] == pieces[0][0] && Splits([t] + ts, [pieces[0][1..]] + pieces[1..], s[1..])
  {
    UnconsSplits(t, ts, pieces, s);
    var rest := Flatten(pieces[1..]);
    ConsSplits(t, ts, pieces[0][1..], pieces[1..], rest);
    assert (pieces[0] + rest)[1..] == pieces[0][1..] + rest;
  }

  lemma {:induction false} SplitsStar(p: string, pieces: seq<string>, s: string)
    requires Splits([AnyFlat] + Tokens(p), pieces, s)
    ensures MatchStar(p, s)
    decreases |p|, 2, |s|
  {
    UnconsSplits(AnyFlat, Tokens(p), pieces, s);
    if pieces[0] == "" {
      assert "" + Flatten(pieces[1..]) == Flatten(pieces[1..]);
      SplitsMatch(p, pieces[1..], s);
    } else {
      ShorterFirst(AnyFlat, Tokens(p), pieces, s);
      assert pieces[0][0] in pieces[0];
      SplitsStar(p, [pieces[0][1..]] + pieces[1..], s[1..]);
    }
  }

  /** Some way to cut the text suits the tokens. */
  ghost predicate HasSplit(ts: seq<Token>, s: string) {
    exists pieces :: Splits(ts, pieces, s)
  }

  /** Matching is exactly the existence of a split into accepted pieces. */
  lemma MatchIffSplits(p: string, s: string)
    ensures Match(p, s) <==> HasSplit(Tokens(p), s)
  {
    if Match(p, s) {
      var pieces := MatchSplits(p, s);
      assert Splits(Tokens(p), pieces, s);
    }
    if HasSplit(Tokens(p), s) {
      var pieces :| Splits(Tokens(p), pieces, s);
      SplitsMatch(p, pieces, s);
    }
  }

  /** The same for C strings, which end at the first NUL character. */
  lemma GlobMatchIffSplits(pattern: string, str: string)
    ensures GlobMatch(pattern, str) <==> HasSplit(Tokens(CString(pattern)), CString(str))
  {
    MatchIffSplits(CString(pattern), CString(str));
  }

  /** A pattern without special characters matches itself alone. */
  lemma {:induction false} PlainPattern(p: string, s: string)
    requires forall i | 0 <= i < |p| :: p[i] !in "*?["
    ensures Match(p, s) <==> p == s
  {
    if p != "" && s != "" && p[0] == s[0] {
      PlainPattern(p[1..], s[1..]);
      assert p == [p[0]] + p[1..] && s == [s[0]] + s[1..];
    }
  }

  /** `*` matches what has no slash, `**` everything. */
  lemma {:induction false} StarsMatch(s: string)
    ensures Match("*", s) <==> '/' !in s
    ensures Match("**", s)
  {
    StarTokens();
    MatchIffSplits("*", s);
    OneTokenSplits(AnyFlat, s);
    MatchIffSplits("**", s);
    OneTokenSplits(AnyDeep, s);
  }

  lemma StarTokens()
    ensures Tokens("*") == [AnyFlat] && Tokens("**") == [AnyDeep]
  {
    assert "*"[1..] == "" && "**"[2..] == "" && Tokens("") == [];
    assert [AnyFlat] + [] == [AnyFlat] && [AnyDeep] + [] == [AnyDeep];
  }

  lemma {:induction false} OneTokenSplits(t: Token, s: string)
    ensures HasSplit([t], s) <==> Accepts(t, s)
  {
    if Accepts(t, s) {
      assert Flatten([s]) == s + Flatten([]) == s;
      assert Splits([t], [s], s);
    }
    if HasSplit([t], s) {
      var pieces :| Splits([t], pieces, s);
      assert pieces == [pieces[0]] && Accepts([t][0], pieces[0]);
      assert Flatten(pieces) == pieces[0] + Flatten([]) == pieces[0];
    }
  }
}
