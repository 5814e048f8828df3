/**
 `common_chat_msg_delimiters::split`: the tokens of a conversation are cut before every
 delimiter that is not inside a region to be skipped, as far as the scan arrives at the
 beginning of that region.
 */
module MessageSpans {
  import opened Sequences
  import opened Options

  type Token = int

  datatype Role = User | Assistant | System | Tool | Unknown

  datatype Delimiter = Delimiter(role: Role, tokens: seq<Token>)

  /** A region to jump over, as the entries of the source's ordered map. */
  datatype Skip = Skip(start: nat, length: nat)

  datatype Match = Match(role: Role, pos: nat)

  datatype Span = Span(role: Role, pos: nat, length: nat)

  predicate StandsAt(d: Delimiter, tokens: seq<Token>, i: nat) {
    i + |d.tokens| <= |tokens| && tokens[i..i + |d.tokens|] == d.tokens
  }

  /** The role of the first delimiter in the list that stands at `i`. */
  function RoleAt(ds: seq<Delimiter>, tokens: seq<Token>, i: nat): Option<Role> {
    if ds == [] then None
    else if StandsAt(ds[0], tokens, i) then Some(ds[0].role)
    else RoleAt(ds[1..], tokens, i)
  }

  /** The matches from `i` on; a skip counts only when the scan arrives exactly at its start. */
  function Scan(ds: seq<Delimiter>, tokens: seq<Token>, skips: seq<Skip>, i: nat): seq<Match>
    decreases |skips| + (if i < |tokens| then |tokens| - i else 0)
  {
    if i >= |tokens| then []
    else if skips != [] && skips[0].start == i then Scan(ds, tokens, skips[1..], i + skips[0].length)
    else
      match RoleAt(ds, tokens, i)
      case Some(role) => [Match(role, i)] + Scan(ds, tokens, skips, i + 1)
      case None => Scan(ds, tokens, skips, i + 1)
  }

  /** Each match begins a span that reaches to the next match, or to the end. */
  function Spans(matches: seq<Match>, end: nat): seq<Span>
    requires Increasing(matches, end)
  {
    if matches == [] then []
    else [Span(matches[0].role, matches[0].pos, NextPos(matches[1..], end) - matches[0].pos)] + Spans(matches[1..], end)
  }

  function NextPos(matches: seq<Match>, end: nat): nat {
    if matches == [] then end else matches[0].pos
  }

  predicate Increasing(matches: seq<Match>, end: nat) {
    matches == [] || (matches[0].pos < NextPos(matches[1..], end) && Increasing(matches[1..], end))
  }

  function Split(ds: seq<Delimiter>, tokens: seq<Token>, skips: seq<Skip>): seq<Span> {
    ScanIncreases(ds, tokens, skips, 0);
    Spans(Scan(ds, tokens, skips, 0), |tokens|)
  }

  lemma {:induction false} ScanIncreases(ds: seq<Delimiter>, tokens: seq<Token>, skips: seq<Skip>, i: nat)
    ensures var ms := Scan(ds, tokens, skips, i);
            Increasing(ms, |tokens|) && (ms != [] ==> i <= ms[0].pos < |tokens|)
    decreases |skips| + (if i < |tokens| then |tokens| - i else 0)
  {
    if i < |tokens| {
      if skips != [] && skips[0].start == i {
        ScanIncreases(ds, tokens, skips[1..], i + skips[0].length);
      } else {
        ScanIncreases(ds, tokens, skips, i + 1);
      }
    }
  }

  // ----- which positions begin a span -----

  /** The skips come one after the other, from `i` on, without overlapping. */
  predicate Separate(skips: seq<Skip>, i: nat) {
    skips == [] || (i <= skips[0].start && Separate(skips[1..], skips[0].start + skips[0].length))
  }

  predicate Skipped(skips: seq<Skip>, p: nat) {
    skips != [] && (skips[0].start <= p < skips[0].start + skips[0].length || Skipped(skips[1..], p))
  }

  lemma {:induction false} NotSkippedBefore(skips: seq<Skip>, i: nat, p: nat)
    requires Separate(skips, i) && p < i
    ensures !Skipped(skips, p)
  {
    if skips != [] {
      NotSkippedBefore(skips[1..], skips[0].start + skips[0].length, p);
    }
  }

  lemma SeparateLater(skips: seq<Skip>, i: nat)
    requires Separate(skips, i) && (skips != [] ==> skips[0].start != i)
    ensures Separate(skips, i + 1)
  {
  }

  /** A match is recorded exactly where a delimiter stands outside the skipped regions. */
  lemma {:induction false} MatchesAreDelimiters(ds: seq<Delimiter>, tokens: seq<Token>, skips: seq<Skip>, i: nat, m: Match)
    requires Separate(skips, i)
    ensures m in Scan(ds, tokens, skips, i) <==>
            i <= m.pos < |tokens| && !Skipped(skips, m.pos) && RoleAt(ds, tokens, m.pos) == Some(m.role)
    decreases |skips| + (if i < |tokens| then |tokens| - i else 0)
  {
    if i < |tokens| {
      if skips != [] && skips[0].start == i {
        var next := i + skips[0].length;
        MatchesAreDelimiters(ds, tokens, skips[1..], next, m);
        if m.pos < next {
          NotSkippedBefore(skips[1..], next, m.pos);
        }
      } else {
        SeparateLater(skips, i);
        MatchesAreDelimiters(ds, tokens, skips, i + 1, m);
        if m.pos == i {
          NotSkippedBefore(skips, i + 1, i);
        }
      }
    }
  }

  predicate BeginsSpan(spans: seq<Span>, role: Role, p: nat) {
    exists k | 0 <= k < |spans| :: spans[k].role == role && spans[k].pos == p
  }

  lemma {:induction false} SpansBeginAtMatches(ms: seq<Match>, end: nat, m: Match)
    requires Increasing(ms, end)
    ensures |Spans(ms, end)| == |ms|
    ensures BeginsSpan(Spans(ms, end), m.role, m.pos) <==> m in ms
  {
    if ms != [] {
      SpansBeginAtMatches(ms[1..], end, m);
      FirstSpan(Spans(ms, end), m.role, m.pos);
      assert Spans(ms, end)[1..] == Spans(ms[1..], end);
      assert ms == [ms[0]] + ms[1..];
    }
  }

  lemma FirstSpan(spans: seq<Span>, role: Role, p: nat)
    requires spans != []
    ensures BeginsSpan(spans, role, p) <==>
            (spans[0].role == role && spans[0].pos == p) || BeginsSpan(spans[1..], role, p)
  {
    if BeginsSpan(spans[1..], role, p) {
      var k :| 0 <= k < |spans[1..]| && spans[1..][k].role == role && spans[1..][k].pos == p;
      assert spans[k + 1] == spans[1..][k];
    }
    if BeginsSpan(spans, role, p) {
      var k :| 0 <= k < |spans| && spans[k].role == role && spans[k].pos == p;
      assert k > 0 ==> spans[k] == spans[1..][k - 1];
    }
  }

  /**
   The skips that a scan from `i` arrives at: a skip that begins before the end of the one
   before it is passed over, and no skip after it is looked at again.
   */
  function Live(skips: seq<Skip>, i: nat): (live: seq<Skip>)
    ensures Separate(live, i)
  {
    if skips == [] || skips[0].start < i then []
    else [skips[0]] + Live(skips[1..], skips[0].start + skips[0].length)
  }

  lemma LiveLater(skips: seq<Skip>, i: nat)
    requires skips != [] ==> skips[0].start != i
    ensures Live(skips, i + 1) == Live(skips, i)
  {
  }

  /** Only the live skips matter to the scan. */
  lemma {:induction false} ScanIsLive(ds: seq<Delimiter>, tokens: seq<Token>, skips: seq<Skip>, i: nat)
    ensures Scan(ds, tokens, skips, i) == Scan(ds, tokens, Live(skips, i), i)
    decreases |skips| + (if i < |tokens| then |tokens| - i else 0)
  {
    if i < |tokens| {
      if skips != [] && skips[0].start == i {
        var next := i + skips[0].length;
        ScanIsLive(ds, tokens, skips[1..], next);
        assert Live(skips, i)[0] == skips[0] && Live(skips, i)[1..] == Live(skips[1..], next);
      } else {
        ScanIsLive(ds, tokens, skips, i + 1);
        LiveLater(skips, i);
        assert Live(skips, i) != [] ==> Live(skips, i)[0].start != i;
      }
    }
  }

  lemma {:induction false} LiveIsSkipped(skips: seq<Skip>, i: nat, p: nat)
    requires Skipped(Live(skips, i), p)
    ensures Skipped(skips, p)
  {
    var live := Live(skips, i);
    assert live[0] == skips[0] && live[1..] == Live(skips[1..], skips[0].start + skips[0].length);
    if !(skips[0].start <= p < skips[0].start + skips[0].length) {
      LiveIsSkipped(skips[1..], skips[0].start + skips[0].length, p);
    }
  }

  /** Skips that do not overlap are all live. */
  lemma {:induction false} SeparateIsLive(skips: seq<Skip>, i: nat)
    requires Separate(skips, i)
    ensures Live(skips, i) == skips
  {
    if skips != [] {
      SeparateIsLive(skips[1..], skips[0].start + skips[0].length);
      assert [skips[0]] + skips[1..] == skips;
    }
  }

  /** Delimiter `k` is the first in the list that stands at position `i`. */
  predicate IsFirstAt(ds: seq<Delimiter>, tokens: seq<Token>, i: nat, k: nat) {
    k < |ds| && StandsAt(ds[k], tokens, i) && forall j | 0 <= j < k :: !StandsAt(ds[j], tokens, i)
  }

  /** The role at a position is that of the first delimiter in the list that stands there. */
  lemma {:induction false} RoleOfFirst(ds: seq<Delimiter>, tokens: seq<Token>, i: nat, role: Role)
    ensures RoleAt(ds, tokens, i) == Some(role) <==> exists k: nat :: IsFirstAt(ds, tokens, i, k) && ds[k].role == role
  {
    if ds != [] {
      if StandsAt(ds[0], tokens, i) {
        assert IsFirstAt(ds, tokens, i, 0);
      } else {
        RoleOfFirst(ds[1..], tokens, i, role);
        if RoleAt(ds[1..], tokens, i) == Some(role) {
          var k: nat :| IsFirstAt(ds[1..], tokens, i, k) && ds[1..][k].role == role;
          OneLater(ds, tokens, i, k);
          assert ds[k + 1].role == role;
        }
        if exists k: nat :: IsFirstAt(ds, tokens, i, k) && ds[k].role == role {
          var k: nat :| IsFirstAt(ds, tokens, i, k) && ds[k].role == role;
          OneLater(ds, tokens, i, k - 1);
          assert ds[1..][k - 1].role == role;
        }
      }
    }
  }

  lemma OneLater(ds: seq<Delimiter>, tokens: seq<Token>, i: nat, k: nat)
    requires ds != [] && !StandsAt(ds[0], tokens, i)
    ensures IsFirstAt(ds[1..], tokens, i, k) <==> IsFirstAt(ds, tokens, i, k + 1)
  {
    if IsFirstAt(ds[1..], tokens, i, k) {
      forall j | 0 <= j < k + 1 ensures !StandsAt(ds[j], tokens, i) {
        assert j > 0 ==> ds[j] == ds[1..][j - 1];
      }
    }
    if IsFirstAt(ds, tokens, i, k + 1) {
      forall j | 0 <= j < k ensures !StandsAt(ds[1..][j], tokens, i) {
        assert ds[1..][j] == ds[j + 1];
      }
    }
  }

  /** For all skips: a span begins exactly where a delimiter stands outside every live skip, with its role. */
  lemma SpansBeginAtDelimiters(ds: seq<Delimiter>, tokens: seq<Token>, skips: seq<Skip>, role: Role, p: nat)
    ensures BeginsSpan(Split(ds, tokens, skips), role, p) <==>
            p < |tokens| && !Skipped(Live(skips, 0), p) && RoleAt(ds, tokens, p) == Some(role)
  {
    ScanIncreases(ds, tokens, skips, 0);
    ScanIsLive(ds, tokens, skips, 0);
    SpansBeginAtMatches(Scan(ds, tokens, skips, 0), |tokens|, Match(role, p));
    MatchesAreDelimiters(ds, tokens, Live(skips, 0), 0, Match(role, p));
  }

  /** The documented law at one position: a span begins where a delimiter stands outside every skip. */
  predicate AsDocumented(ds: seq<Delimiter>, tokens: seq<Token>, skips: seq<Skip>, role: Role, p: nat) {
    BeginsSpan(Split(ds, tokens, skips), role, p) <==>
    p < |tokens| && !Skipped(skips, p) && RoleAt(ds, tokens, p) == Some(role)
  }

  /** A delimiter stands in a skip that the scan passes over. */
  predicate MissedAt(ds: seq<Delimiter>, tokens: seq<Token>, skips: seq<Skip>, p: nat) {
    p < |tokens| && RoleAt(ds, tokens, p).Some? && Skipped(skips, p) && !Skipped(Live(skips, 0), p)
  }

  lemma DocumentedAt(ds: seq<Delimiter>, tokens: seq<Token>, skips: seq<Skip>, role: Role, p: nat)
    ensures AsDocumented(ds, tokens, skips, role, p) <==>
            !(MissedAt(ds, tokens, skips, p) && RoleAt(ds, tokens, p) == Some(role))
  {
    SpansBeginAtDelimiters(ds, tokens, skips, role, p);
    if Skipped(Live(skips, 0), p) {
      LiveIsSkipped(skips, 0, p);
    }
  }

  /** With skips that are in order and do not overlap the documented law holds at every position. */
  lemma SeparateIsDocumented(ds: seq<Delimiter>, tokens: seq<Token>, skips: seq<Skip>, role: Role, p: nat)
    requires Separate(skips, 0)
    ensures AsDocumented(ds, tokens, skips, role, p)
  {
    SeparateIsLive(skips, 0);
    SpansBeginAtDelimiters(ds, tokens, skips, role, p);
  }

  /** The documented law holds everywhere exactly when no delimiter stands in a skip that is passed over. */
  lemma DocumentedIffNoneMissed(ds: seq<Delimiter>, tokens: seq<Token>, skips: seq<Skip>)
    ensures (forall role: Role, p: nat :: AsDocumented(ds, tokens, skips, role, p)) <==>
            (forall p: nat | p < |tokens| :: !MissedAt(ds, tokens, skips, p))
  {
    forall role: Role, p: nat
      ensures AsDocumented(ds, tokens, skips, role, p) <==>
              !(MissedAt(ds, tokens, skips, p) && RoleAt(ds, tokens, p) == Some(role))
    {
      DocumentedAt(ds, tokens, skips, role, p);
    }
    if forall role: Role, p: nat :: AsDocumented(ds, tokens, skips, role, p) {
      forall p: nat | p < |tokens| ensures !MissedAt(ds, tokens, skips, p) {
        if RoleAt(ds, tokens, p).Some? {
          assert AsDocumented(ds, tokens, skips, RoleAt(ds, tokens, p).value, p);
        }
      }
    }
  }

  // ----- the spans tile the tokens -----

  predicate SpansFit(spans: seq<Span>, end: nat) {
    forall k | 0 <= k < |spans| :: spans[k].pos + spans[k].length <= end
  }

  function TokensOf(spans: seq<Span>, tokens: seq<Token>): seq<Token>
    requires SpansFit(spans, |tokens|)
  {
    if spans == [] then []
    else tokens[spans[0].pos..spans[0].pos + spans[0].length] + TokensOf(spans[1..], tokens)
  }

  lemma {:induction false} PositionsWithin(ms: seq<Match>, end: nat)
    requires Increasing(ms, end)
    ensures NextPos(ms, end) <= end
  {
    if ms != [] {
      PositionsWithin(ms[1..], end);
    }
  }

  lemma PrependSpan(first: Span, rest: seq<Span>, tokens: seq<Token>)
    requires SpansFit(rest, |tokens|) && first.length > 0 && first.pos + first.length <= |tokens|
    requires forall k | 0 <= k < |rest| :: rest[k].length > 0
    requires TokensOf(rest, tokens) == tokens[first.pos + first.length..]
    ensures var spans := [first] + rest;
            SpansFit(spans, |tokens|) && (forall k | 0 <= k < |spans| :: spans[k].length > 0) &&
            TokensOf(spans, tokens) == tokens[first.pos..]
  {
    var a, b := first.pos, first.pos + first.length;
    assert tokens[a..b] + tokens[b..] == tokens[a..];
    assert ([first] + rest)[1..] == rest;
  }

  lemma {:induction false} SpansTileFrom(ms: seq<Match>, tokens: seq<Token>)
    requires Increasing(ms, |tokens|)
    ensures var spans := Spans(ms, |tokens|);
            NextPos(ms, |tokens|) <= |tokens| && SpansFit(spans, |tokens|) &&
            (forall k | 0 <= k < |spans| :: spans[k].length > 0) &&
            TokensOf(spans, tokens) == tokens[NextPos(ms, |tokens|)..]
  {
    if ms != [] {
      PositionsWithin(ms[1..], |tokens|);
      SpansTileFrom(ms[1..], tokens);
      PrependSpan(Span(ms[0].role, ms[0].pos, NextPos(ms[1..], |tokens|) - ms[0].pos), Spans(ms[1..], |tokens|), tokens);
    }
  }

  /** No span is empty, and together they are the tokens from the first delimiter on. */
  lemma SpansTile(ds: seq<Delimiter>, tokens: seq<Token>, skips: seq<Skip>)
    ensures var spans := Split(ds, tokens, skips);
            SpansFit(spans, |tokens|) && (forall k | 0 <= k < |spans| :: spans[k].length > 0) &&
            TokensOf(spans, tokens) ==
            if spans == [] then [] else tokens[spans[0].pos..]
  {
    var ms := Scan(ds, tokens, skips, 0);
    ScanIncreases(ds, tokens, skips, 0);
    SpansTileFrom(ms, tokens);
  }

  /** A skip that begins inside another one is never reached, and neither are those after it. */
  lemma OverlappedSkipIsIgnored()
    ensures var d := Delimiter(User, [7]);
            var skips := [Skip(0, 2), Skip(1, 1), Skip(3, 1)];
            Split([d], [1, 2, 3, 7], skips) == [Span(User, 3, 1)] && MissedAt([d], [1, 2, 3, 7], skips, 3)
  {
    var d := Delimiter(User, [7]);
    var ds, tokens := [d], [1, 2, 3, 7];
    var skips := [Skip(1, 1), Skip(3, 1)];
    assert [Skip(0, 2), Skip(1, 1), Skip(3, 1)][1..] == skips;
    assert tokens[3..4] == [7] && tokens[2..3] == [3] && ds[1..] == [];
    assert RoleAt(ds, tokens, 3) == Some(User) && RoleAt(ds, tokens, 2) == None;
    assert Scan(ds, tokens, skips, 4) == [];
    assert Scan(ds, tokens, skips, 3) == [Match(User, 3)];
    assert Scan(ds, tokens, skips, 2) == [Match(User, 3)];
    assert Scan(ds, tokens, [Skip(0, 2), Skip(1, 1), Skip(3, 1)], 0) == [Match(User, 3)];
    assert [Match(User, 3)][1..] == [];
    var all := [Skip(0, 2), Skip(1, 1), Skip(3, 1)];
    assert Live(skips, 2) == [] && Live(all, 0) == [Skip(0, 2)];
    assert skips[1..] == [Skip(3, 1)] && [Skip(0, 2)][1..] == [];
  }

  // ----- the loops of the source -----

  method FindMatches(ds: seq<Delimiter>, tokens: seq<Token>, skips: seq<Skip>) returns (matches: seq<Match>)
    ensures matches == Scan(ds, tokens, skips, 0)
  {
    matches := [];
    var i: nat, skip: nat := 0, 0;
    ghost var whole := Scan(ds, tokens, skips, 0);
    assert skips[0..] == skips;
    while i < |tokens|
      invariant skip <= |skips|
      invariant whole == matches + Scan(ds, tokens, skips[skip..], i)
      decreases |skips| - skip + (if i < |tokens| then |tokens| - i else 0)
    {
      ghost var rest := skips[skip..];
      if skip < |skips| && i == skips[skip].start {
        assert rest[0] == skips[skip] && rest[1..] == skips[skip + 1..];
        i := i + skips[skip].length;
        skip := skip + 1;
        continue;
      }
      var role := FindRole(ds, tokens, i);
      if role.Some? {
        Regroup(matches, [Match(role.value, i)], Scan(ds, tokens, rest, i + 1));
        matches := matches + [Match(role.value, i)];
      }
      i := i + 1;
    }
  }

  method FindRole(ds: seq<Delimiter>, tokens: seq<Token>, i: nat) returns (role: Option<Role>)
    ensures role == RoleAt(ds, tokens, i)
  {
    assert ds[0..] == ds;
    for k := 0 to |ds|
      invariant RoleAt(ds, tokens, i) == RoleAt(ds[k..], tokens, i)
    {
      assert ds[k..][0] == ds[k] && ds[k..][1..] == ds[k + 1..];
      if i + |ds[k].tokens| > |tokens| {
        continue;
      }
      if tokens[i..i + |ds[k].tokens|] == ds[k].tokens {
        return Some(ds[k].role);
      }
    }
    role := None;
  }

  lemma {:induction false} IncreasingFrom(ms: seq<Match>, end: nat, k: nat)
    requires Increasing(ms, end) && k <= |ms|
    ensures Increasing(ms[k..], end)
  {
    if k > 0 {
      IncreasingFrom(ms[1..], end, k - 1);
      assert ms[1..][k - 1..] == ms[k..];
    } else {
      assert ms[0..] == ms;
    }
  }

  method SplitTokens(ds: seq<Delimiter>, tokens: seq<Token>, skips: seq<Skip>) returns (spans: seq<Span>)
    ensures spans == Split(ds, tokens, skips)
  {
    var found := FindMatches(ds, tokens, skips);
    var matches := found + [Match(Unknown, |tokens|)];
    spans := [];
    ScanIncreases(ds, tokens, skips, 0);
    assert found[0..] == found;
    var i := 0;
    while i + 1 < |matches|
      invariant i <= |found|
      invariant Increasing(found[i..], |tokens|)
      invariant Split(ds, tokens, skips) == spans + Spans(found[i..], |tokens|)
    {
      ghost var rest := found[i..];
      IncreasingFrom(rest, |tokens|, 1);
      assert rest[1..] == found[i + 1..];
      assert matches[i] == rest[0] && matches[i + 1].pos == NextPos(rest[1..], |tokens|);
      spans := spans + [Span(matches[i].role, matches[i].pos, matches[i + 1].pos - matches[i].pos)];
      i := i + 1;
    }
  }
}
