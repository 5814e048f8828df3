/**
 `deepseek_v4_sort_tool_results`: within each run of user and tool messages, the tool
 messages are put in the order in which the last assistant message made the calls. Every
 other message stays where it is, and tool messages with the same place in that order keep
 the order in which they stood.
 */
module ToolResultOrder {
  import opened Sequences

  datatype Role = Assistant | User | Tool | OtherRole

  /** A message: `calls` are the ids of its tool calls, `callId` the call it answers. */
  datatype Message = Message(role: Role, callId: string, calls: seq<string>, text: string)

  type Order = map<string, nat>

  predicate MakesCalls(m: Message) {
    m.role == Assistant && m.calls != []
  }

  /** `call_order` after an assistant message: a later call with the same id wins, empty ids are skipped. */
  function OrderOf(calls: seq<string>): Order {
    if calls == [] then map[]
    else
      var n := |calls| - 1;
      if calls[n] == "" then OrderOf(calls[..n]) else OrderOf(calls[..n])[calls[n] := n]
  }

  function Rank(order: Order, m: Message): nat {
    if m.callId in order then order[m.callId] else 0
  }

  predicate InRun(m: Message) {
    m.role in {User, Tool}
  }

  // ----- the stable sort -----

  predicate IsSorted(order: Order, ms: seq<Message>) {
    forall j, k | 0 <= j < k < |ms| :: Rank(order, ms[j]) <= Rank(order, ms[k])
  }

  /** The messages of one rank, in the order they have in the list. */
  function OfRank(order: Order, r: nat, ms: seq<Message>): seq<Message> {
    if ms == [] then []
    else if Rank(order, ms[0]) == r then [ms[0]] + OfRank(order, r, ms[1..])
    else OfRank(order, r, ms[1..])
  }

  /** `std::stable_sort` by rank: insertion after every message of the same rank. */
  function StableSort(order: Order, ms: seq<Message>): seq<Message> {
    if ms == [] then [] else Insert(order, ms[0], StableSort(order, ms[1..]))
  }

  /** `m` stood before all of `ms`: it goes before the first that is not smaller. */
  function Insert(order: Order, m: Message, ms: seq<Message>): seq<Message> {
    if ms == [] || Rank(order, m) <= Rank(order, ms[0]) then [m] + ms
    else [ms[0]] + Insert(order, m, ms[1..])
  }

  predicate AtLeast(order: Order, r: nat, ms: seq<Message>) {
    forall k | 0 <= k < |ms| :: r <= Rank(order, ms[k])
  }

  lemma {:induction false} BoundInserted(order: Order, m: Message, ms: seq<Message>, r: nat)
    requires AtLeast(order, r, ms) && r <= Rank(order, m)
    ensures AtLeast(order, r, Insert(order, m, ms))
  {
    if ms != [] {
      BoundInserted(order, m, ms[1..], r);
    }
  }

  lemma {:induction false} InsertSorts(order: Order, m: Message, ms: seq<Message>)
    requires IsSorted(order, ms)
    ensures IsSorted(order, Insert(order, m, ms))
  {
    if ms != [] && Rank(order, ms[0]) < Rank(order, m) {
      InsertSorts(order, m, ms[1..]);
      BoundInserted(order, m, ms[1..], Rank(order, ms[0]));
    }
  }

  lemma {:induction false} InsertAdds(order: Order, m: Message, ms: seq<Message>)
    ensures multiset(Insert(order, m, ms)) == multiset{m} + multiset(ms)
  {
    if ms != [] {
      assert ms == [ms[0]] + ms[1..];
      InsertAdds(order, m, ms[1..]);
    }
  }

  lemma {:induction false} InsertKeepsRanks(order: Order, m: Message, ms: seq<Message>, r: nat)
    requires IsSorted(order, ms)
    ensures OfRank(order, r, Insert(order, m, ms)) == OfRank(order, r, [m] + ms)
  {
    assert ([m] + ms)[1..] == ms;
    if ms != [] && Rank(order, ms[0]) < Rank(order, m) {
      InsertKeepsRanks(order, m, ms[1..], r);
      assert ([m] + ms[1..])[1..] == ms[1..];
      assert ([ms[0]] + Insert(order, m, ms[1..]))[1..] == Insert(order, m, ms[1..]);
    }
  }

  /** The sort is sorted, a permutation, and keeps messages of equal rank in order. */
  lemma {:induction false} StableSortIsStable(order: Order, ms: seq<Message>)
    ensures var t := StableSort(order, ms);
            |t| == |ms| && IsSorted(order, t) && multiset(t) == multiset(ms) &&
            forall r: nat :: OfRank(order, r, t) == OfRank(order, r, ms)
  {
    if ms != [] {
      StableSortIsStable(order, ms[1..]);
      InsertSorts(order, ms[0], StableSort(order, ms[1..]));
      InsertAdds(order, ms[0], StableSort(order, ms[1..]));
      assert ms == [ms[0]] + ms[1..];
      assert |multiset(StableSort(order, ms))| == |multiset(ms)|;
      forall r: nat ensures OfRank(order, r, StableSort(order, ms)) == OfRank(order, r, ms) {
        InsertKeepsRanks(order, ms[0], StableSort(order, ms[1..]), r);
        assert ([ms[0]] + StableSort(order, ms[1..]))[1..] == StableSort(order, ms[1..]);
      }
    }
  }

  /** A sorted list stays as it is. */
  lemma {:induction false} SortedIsFixed(order: Order, ms: seq<Message>)
    requires IsSorted(order, ms)
    ensures StableSort(order, ms) == ms
  {
    if ms != [] {
      SortedIsFixed(order, ms[1..]);
      assert [ms[0]] + ms[1..] == ms;
    }
  }

  // ----- runs -----

  function CountTools(ms: seq<Message>): nat {
    if ms == [] then 0 else CountTools(ms[..|ms| - 1]) + (if ms[|ms| - 1].role == Tool then 1 else 0)
  }

  /** The tool messages of a list, in order. */
  function ToolsOf(ms: seq<Message>): (ts: seq<Message>)
    ensures |ts| == CountTools(ms)
  {
    if ms == [] then []
    else
      var n := |ms| - 1;
      if ms[n].role == Tool then ToolsOf(ms[..n]) + [ms[n]] else ToolsOf(ms[..n])
  }

  /** `run` with its tool messages replaced, in order, by `tools`. */
  function Fill(run: seq<Message>, tools: seq<Message>): (r: seq<Message>)
    requires |tools| == CountTools(run)
    ensures |r| == |run|
  {
    if run == [] then []
    else
      var n := |run| - 1;
      if run[n].role == Tool then Fill(run[..n], tools[..|tools| - 1]) + [tools[|tools| - 1]]
      else Fill(run[..n], tools) + [run[n]]
  }

  function SortRun(order: Order, run: seq<Message>): seq<Message> {
    StableSortIsStable(order, ToolsOf(run));
    Fill(run, StableSort(order, ToolsOf(run)))
  }

  /** The length of the run of user and tool messages at the beginning. */
  function RunLength(ms: seq<Message>): (n: nat)
    ensures n <= |ms|
  {
    if ms != [] && InRun(ms[0]) then 1 + RunLength(ms[1..]) else 0
  }

  /** The messages from here on, when `order` is the current call order. */
  function SortFrom(order: Order, ms: seq<Message>): seq<Message>
    decreases |ms|
  {
    if ms == [] then []
    else if MakesCalls(ms[0]) then [ms[0]] + SortFrom(OrderOf(ms[0].calls), ms[1..])
    else if !InRun(ms[0]) then [ms[0]] + SortFrom(order, ms[1..])
    else SortRun(order, ms[..RunLength(ms)]) + SortFrom(order, ms[RunLength(ms)..])
  }

  function SortToolResults(ms: seq<Message>): seq<Message> {
    SortFrom(map[], ms)
  }

  // ----- facts about filling -----

  lemma {:induction false} CountPrefix(ms: seq<Message>, p: nat)
    requires p < |ms| && ms[p].role == Tool
    ensures CountTools(ms[..p]) < CountTools(ms)
    decreases |ms|
  {
    var n := |ms| - 1;
    if p < n {
      CountPrefix(ms[..n], p);
      assert ms[..n][..p] == ms[..p];
    }
  }

  /** Position by position: non-tool messages stay, the k-th tool message becomes the k-th of `tools`. */
  lemma {:induction false} FillAt(run: seq<Message>, tools: seq<Message>, p: nat)
    requires |tools| == CountTools(run) && p < |run|
    ensures run[p].role == Tool ==> CountTools(run[..p]) < |tools|
    ensures Fill(run, tools)[p] == if run[p].role == Tool then tools[CountTools(run[..p])] else run[p]
    decreases |run|
  {
    var n := |run| - 1;
    if run[p].role == Tool {
      CountPrefix(run, p);
    }
    if p < n {
      FillAt(run[..n], if run[n].role == Tool then tools[..|tools| - 1] else tools, p);
      assert run[..n][..p] == run[..p];
    }
  }

  predicate AllTools(ms: seq<Message>) {
    forall i | 0 <= i < |ms| :: ms[i].role == Tool
  }

  lemma {:induction false} ToolsAreTools(ms: seq<Message>)
    ensures AllTools(ToolsOf(ms))
  {
    if ms != [] {
      ToolsAreTools(ms[..|ms| - 1]);
    }
  }

  /** The tool messages filled in are the tool messages of the result. */
  lemma {:induction false} FillTools(run: seq<Message>, tools: seq<Message>)
    requires |tools| == CountTools(run) && AllTools(tools)
    ensures ToolsOf(Fill(run, tools)) == tools
  {
    if run != [] {
      var n := |run| - 1;
      if run[n].role == Tool {
        var m := |tools| - 1;
        FillTools(run[..n], tools[..m]);
        ToolsOfLonger(Fill(run[..n], tools[..m]), tools[m]);
        LastApart(tools);
        assert Fill(run, tools) == Fill(run[..n], tools[..m]) + [tools[m]];
      } else {
        FillTools(run[..n], tools);
        ToolsOfLonger(Fill(run[..n], tools), run[n]);
      }
    }
  }

  lemma ToolsOfLonger(ms: seq<Message>, m: Message)
    ensures ToolsOf(ms + [m]) == if m.role == Tool then ToolsOf(ms) + [m] else ToolsOf(ms)
  {
    assert (ms + [m])[..|ms|] == ms;
  }

  /** Filling exchanges the tool messages of the run for the new ones. */
  lemma {:induction false} FillExchanges(run: seq<Message>, tools: seq<Message>)
    requires |tools| == CountTools(run)
    ensures multiset(Fill(run, tools)) + multiset(ToolsOf(run)) == multiset(run) + multiset(tools)
  {
    if run != [] {
      var n := |run| - 1;
      assert run == run[..n] + [run[n]];
      if run[n].role == Tool {
        FillExchanges(run[..n], tools[..|tools| - 1]);
        ToolExchanges(run, tools);
      } else {
        FillExchanges(run[..n], tools);
        Exchange(multiset(Fill(run[..n], tools)), multiset(ToolsOf(run)), multiset(run[..n]), multiset(tools),
                 multiset{run[n]}, multiset{});
      }
    }
  }

  lemma {:induction false} ToolExchanges(run: seq<Message>, tools: seq<Message>)
    requires run != [] && run[|run| - 1].role == Tool && |tools| == CountTools(run)
    requires var r, t := run[..|run| - 1], tools[..|tools| - 1];
             multiset(Fill(r, t)) + multiset(ToolsOf(r)) == multiset(r) + multiset(t)
    ensures multiset(Fill(run, tools)) + multiset(ToolsOf(run)) == multiset(run) + multiset(tools)
  {
    var n, m := |run| - 1, |tools| - 1;
    LastApart(run);
    LastApart(tools);
    assert Fill(run, tools) == Fill(run[..n], tools[..m]) + [tools[m]];
    assert ToolsOf(run) == ToolsOf(run[..n]) + [run[n]];
    AppendExchanges(Fill(run[..n], tools[..m]), ToolsOf(run[..n]), run[..n], tools[..m], tools[m], run[n]);
  }

  lemma LastApart(s: seq<Message>)
    requires s != []
    ensures s == s[..|s| - 1] + [s[|s| - 1]]
  {
  }

  lemma AppendExchanges(a: seq<Message>, b: seq<Message>, c: seq<Message>, d: seq<Message>, x: Message, y: Message)
    requires multiset(a) + multiset(b) == multiset(c) + multiset(d)
    ensures multiset(a + [x]) + multiset(b + [y]) == multiset(c + [y]) + multiset(d + [x])
  {
    Exchange(multiset(a), multiset(b), multiset(c), multiset(d), multiset{x}, multiset{y});
  }

  lemma Exchange(a: multiset<Message>, b: multiset<Message>, c: multiset<Message>, d: multiset<Message>,
                 x: multiset<Message>, y: multiset<Message>)
    requires a + b == c + d
    ensures (a + x) + (b + y) == (c + y) + (d + x)
    ensures y == multiset{} ==> (a + x) + b == (c + x) + d
  {
    forall m: Message ensures ((a + x) + (b + y))[m] == ((c + y) + (d + x))[m] {
      assert (a + b)[m] == (c + d)[m];
    }
    forall m: Message ensures ((a + x) + b)[m] == ((c + x) + d)[m] {
      assert (a + b)[m] == (c + d)[m];
    }
  }

  lemma Cancel(a: multiset<Message>, b: multiset<Message>, c: multiset<Message>)
    requires a + c == b + c
    ensures a == b
  {
    forall m: Message ensures a[m] == b[m] {
      assert (a + c)[m] == (b + c)[m];
    }
  }

  lemma {:induction false} FillOwnTools(run: seq<Message>)
    ensures Fill(run, ToolsOf(run)) == run
  {
    if run != [] {
      FillOwnTools(run[..|run| - 1]);
      assert run == run[..|run| - 1] + [run[|run| - 1]];
      var n := |run| - 1;
      if run[n].role == Tool {
        assert ToolsOf(run)[..|ToolsOf(run)| - 1] == ToolsOf(run[..n]);
      }
    }
  }

  lemma {:induction false} FillTwice(run: seq<Message>, tools: seq<Message>, again: seq<Message>)
    requires |tools| == CountTools(run) && |again| == |tools| && AllTools(tools)
    ensures CountTools(Fill(run, tools)) == CountTools(run)
    ensures Fill(Fill(run, tools), again) == Fill(run, again)
  {
    FillTools(run, tools);
    if run != [] {
      var n := |run| - 1;
      if run[n].role == Tool {
        var m := |tools| - 1;
        FillTwice(run[..n], tools[..m], again[..m]);
        assert Fill(run, tools)[..n] == Fill(run[..n], tools[..m]);
      } else {
        FillTwice(run[..n], tools, again);
        assert Fill(run, tools)[..n] == Fill(run[..n], tools);
      }
    }
  }

  lemma {:induction false} SortedToolsAreTools(order: Order, run: seq<Message>)
    ensures AllTools(StableSort(order, ToolsOf(run)))
  {
    var ts := ToolsOf(run);
    var t := StableSort(order, ts);
    ToolsAreTools(run);
    StableSortIsStable(order, ts);
    forall i | 0 <= i < |t| ensures t[i].role == Tool {
      assert t[i] in multiset(t);
      assert t[i] in ts;
    }
  }

  /** Sorting a run permutes it and sorts its tool messages stably. */
  lemma {:induction false} RunSorted(order: Order, run: seq<Message>)
    ensures multiset(SortRun(order, run)) == multiset(run)
    ensures ToolsOf(SortRun(order, run)) == StableSort(order, ToolsOf(run))
  {
    var ts := ToolsOf(run);
    var t := StableSort(order, ts);
    StableSortIsStable(order, ts);
    SortedToolsAreTools(order, run);
    FillTools(run, t);
    FillExchanges(run, t);
    Cancel(multiset(Fill(run, t)), multiset(run), multiset(ts));
  }

  /** Messages of other roles stay in place; tool messages move to places of tool messages. */
  lemma {:induction false} RunKeepsPlaces(order: Order, run: seq<Message>, p: nat)
    requires p < |run|
    ensures |SortRun(order, run)| == |run|
    ensures run[p].role != Tool ==> SortRun(order, run)[p] == run[p]
    ensures run[p].role == Tool ==> SortRun(order, run)[p].role == Tool
  {
    StableSortIsStable(order, ToolsOf(run));
    SortedToolsAreTools(order, run);
    FillAt(run, StableSort(order, ToolsOf(run)), p);
  }

  /** Sorting a run again changes nothing. */
  lemma {:induction false} RunFixed(order: Order, run: seq<Message>)
    ensures SortRun(order, SortRun(order, run)) == SortRun(order, run)
  {
    var t := StableSort(order, ToolsOf(run));
    StableSortIsStable(order, ToolsOf(run));
    SortedToolsAreTools(order, run);
    FillTools(run, t);
    FillTwice(run, t, t);
    SortedIsFixed(order, t);
  }

  // ----- whole conversations -----

  /** The call order after `ms`: that of the latest assistant message with tool calls. */
  function OrderAfter(order: Order, ms: seq<Message>): Order {
    if ms == [] then order
    else if MakesCalls(ms[|ms| - 1]) then OrderOf(ms[|ms| - 1].calls)
    else OrderAfter(order, ms[..|ms| - 1])
  }

  predicate AllInRun(ms: seq<Message>) {
    forall k | 0 <= k < |ms| :: InRun(ms[k])
  }

  /** No run of user and tool messages crosses from `a` into `b`. */
  predicate RunsPart(a: seq<Message>, b: seq<Message>) {
    a == [] || b == [] || !InRun(a[|a| - 1]) || !InRun(b[0])
  }

  lemma {:induction false} OrderAfterAppend(order: Order, a: seq<Message>, b: seq<Message>)
    ensures OrderAfter(order, a + b) == OrderAfter(OrderAfter(order, a), b)
  {
    if b == [] {
      assert a + b == a;
    } else {
      assert (a + b)[..|a + b| - 1] == a + b[..|b| - 1];
      OrderAfterAppend(order, a, b[..|b| - 1]);
    }
  }

  lemma {:induction false} OrderAfterRun(order: Order, run: seq<Message>)
    requires AllInRun(run)
    ensures OrderAfter(order, run) == order
  {
    if run != [] {
      OrderAfterRun(order, run[..|run| - 1]);
    }
  }

  lemma {:induction false} RunLengthIsMaximal(ms: seq<Message>)
    ensures AllInRun(ms[..RunLength(ms)])
    ensures RunLength(ms) < |ms| ==> !InRun(ms[RunLength(ms)])
  {
    if ms != [] && InRun(ms[0]) {
      RunLengthIsMaximal(ms[1..]);
      var n := RunLength(ms[1..]);
      assert ms[..1 + n] == [ms[0]] + ms[1..][..n];
    }
  }

  lemma {:induction false} RunLengthAppend(a: seq<Message>, b: seq<Message>)
    requires a != [] && RunsPart(a, b)
    ensures RunLength(a + b) == RunLength(a)
  {
    if |a| == 1 {
      assert (a + b)[1..] == b;
    } else {
      assert (a + b)[1..] == a[1..] + b;
      RunLengthAppend(a[1..], b);
    }
  }

  lemma InRunAt(ms: seq<Message>, n: nat, k: nat)
    requires k < n <= |ms| && AllInRun(ms[..n])
    ensures InRun(ms[k])
  {
    assert ms[..n][k] == ms[k];
  }

  lemma {:induction false} RunLengthIs(ms: seq<Message>, n: nat)
    requires n <= |ms| && AllInRun(ms[..n]) && (n < |ms| ==> !InRun(ms[n]))
    ensures RunLength(ms) == n
  {
    RunLengthIsMaximal(ms);
    var k := RunLength(ms);
    if k < n {
      InRunAt(ms, n, k);
    } else if n < k {
      InRunAt(ms, k, n);
    }
  }

  lemma RunHasItsLength(order: Order, run: seq<Message>)
    ensures |SortRun(order, run)| == |run|
    ensures |StableSort(order, ToolsOf(run))| == CountTools(run)
  {
    StableSortIsStable(order, ToolsOf(run));
  }

  lemma {:induction false} SortFromLength(order: Order, ms: seq<Message>)
    ensures |SortFrom(order, ms)| == |ms|
    decreases |ms|
  {
    if ms != [] {
      if MakesCalls(ms[0]) {
        SortFromLength(OrderOf(ms[0].calls), ms[1..]);
      } else if !InRun(ms[0]) {
        SortFromLength(order, ms[1..]);
      } else {
        var n := RunLength(ms);
        RunHasItsLength(order, ms[..n]);
        SortFromLength(order, ms[n..]);
      }
    }
  }

  /** The result has the messages of the conversation, each as often. */
  lemma {:induction false} SortFromPermutes(order: Order, ms: seq<Message>)
    ensures multiset(SortFrom(order, ms)) == multiset(ms)
    decreases |ms|
  {
    if ms != [] {
      assert ms == [ms[0]] + ms[1..];
      if MakesCalls(ms[0]) {
        SortFromPermutes(OrderOf(ms[0].calls), ms[1..]);
      } else if !InRun(ms[0]) {
        SortFromPermutes(order, ms[1..]);
      } else {
        var n := RunLength(ms);
        assert ms == ms[..n] + ms[n..];
        RunSorted(order, ms[..n]);
        SortFromPermutes(order, ms[n..]);
      }
    }
  }

  /** Position `p` of a run followed by something else. */
  predicate KeptAt(before: Message, after: Message) {
    (before.role != Tool ==> after == before) && (before.role == Tool ==> after.role == Tool)
  }

  lemma {:induction false} SortFromKeepsPlaces(order: Order, ms: seq<Message>, p: nat)
    requires p < |ms|
    ensures |SortFrom(order, ms)| == |ms| && KeptAt(ms[p], SortFrom(order, ms)[p])
    decreases |ms|
  {
    SortFromLength(order, ms);
    if !InRun(ms[0]) {
      var next := if MakesCalls(ms[0]) then OrderOf(ms[0].calls) else order;
      if p > 0 {
        SortFromKeepsPlaces(next, ms[1..], p - 1);
      }
    } else {
      var n := RunLength(ms);
      RunHasItsLength(order, ms[..n]);
      if p < n {
        RunKeepsPlaces(order, ms[..n], p);
      } else {
        SortFromKeepsPlaces(order, ms[n..], p - n);
      }
    }
  }

  /** A conversation is sorted piece by piece where no run is cut. */
  lemma {:induction false} SortFromAppend(order: Order, a: seq<Message>, b: seq<Message>)
    requires RunsPart(a, b)
    ensures SortFrom(order, a + b) == SortFrom(order, a) + SortFrom(OrderAfter(order, a), b)
    decreases |a|
  {
    if a == [] {
      assert a + b == b;
    } else {
      var (head, rest, next) := Head(order, a);
      HeadAppend(order, a, b);
      OrderAfterHead(order, a);
      SortFromAppend(next, rest, b);
      Regroup(head, SortFrom(next, rest), SortFrom(OrderAfter(order, a), b));
    }
  }

  /** What sorting does first, what is left then, and the order for the rest. */
  function Head(order: Order, ms: seq<Message>): (r: (seq<Message>, seq<Message>, Order))
    requires ms != []
    ensures |r.1| < |ms|
    ensures SortFrom(order, ms) == r.0 + SortFrom(r.2, r.1)
  {
    if MakesCalls(ms[0]) then ([ms[0]], ms[1..], OrderOf(ms[0].calls))
    else if !InRun(ms[0]) then ([ms[0]], ms[1..], order)
    else (SortRun(order, ms[..RunLength(ms)]), ms[RunLength(ms)..], order)
  }

  lemma {:induction false} HeadAppend(order: Order, a: seq<Message>, b: seq<Message>)
    requires a != [] && RunsPart(a, b)
    ensures var (head, rest, next) := Head(order, a);
            Head(order, a + b) == (head, rest + b, next) && RunsPart(rest, b)
  {
    RunLengthAppend(a, b);
    SplitAppend(a, b, if InRun(a[0]) then RunLength(a) else 1);
  }

  lemma SplitAppend(a: seq<Message>, b: seq<Message>, n: nat)
    requires 0 < n <= |a| && RunsPart(a, b)
    ensures (a + b)[..n] == a[..n] && (a + b)[n..] == a[n..] + b && (a + b)[0] == a[0] && RunsPart(a[n..], b)
  {
  }

  lemma OrderAfterHead(order: Order, a: seq<Message>)
    requires a != []
    ensures var (head, rest, next) := Head(order, a);
            OrderAfter(order, a) == OrderAfter(next, rest)
  {
    var n := if InRun(a[0]) then RunLength(a) else 1;
    assert a == a[..n] + a[n..];
    OrderAfterAppend(order, a[..n], a[n..]);
    if InRun(a[0]) {
      RunLengthIsMaximal(a);
      OrderAfterRun(order, a[..n]);
    } else {
      assert a[..1] == [a[0]];
      assert OrderAfter(order, a[..1][..0]) == order;
    }
  }

  /** Sorting a second time changes nothing: the runs and the call orders are where they were. */
  lemma {:induction false} SortFromFixed(order: Order, ms: seq<Message>)
    ensures SortFrom(order, SortFrom(order, ms)) == SortFrom(order, ms)
    decreases |ms|
  {
    if ms != [] {
      if !InRun(ms[0]) {
        var next := if MakesCalls(ms[0]) then OrderOf(ms[0].calls) else order;
        SortFromFixed(next, ms[1..]);
        var t := SortFrom(next, ms[1..]);
        assert ([ms[0]] + t)[1..] == t;
      } else {
        var n := RunLength(ms);
        var run := SortRun(order, ms[..n]);
        var rest := SortFrom(order, ms[n..]);
        RunLengthIsMaximal(ms);
        RunHasItsLength(order, ms[..n]);
        SortedRunIsRun(order, ms[..n]);
        RestStarts(order, ms[n..]);
        SplitRun(run, rest);
        RunFixed(order, ms[..n]);
        SortFromFixed(order, ms[n..]);
        assert InRun(run[0]);
        assert (run + rest)[0] == run[0];
        assert SortFrom(order, run + rest) == SortRun(order, run) + SortFrom(order, rest);
      }
    }
  }

  lemma SortedRunIsRun(order: Order, run: seq<Message>)
    requires AllInRun(run)
    ensures |SortRun(order, run)| == |run| && AllInRun(SortRun(order, run))
  {
    RunHasItsLength(order, run);
    forall p | 0 <= p < |run| ensures InRun(SortRun(order, run)[p]) {
      RunKeepsPlaces(order, run, p);
    }
  }

  lemma RestStarts(order: Order, ms: seq<Message>)
    requires ms != [] ==> !InRun(ms[0])
    ensures SortFrom(order, ms) != [] ==> !InRun(SortFrom(order, ms)[0])
  {
  }

  lemma SplitRun(run: seq<Message>, rest: seq<Message>)
    requires AllInRun(run) && (rest != [] ==> !InRun(rest[0]))
    ensures RunLength(run + rest) == |run|
    ensures (run + rest)[..|run|] == run && (run + rest)[|run|..] == rest
  {
    assert (run + rest)[..|run|] == run;
    RunLengthIs(run + rest, |run|);
  }

  // ----- the promises of the reordering -----

  /** The conversation is permuted, and only places of tool messages are touched. */
  lemma SortingPermutes(ms: seq<Message>)
    ensures multiset(SortToolResults(ms)) == multiset(ms)
    ensures |SortToolResults(ms)| == |ms|
    ensures forall p | 0 <= p < |ms| :: KeptAt(ms[p], SortToolResults(ms)[p])
  {
    SortFromPermutes(map[], ms);
    SortFromLength(map[], ms);
    forall p | 0 <= p < |ms| ensures KeptAt(ms[p], SortToolResults(ms)[p]) {
      SortFromKeepsPlaces(map[], ms, p);
    }
  }

  /** Each maximal run keeps its own tool messages, sorted by the latest call order and stably. */
  lemma RunsAreSorted(before: seq<Message>, run: seq<Message>, after: seq<Message>)
    requires run != [] && AllInRun(run) && RunsPart(before, run) && RunsPart(run, after)
    ensures var order := OrderAfter(map[], before);
            var sorted := SortRun(order, run);
            SortToolResults(before + run + after) == SortToolResults(before) + sorted + SortFrom(order, after) &&
            IsSorted(order, ToolsOf(sorted)) && multiset(ToolsOf(sorted)) == multiset(ToolsOf(run)) &&
            forall r: nat :: OfRank(order, r, ToolsOf(sorted)) == OfRank(order, r, ToolsOf(run))
  {
    var order := OrderAfter(map[], before);
    Regroup(before, run, after);
    SortFromAppend(map[], before, run + after);
    SortFromAppend(order, run, after);
    OrderAfterRun(order, run);
    WholeRun(order, run);
    Regroup(SortToolResults(before), SortRun(order, run), SortFrom(order, after));
    RunSorted(order, run);
    StableSortIsStable(order, ToolsOf(run));
  }

  lemma WholeRun(order: Order, run: seq<Message>)
    requires run != [] && AllInRun(run)
    ensures SortFrom(order, run) == SortRun(order, run)
  {
    assert run[..|run|] == run;
    RunLengthIs(run, |run|);
  }

  lemma SortingIsIdempotent(ms: seq<Message>)
    ensures SortToolResults(SortToolResults(ms)) == SortToolResults(ms)
  {
    SortFromFixed(map[], ms);
  }

  /** The latest order of an id is the place of its last call; other ids have rank 0. */
  lemma {:induction false} OrderOfIsLastCall(calls: seq<string>, id: string)
    ensures id in OrderOf(calls) <==> id != "" && id in calls
    ensures id in OrderOf(calls) ==>
              OrderOf(calls)[id] < |calls| && calls[OrderOf(calls)[id]] == id &&
              forall k | OrderOf(calls)[id] < k < |calls| :: calls[k] != id
  {
    if calls != [] {
      var n := |calls| - 1;
      OrderOfIsLastCall(calls[..n], id);
      assert calls == calls[..n] + [calls[n]];
    }
  }

  // ----- the loops of the source -----

  /** The positions of the tool messages. */
  function Positions(ms: seq<Message>): (ps: seq<nat>)
    ensures |ps| == CountTools(ms)
  {
    if ms == [] then []
    else
      var n := |ms| - 1;
      if ms[n].role == Tool then Positions(ms[..n]) + [n] else Positions(ms[..n])
  }

  lemma {:induction false} PositionsAt(ms: seq<Message>, k: nat)
    requires k < CountTools(ms)
    ensures var p := Positions(ms)[k];
            p < |ms| && ms[p].role == Tool && CountTools(ms[..p]) == k && ToolsOf(ms)[k] == ms[p]
  {
    if ms != [] {
      var n := |ms| - 1;
      if k < CountTools(ms[..n]) {
        PositionsAt(ms[..n], k);
        assert ms[..n][..Positions(ms)[k]] == ms[..Positions(ms)[k]];
      }
    }
  }

  lemma {:induction false} PositionOf(ms: seq<Message>, p: nat)
    requires p < |ms| && ms[p].role == Tool
    ensures CountTools(ms[..p]) < CountTools(ms) && Positions(ms)[CountTools(ms[..p])] == p
  {
    CountPrefix(ms, p);
    var n := |ms| - 1;
    if p < n {
      PositionOf(ms[..n], p);
      assert ms[..n][..p] == ms[..p];
    }
  }

  /** The first `k` tool places of `was` hold the first `k` of `tools`; all other places are as they were. */
  predicate Written(was: seq<Message>, tools: seq<Message>, k: nat, now: seq<Message>)
    requires |tools| == CountTools(was) == |Positions(was)|
  {
    |now| == |was| &&
    forall p | 0 <= p < |was| ::
      now[p] == if was[p].role == Tool && CountTools(was[..p]) < k <= |tools| then TakeAt(tools, CountTools(was[..p])) else was[p]
  }

  function TakeAt(tools: seq<Message>, k: nat): Message
    requires |tools| > 0
  {
    if k < |tools| then tools[k] else tools[0]
  }

  lemma WriteNext(was: seq<Message>, tools: seq<Message>, k: nat, now: seq<Message>)
    requires |tools| == CountTools(was) && k < |tools| && Written(was, tools, k, now)
    ensures Positions(was)[k] < |now|
    ensures Written(was, tools, k + 1, now[Positions(was)[k] := tools[k]])
  {
    PositionsAt(was, k);
    var next := now[Positions(was)[k] := tools[k]];
    forall p | 0 <= p < |was|
      ensures next[p] == if was[p].role == Tool && CountTools(was[..p]) < k + 1 then TakeAt(tools, CountTools(was[..p])) else was[p]
    {
      if was[p].role == Tool {
        PositionOf(was, p);
      }
    }
  }

  lemma WrittenIsFill(was: seq<Message>, tools: seq<Message>, now: seq<Message>)
    requires |tools| == CountTools(was) && Written(was, tools, |tools|, now)
    ensures now == Fill(was, tools)
  {
    forall p | 0 <= p < |was| ensures now[p] == Fill(was, tools)[p] {
      FillAt(was, tools, p);
    }
  }

  method CallOrder(calls: seq<string>) returns (order: Order)
    ensures order == OrderOf(calls)
  {
    order := map[];
    for idx := 0 to |calls|
      invariant order == OrderOf(calls[..idx])
    {
      assert calls[..idx + 1][..idx] == calls[..idx];
      if calls[idx] != "" {
        order := order[calls[idx] := idx];
      }
    }
    assert calls[..|calls|] == calls;
  }

  /** The maximal run that begins at `i`, and where its tool messages are. */
  method CollectRun(ms: seq<Message>, i: nat) returns (positions: seq<nat>, runEnd: nat)
    requires i < |ms|
    ensures runEnd == i + RunLength(ms[i..]) <= |ms|
    ensures PlacesOf(ms[i..runEnd], i, positions)
  {
    positions, runEnd := [], i;
    assert ms[i..] == ms[runEnd..];
    while runEnd < |ms|
      invariant i <= runEnd <= |ms|
      invariant RunLength(ms[i..]) == runEnd - i + RunLength(ms[runEnd..])
      invariant PlacesOf(ms[i..runEnd], i, positions)
      decreases |ms| - runEnd
    {
      OneLonger(ms, i, runEnd, positions);
      if ms[runEnd].role == Tool {
        positions := positions + [runEnd];
      } else if ms[runEnd].role != User {
        break;
      }
      runEnd := runEnd + 1;
    }
  }

  lemma OneLonger(ms: seq<Message>, i: nat, end: nat, positions: seq<nat>)
    requires i <= end < |ms| && PlacesOf(ms[i..end], i, positions)
    ensures ms[end..][0] == ms[end] && ms[end..][1..] == ms[end + 1..]
    ensures PlacesOf(ms[i..end + 1], i, if ms[end].role == Tool then positions + [end] else positions)
  {
    var run := ms[i..end + 1];
    assert run[..|run| - 1] == ms[i..end];
  }

  /** `positions` are the places in the conversation of the tool messages of `run`, which begins at `i`. */
  predicate PlacesOf(run: seq<Message>, i: nat, positions: seq<nat>) {
    |positions| == CountTools(run) &&
    forall k | 0 <= k < |positions| :: positions[k] == i + Positions(run)[k]
  }

  method CollectResults(ms: seq<Message>, i: nat, end: nat, positions: seq<nat>) returns (results: seq<Message>)
    requires i <= end <= |ms| && PlacesOf(ms[i..end], i, positions)
    ensures results == ToolsOf(ms[i..end])
  {
    results := [];
    for k := 0 to |positions|
      invariant results == ToolsOf(ms[i..end])[..k]
    {
      PositionsAt(ms[i..end], k);
      results := results + [ms[positions[k]]];
    }
  }

  method WriteBack(ms: seq<Message>, i: nat, end: nat, positions: seq<nat>, results: seq<Message>)
    returns (adjusted: seq<Message>)
    requires i <= end <= |ms| && PlacesOf(ms[i..end], i, positions) && |results| == |positions|
    ensures adjusted == ms[..i] + Fill(ms[i..end], results) + ms[end..]
  {
    adjusted := ms;
    ghost var before, run, rest := ms[..i], ms[i..end], ms[end..];
    ghost var now := run;
    for k := 0 to |positions|
      invariant |now| == |run| && adjusted == before + now + rest
      invariant Written(run, results, k, now)
    {
      WriteNext(run, results, k, now);
      WriteInside(before, now, rest, positions[k] - i, results[k]);
      adjusted := adjusted[positions[k] := results[k]];
      now := now[positions[k] - i := results[k]];
    }
    WrittenIsFill(run, results, now);
  }

  lemma WriteInside(before: seq<Message>, run: seq<Message>, rest: seq<Message>, p: nat, m: Message)
    requires p < |run|
    ensures (before + run + rest)[|before| + p := m] == before + run[p := m] + rest
  {
  }

  /** With at most one tool message, or with no call order, there is nothing to sort. */
  lemma NothingToSort(order: Order, run: seq<Message>)
    requires CountTools(run) <= 1 || order == map[]
    ensures SortRun(order, run) == run
  {
    SortedIsFixed(order, ToolsOf(run));
    FillOwnTools(run);
  }

  /** What remains to be done at `i`: the messages before it are final. */
  predicate Remains(whole: seq<Message>, order: Order, ms: seq<Message>, i: nat) {
    i <= |ms| && whole == ms[..i] + SortFrom(order, ms[i..])
  }

  lemma PassOver(whole: seq<Message>, order: Order, ms: seq<Message>, i: nat)
    requires Remains(whole, order, ms, i) && i < |ms| && !InRun(ms[i])
    ensures Remains(whole, if MakesCalls(ms[i]) then OrderOf(ms[i].calls) else order, ms, i + 1)
  {
    var next := if MakesCalls(ms[i]) then OrderOf(ms[i].calls) else order;
    assert ms[i..][0] == ms[i] && ms[i..][1..] == ms[i + 1..];
    assert ms[..i] + [ms[i]] == ms[..i + 1];
    Regroup(ms[..i], [ms[i]], SortFrom(next, ms[i + 1..]));
  }

  lemma PassRun(whole: seq<Message>, order: Order, ms: seq<Message>, i: nat, end: nat, now: seq<Message>)
    requires Remains(whole, order, ms, i) && i < |ms| && InRun(ms[i]) && end == i + RunLength(ms[i..])
    requires end <= |ms| && now == ms[..i] + SortRun(order, ms[i..end]) + ms[end..]
    ensures |now| == |ms| && Remains(whole, order, now, end)
  {
    var run := SortRun(order, ms[i..end]);
    assert ms[i..][0] == ms[i];
    RunParts(ms, i, end);
    RunHasItsLength(order, ms[i..end]);
    Parts(ms[..i] + run, ms[end..]);
    Regroup(ms[..i], run, SortFrom(order, ms[end..]));
  }

  method SortToolResultsInPlace(messages: seq<Message>) returns (adjusted: seq<Message>)
    ensures adjusted == SortToolResults(messages)
  {
    adjusted := messages;
    var order: Order := map[];
    var i := 0;
    ghost var whole := SortToolResults(messages);
    assert messages[0..] == messages;
    while i < |adjusted|
      invariant Remains(whole, order, adjusted, i)
      decreases |adjusted| - i
    {
      if !InRun(adjusted[i]) {
        PassOver(whole, order, adjusted, i);
      }
      if MakesCalls(adjusted[i]) {
        order := CallOrder(adjusted[i].calls);
        i := i + 1;
        continue;
      }
      if !InRun(adjusted[i]) {
        i := i + 1;
        continue;
      }
      var positions, runEnd := CollectRun(adjusted, i);
      ghost var before := adjusted;
      RunParts(adjusted, i, runEnd);
      if |positions| > 1 && order != map[] {
        var results := CollectResults(adjusted, i, runEnd, positions);
        RunHasItsLength(order, adjusted[i..runEnd]);
        results := StableSort(order, results);
        adjusted := WriteBack(adjusted, i, runEnd, positions, results);
      } else {
        NothingToSort(order, adjusted[i..runEnd]);
      }
      PassRun(whole, order, before, i, runEnd, adjusted);
      assert runEnd > i by {
        assert before[i..][0] == before[i];
      }
      i := runEnd;
    }
    assert adjusted[..i] == adjusted && adjusted[i..] == [];
  }

  lemma RunParts(ms: seq<Message>, i: nat, end: nat)
    requires i <= end <= |ms|
    ensures ms[i..][..end - i] == ms[i..end] && ms[i..][end - i..] == ms[end..]
    ensures ms == ms[..i] + ms[i..end] + ms[end..]
  {
  }
}