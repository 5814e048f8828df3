/**
 `common_chat_msg_diff::compute_diffs`: the deltas sent to a client while a message is
 streamed, and what the client rebuilds from them.
 */
module MessageDiffs {
  import opened ChatMessage
  import opened Options

  datatype Delta = Delta(reasoning: string, content: string, index: Option<nat>, call: Call)

  const NO_CALL := Call("", "", "")

  const EMPTY := Message("", "", [])

  /** `string_diff`; None where the source throws. */
  function StringDiff(last: string, current: string): Option<string> {
    if last == "" then Some(current)
    else if !(last <= current) then (if current <= last then Some("") else None)
    else Some(current[|last|..])
  }

  /** Whether the name of the last call may change from `p` to `n`. */
  predicate NameCompatible(p: string, n: string) {
    p == n || p == "" || n == "" || p <= n
  }

  function TextDeltas(prv: Message, new_: Message): Option<seq<Delta>> {
    var r :- if prv.reasoning == new_.reasoning then Some([])
             else (var d :- StringDiff(prv.reasoning, new_.reasoning); Some([Delta(d, "", None, NO_CALL)]));
    var c :- if prv.content == new_.content then Some([])
             else (var d :- StringDiff(prv.content, new_.content); Some([Delta("", d, None, NO_CALL)]));
    Some(r + c)
  }

  /** The delta for the last call that was already there, at position `i`. */
  function LastCallDelta(i: nat, p: Call, n: Call): Option<seq<Delta>> {
    if !NameCompatible(p.name, n.name) then None
    else
      var d :- StringDiff(p.arguments, n.arguments);
      var renamed := p.id != n.id || p.name != n.name;
      if d == "" && !renamed then Some([])
      else Some([Delta("", "", Some(i), Call(if renamed then n.name else "", d, if renamed then n.id else ""))])
  }

  /** One delta for every call from position `i` on. */
  function NewCallDeltas(calls: seq<Call>, i: nat): seq<Delta>
    decreases |calls| - i
  {
    if i >= |calls| then [] else [Delta("", "", Some(i), calls[i])] + NewCallDeltas(calls, i + 1)
  }

  function Deltas(prv: Message, new_: Message): Option<seq<Delta>> {
    var texts :- TextDeltas(prv, new_);
    if |new_.calls| < |prv.calls| then None
    else
      var last :- if prv.calls == [] then Some([])
                  else (var i := |prv.calls| - 1; LastCallDelta(i, prv.calls[i], new_.calls[i]));
      Some((texts + last) + NewCallDeltas(new_.calls, |prv.calls|))
  }

  lemma TextDeltasAre(prv: Message, new_: Message, diffs: seq<Delta>)
    requires prv.reasoning != new_.reasoning ==> StringDiff(prv.reasoning, new_.reasoning).Some?
    requires prv.content != new_.content ==> StringDiff(prv.content, new_.content).Some?
    requires diffs ==
             (if prv.reasoning == new_.reasoning then [] else [Delta(StringDiff(prv.reasoning, new_.reasoning).value, "", None, NO_CALL)]) +
             (if prv.content == new_.content then [] else [Delta("", StringDiff(prv.content, new_.content).value, None, NO_CALL)])
    ensures TextDeltas(prv, new_) == Some(diffs)
  {
  }

  method ComputeDiffs(prv: Message, new_: Message) returns (r: Option<seq<Delta>>)
    ensures r == Deltas(prv, new_)
  {
    var diffs: seq<Delta> := [];
    if prv.reasoning != new_.reasoning {
      var d := StringDiff(prv.reasoning, new_.reasoning);
      if d.None? {
        return None;
      }
      diffs := diffs + [Delta(d.value, "", None, NO_CALL)];
    }
    if prv.content != new_.content {
      var d := StringDiff(prv.content, new_.content);
      if d.None? {
        return None;
      }
      diffs := diffs + [Delta("", d.value, None, NO_CALL)];
    }
    assert TextDeltas(prv, new_) == Some(diffs) by {
      TextDeltasAre(prv, new_, diffs);
    }
    assert diffs + [] == diffs;
    if |new_.calls| < |prv.calls| {
      return None;
    }
    if prv.calls != [] {
      var idx := |prv.calls| - 1;
      var pref, newf := prv.calls[idx], new_.calls[idx];
      if pref.name != newf.name && pref.name != "" && newf.name != "" && !(pref.name <= newf.name) {
        return None;
      }
      var args := StringDiff(pref.arguments, newf.arguments);
      if args.None? {
        return None;
      }
      if args.value != "" || pref.id != newf.id || pref.name != newf.name {
        var call := NO_CALL.(arguments := args.value);
        if pref.id != newf.id || pref.name != newf.name {
          call := call.(id := newf.id, name := newf.name);
        }
        diffs := diffs + [Delta("", "", Some(idx), call)];
      }
    }
    ghost var whole := diffs + NewCallDeltas(new_.calls, |prv.calls|);
    var idx := |prv.calls|;
    while idx < |new_.calls|
      invariant |prv.calls| <= idx <= |new_.calls|
      invariant whole == diffs + NewCallDeltas(new_.calls, idx)
    {
      diffs := diffs + [Delta("", "", Some(idx), new_.calls[idx])];
      idx := idx + 1;
    }
    assert diffs + [] == diffs;
    r := Some(diffs);
  }

  // ----- where it throws -----

  /** Neither text continues the other. */
  predicate Diverge(a: string, b: string) {
    !(a <= b) && !(b <= a)
  }

  lemma DiffThrows(a: string, b: string)
    ensures StringDiff(a, b).None? <==> Diverge(a, b)
  {
  }

  /**
   No deltas are computed exactly when reasoning or content diverge, when there are fewer
   calls than before, or when the call that was the last one diverges in its arguments or
   gets a name that does not continue the old one.
   */
  lemma ThrowsIff(prv: Message, new_: Message)
    ensures var k := |prv.calls|;
            Deltas(prv, new_).None? <==>
            || Diverge(prv.reasoning, new_.reasoning) || Diverge(prv.content, new_.content) || |new_.calls| < k
            || (k > 0 && var p, n := prv.calls[k - 1], new_.calls[k - 1];
                         Diverge(p.arguments, n.arguments) || (n.name != "" && !(p.name <= n.name)))
  {
    DiffThrows(prv.reasoning, new_.reasoning);
    DiffThrows(prv.content, new_.content);
    var k := |prv.calls|;
    if 0 < k <= |new_.calls| {
      DiffThrows(prv.calls[k - 1].arguments, new_.calls[k - 1].arguments);
    }
  }

  // ----- the client -----

  /** A delta for a call extends its arguments, and replaces the name and the id if it carries one. */
  function MergeCall(c: Call, d: Call): Call {
    Call(if d.name != "" then d.name else c.name, c.arguments + d.arguments, if d.id != "" then d.id else c.id)
  }

  /** The calls, with empty ones added until there is one at position `i`. */
  function Padded(calls: seq<Call>, i: nat): (r: seq<Call>)
    ensures i < |r|
    decreases i - |calls|
  {
    if i < |calls| then calls else Padded(calls + [NO_CALL], i)
  }

  /** What the accumulator of the repository's streaming test does with one delta. */
  function Apply(m: Message, d: Delta): Message {
    var t := m.(reasoning := m.reasoning + d.reasoning, content := m.content + d.content);
    match d.index
    case None => t
    case Some(i) =>
      var calls := Padded(m.calls, i);
      t.(calls := calls[i := MergeCall(calls[i], d.call)])
  }

  function ApplyAll(m: Message, ds: seq<Delta>): Message
    decreases |ds|
  {
    if ds == [] then m else ApplyAll(Apply(m, ds[0]), ds[1..])
  }

  // ----- one step of a stream -----

  predicate CallExtends(p: Call, n: Call) {
    && p.arguments <= n.arguments
    && (p.name == n.name || (n.name != "" && NameCompatible(p.name, n.name)))
    && (p.id == n.id || n.id != "")
  }

  /**
   The later message extends the earlier one: texts grow, calls are only added, the
   last one may grow and be named, earlier ones stay as they are.
   */
  predicate Extends(prv: Message, new_: Message) {
    && prv.reasoning <= new_.reasoning && prv.content <= new_.content
    && |prv.calls| <= |new_.calls|
    && (forall i | 0 <= i < |prv.calls| - 1 :: prv.calls[i] == new_.calls[i])
    && (prv.calls != [] ==> CallExtends(prv.calls[|prv.calls| - 1], new_.calls[|prv.calls| - 1]))
  }

  lemma CallExtendsFurther(p: Call, q: Call, r: Call)
    requires CallExtends(p, q) && CallExtends(q, r)
    ensures CallExtends(p, r)
  {
  }

  lemma ExtendsFurther(a: Message, b: Message, c: Message)
    requires Extends(a, b) && Extends(b, c)
    ensures Extends(a, c)
  {
    var k := |a.calls| - 1;
    if k >= 0 && |b.calls| == |a.calls| {
      CallExtendsFurther(a.calls[k], b.calls[k], c.calls[k]);
    }
  }

  lemma {:induction false} ApplyAppend(m: Message, a: seq<Delta>, b: seq<Delta>)
    ensures ApplyAll(m, a + b) == ApplyAll(ApplyAll(m, a), b)
    decreases |a|
  {
    if a == [] {
      assert a + b == b;
    } else {
      assert (a + b)[1..] == a[1..] + b;
      ApplyAppend(Apply(m, a[0]), a[1..], b);
    }
  }

  lemma ApplyOne(m: Message, d: Delta)
    ensures ApplyAll(m, [d]) == Apply(m, d)
  {
    assert [d][1..] == [];
  }

  /** What the client's text becomes after the delta for it. */
  function Grown(last: string, current: string): string {
    if last <= current then current else last
  }

  lemma DiffGrows(last: string, current: string)
    requires StringDiff(last, current).Some?
    ensures last + StringDiff(last, current).value == Grown(last, current)
  {
    if last <= current {
      assert last + current[|last|..] == current;
    } else {
      assert last + "" == last;
    }
  }

  lemma {:induction false} ApplyTexts(prv: Message, new_: Message)
    requires TextDeltas(prv, new_).Some?
    ensures ApplyAll(prv, TextDeltas(prv, new_).value) ==
            prv.(reasoning := Grown(prv.reasoning, new_.reasoning), content := Grown(prv.content, new_.content))
  {
    var r := if prv.reasoning == new_.reasoning then [] else [Delta(StringDiff(prv.reasoning, new_.reasoning).value, "", None, NO_CALL)];
    var c := if prv.content == new_.content then [] else [Delta("", StringDiff(prv.content, new_.content).value, None, NO_CALL)];
    assert TextDeltas(prv, new_) == Some(r + c);
    ApplyAppend(prv, r, c);
    var m := ApplyAll(prv, r);
    assert m == prv.(reasoning := Grown(prv.reasoning, new_.reasoning)) by {
      if r != [] {
        ApplyOne(prv, r[0]);
        DiffGrows(prv.reasoning, new_.reasoning);
        assert prv.content + "" == prv.content;
      }
    }
    if c != [] {
      ApplyOne(m, c[0]);
      DiffGrows(prv.content, new_.content);
      assert m.reasoning + "" == m.reasoning;
    }
  }

  lemma {:induction false} ApplyNewCalls(m: Message, calls: seq<Call>)
    requires |m.calls| <= |calls|
    ensures ApplyAll(m, NewCallDeltas(calls, |m.calls|)) == m.(calls := m.calls + calls[|m.calls|..])
    decreases |calls| - |m.calls|
  {
    var i := |m.calls|;
    if i == |calls| {
      assert m.calls + calls[i..] == m.calls;
    } else {
      var d := Delta("", "", Some(i), calls[i]);
      var t := Apply(m, d);
      assert "" + calls[i].arguments == calls[i].arguments;
      assert Padded(m.calls, i) == m.calls + [NO_CALL];
      assert (m.calls + [NO_CALL])[i := calls[i]] == m.calls + [calls[i]];
      assert m.reasoning + "" == m.reasoning && m.content + "" == m.content;
      ApplyNewCalls(t, calls);
      assert NewCallDeltas(calls, i)[1..] == NewCallDeltas(calls, i + 1);
      assert m.calls + calls[i..] == (m.calls + [calls[i]]) + calls[i + 1..];
    }
  }

  /** What the client's last call becomes. */
  function GrownCall(p: Call, n: Call): Call {
    Call(if n.name != "" then n.name else p.name, Grown(p.arguments, n.arguments), if n.id != "" then n.id else p.id)
  }

  lemma {:induction false} ApplyLastCall(m: Message, i: nat, p: Call, n: Call)
    requires i < |m.calls| && m.calls[i] == p && LastCallDelta(i, p, n).Some?
    ensures ApplyAll(m, LastCallDelta(i, p, n).value) == m.(calls := m.calls[i := GrownCall(p, n)])
  {
    var ds := LastCallDelta(i, p, n).value;
    DiffGrows(p.arguments, n.arguments);
    if ds == [] {
      assert p.arguments + "" == p.arguments;
      assert m.calls[i := p] == m.calls;
    } else {
      ApplyOne(m, ds[0]);
      assert m.reasoning + "" == m.reasoning && m.content + "" == m.content;
    }
  }

  /** What the client has after all deltas of one step. */
  lemma {:induction false} ApplyDeltas(prv: Message, new_: Message)
    requires Deltas(prv, new_).Some?
    ensures |prv.calls| <= |new_.calls|
    ensures var k := |prv.calls|;
            var old_ := if k == 0 then [] else prv.calls[k - 1 := GrownCall(prv.calls[k - 1], new_.calls[k - 1])];
            ApplyAll(prv, Deltas(prv, new_).value) ==
            Message(Grown(prv.reasoning, new_.reasoning), Grown(prv.content, new_.content), old_ + new_.calls[k..])
  {
    var k := |prv.calls|;
    var texts := TextDeltas(prv, new_).value;
    var last := if k == 0 then [] else LastCallDelta(k - 1, prv.calls[k - 1], new_.calls[k - 1]).value;
    ApplyAppend(prv, texts + last, NewCallDeltas(new_.calls, k));
    ApplyAppend(prv, texts, last);
    ApplyTexts(prv, new_);
    var m := ApplyAll(prv, texts);
    if k > 0 {
      ApplyLastCall(m, k - 1, prv.calls[k - 1], new_.calls[k - 1]);
    }
    ApplyNewCalls(ApplyAll(m, last), new_.calls);
  }

  /**
   For any two messages: the deltas are computed without an exception and rebuild the
   later message exactly when it extends the earlier one.
   */
  lemma RebuildsIffExtends(prv: Message, new_: Message)
    ensures (Deltas(prv, new_).Some? && ApplyAll(prv, Deltas(prv, new_).value) == new_) <==> Extends(prv, new_)
  {
    if Deltas(prv, new_).Some? {
      ApplyDeltas(prv, new_);
      CallsRebuilt(prv.calls, new_.calls);
      if prv.calls != [] {
        GrownIffExtends(prv.calls[|prv.calls| - 1], new_.calls[|prv.calls| - 1]);
      }
    }
  }

  lemma GrownIffExtends(p: Call, n: Call)
    requires NameCompatible(p.name, n.name)
    ensures GrownCall(p, n) == n <==> CallExtends(p, n)
  {
  }

  lemma CallsRebuilt(p: seq<Call>, n: seq<Call>)
    requires |p| <= |n|
    ensures var k := |p|;
            var old_ := if k == 0 then [] else p[k - 1 := GrownCall(p[k - 1], n[k - 1])];
            old_ + n[k..] == n <==>
            ((forall i | 0 <= i < k - 1 :: p[i] == n[i]) && (k > 0 ==> GrownCall(p[k - 1], n[k - 1]) == n[k - 1]))
  {
    var k := |p|;
    var old_ := if k == 0 then [] else p[k - 1 := GrownCall(p[k - 1], n[k - 1])];
    if old_ + n[k..] == n {
      forall i | 0 <= i < k - 1 ensures p[i] == n[i] {
        assert (old_ + n[k..])[i] == p[i];
      }
      if k > 0 {
        assert (old_ + n[k..])[k - 1] == old_[k - 1];
      }
    }
  }

  /** A stop word erased from the end is no exception, but the client keeps it. */
  lemma ErasedStopWordStays(prv: Message, new_: Message)
    requires prv.(content := new_.content) == new_ && new_.content < prv.content
    ensures Deltas(prv, new_).Some? && ApplyAll(prv, Deltas(prv, new_).value) == prv
  {
    var k := |prv.calls|;
    if k > 0 {
      var args := prv.calls[k - 1].arguments;
      assert args[|args|..] == "";
      assert StringDiff(args, args) == Some("");
    }
    ApplyDeltas(prv, new_);
    assert prv.calls[k..] == [];
    if k > 0 {
      assert prv.calls[k - 1 := prv.calls[k - 1]] + [] == prv.calls;
    }
  }

  /** An id that is taken back is no exception either, and the client keeps it too. */
  lemma ErasedIdStays()
    ensures var prv, new_ := Message("", "", [Call("f", "", "x")]), Message("", "", [Call("f", "", "")]);
            Deltas(prv, new_).Some? && ApplyAll(prv, Deltas(prv, new_).value) == prv && !Extends(prv, new_)
  {
    var prv, new_ := Message("", "", [Call("f", "", "x")]), Message("", "", [Call("f", "", "")]);
    assert StringDiff("", "") == Some("");
    assert LastCallDelta(0, prv.calls[0], new_.calls[0]).Some?;
    ApplyDeltas(prv, new_);
    assert prv.calls[0 := prv.calls[0]] + new_.calls[1..] == prv.calls;
  }

  // ----- a whole stream -----

  predicate IsStream(ms: seq<Message>) {
    ms != [] && ms[0] == EMPTY && forall i | 0 <= i < |ms| - 1 :: Extends(ms[i], ms[i + 1])
  }

  /** All deltas of a stream, in order; None if any step throws. */
  function StreamDeltas(ms: seq<Message>): Option<seq<Delta>>
    decreases |ms|
  {
    if |ms| < 2 then Some([])
    else
      var before :- StreamDeltas(ms[..|ms| - 1]);
      var step :- Deltas(ms[|ms| - 2], ms[|ms| - 1]);
      Some(before + step)
  }

  /** Applying every delta of a stream to the empty message rebuilds the last message. */
  lemma {:induction false} StreamRebuilds(ms: seq<Message>)
    requires IsStream(ms)
    ensures StreamDeltas(ms).Some? && ApplyAll(EMPTY, StreamDeltas(ms).value) == ms[|ms| - 1]
    decreases |ms|
  {
    if |ms| >= 2 {
      var front := ms[..|ms| - 1];
      StreamRebuilds(front);
      RebuildsIffExtends(ms[|ms| - 2], ms[|ms| - 1]);
      assert Extends(ms[|ms| - 2], ms[|ms| - 2 + 1]);
      ApplyAppend(EMPTY, StreamDeltas(front).value, Deltas(ms[|ms| - 2], ms[|ms| - 1]).value);
    }
  }
}
