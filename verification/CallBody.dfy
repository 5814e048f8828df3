/**
 The nodes between the opening and the closing of a tool call: the arguments only grow,
 and when it matters where the name comes.
 */
module CallBody {
  import opened ChatMessage
  import opened Options
  import opened Sequences
  import opened ToolMapper
  import J = JsonText
  import D = BraceDepth

  // ----- the arguments, whether or not the call is named -----

  datatype Draft = Draft(text: string, count: nat, closing: bool)

  /** A node of an argument, or one that only encloses others. */
  predicate IsBodyNode(n: Node) {
    n.tag in {ArgOpen, ArgName, ArgValue, ArgStringValue, ArgClose} || Silent(n)
  }

  predicate AllBody(nodes: seq<Node>) {
    forall i | 0 <= i < |nodes| :: IsBodyNode(nodes[i])
  }

  function BodyStep(c: Draft, n: Node): Draft {
    match n.tag
    case ArgOpen => c.(closing := false)
    case ArgName =>
      Draft((if c.text == "" then "{" else c.text) + ((if c.count > 0 then "," else "") + J.Dump(Trim(n.text), ":")),
              c.count + 1, c.closing)
    case ArgValue => c.(text := c.text + ValueText(n, c.closing))
    case ArgStringValue => c.(text := c.text + ValueText(n, c.closing), closing := true)
    case ArgClose => if c.closing then c.(text := c.text + "\"", closing := false) else c
    case _ => c
  }

  function BodyRun(c: Draft, nodes: seq<Node>): Draft
    decreases |nodes|
  {
    if nodes == [] then c else BodyRun(BodyStep(c, nodes[0]), nodes[1..])
  }

  /** What is shown once the call is named: an empty buffer is shown as an open brace. */
  function Shown(c: Draft): Draft {
    if c.text == "" then c.(text := "{") else c
  }

  function ContentOf(s: State): Draft
    requires Valid(s)
  {
    Draft(Target(s), s.argCount, s.closingQuote)
  }

  /** A call is open after the recorded calls `before`; `name` is "" until it is known. */
  predicate InCall(s: State, name: string, before: seq<Call>) {
    && Valid(s)
    && if name == "" then s.current == ToPending && s.pending == Some(Call("", "", "")) && s.calls == before
       else s.current == ToLast && s.pending.None? && s.argsBuffer == "" &&
            s.calls == before + [Call(name, s.calls[|s.calls| - 1].arguments, "")]
  }

  lemma {:induction false} StepInCall(s: State, name: string, before: seq<Call>, n: Node)
    requires InCall(s, name, before) && IsBodyNode(n)
    ensures Safe(s, n) && InCall(Step(s, n), name, before)
    ensures ContentOf(Step(s, n)) == BodyStep(ContentOf(s), n)
  {
    if n.tag in {ArgName, ArgValue, ArgStringValue} {
      WriteInCall(s, name, before, n);
    }
  }

  lemma WriteInCall(s: State, name: string, before: seq<Call>, n: Node)
    requires InCall(s, name, before) && n.tag in {ArgName, ArgValue, ArgStringValue}
    ensures InCall(Step(s, n), name, before)
    ensures ContentOf(Step(s, n)) == BodyStep(ContentOf(s), n)
  {
  }

  lemma {:induction false} RunInCall(s: State, name: string, before: seq<Call>, nodes: seq<Node>)
    requires InCall(s, name, before) && AllBody(nodes)
    ensures SafeRun(s, nodes) && InCall(Run(s, nodes), name, before)
    ensures ContentOf(Run(s, nodes)) == BodyRun(ContentOf(s), nodes)
    decreases |nodes|
  {
    if nodes != [] {
      StepInCall(s, name, before, nodes[0]);
      RunInCall(Step(s, nodes[0]), name, before, nodes[1..]);
    }
  }

  lemma {:induction false} NameInCall(s: State, before: seq<Call>, text: string)
    requires InCall(s, "", before) && TrimEnd(text) != ""
    ensures Safe(s, Node(ToolName, text)) && InCall(Step(s, Node(ToolName, text)), TrimEnd(text), before)
    ensures ContentOf(Step(s, Node(ToolName, text))) == Shown(ContentOf(s))
  {
  }

  /** Once a call is named, its arguments only grow by appending, whatever arrives before its end. */
  lemma {:induction false} ArgumentsOnlyGrow(s: State, name: string, before: seq<Call>, nodes: seq<Node>)
    requires InCall(s, name, before) && name != "" && AllBody(nodes)
    ensures SafeRun(s, nodes)
    ensures HasTool(Run(s, nodes)) && CurrentCall(s).arguments <= CurrentCall(Run(s, nodes)).arguments
  {
    RunInCall(s, name, before, nodes);
    TextGrows(ContentOf(s), nodes);
  }

  lemma {:induction false} TextGrows(c: Draft, nodes: seq<Node>)
    ensures c.text <= BodyRun(c, nodes).text
    decreases |nodes|
  {
    if nodes != [] {
      TextGrows(BodyStep(c, nodes[0]), nodes[1..]);
    }
  }

  lemma {:induction false} BodyRunAppend(c: Draft, a: seq<Node>, b: seq<Node>)
    ensures BodyRun(c, a + b) == BodyRun(BodyRun(c, a), b)
    decreases |a|
  {
    if a == [] {
      assert a + b == b;
    } else {
      assert (a + b)[1..] == a[1..] + b;
      BodyRunAppend(BodyStep(c, a[0]), a[1..], b);
    }
  }

  /** Enclosing nodes play no part in a body. */
  lemma {:induction false} BodyVisible(c: Draft, nodes: seq<Node>)
    ensures BodyRun(c, nodes) == BodyRun(c, Visible(nodes))
    ensures AllBody(nodes) <==> AllBody(Visible(nodes))
    ensures NameFirst(nodes) <==> NameFirst(Visible(nodes))
    decreases |nodes|
  {
    if nodes != [] {
      BodyVisible(BodyStep(c, nodes[0]), nodes[1..]);
      AllBodyFirst(nodes);
      if !Silent(nodes[0]) {
        assert Visible(nodes)[1..] == Visible(nodes[1..]);
        AllBodyFirst(Visible(nodes));
      }
    }
  }

  lemma AllBodyFirst(nodes: seq<Node>)
    requires nodes != []
    ensures AllBody(nodes) <==> IsBodyNode(nodes[0]) && AllBody(nodes[1..])
  {
    assert nodes == [nodes[0]] + nodes[1..];
  }

  // ----- a whole call -----

  lemma {:induction false} RunAppend(s: State, a: seq<Node>, b: seq<Node>)
    requires SafeRun(s, a) && SafeRun(Run(s, a), b)
    ensures SafeRun(s, a + b) && Run(s, a + b) == Run(Run(s, a), b)
    decreases |a|
  {
    if a == [] {
      assert a + b == b;
    } else {
      assert (a + b)[1..] == a[1..] + b;
      RunAppend(Step(s, a[0]), a[1..], b);
    }
  }

  lemma RunOne(s: State, n: Node)
    requires Safe(s, n)
    ensures SafeRun(s, [n]) && Run(s, [n]) == Step(s, n)
  {
    assert [n][1..] == [];
  }

  const START := Draft("", 0, false)

  /** Closing ends an open string and every open brace. */
  function CloseText(d: Draft): string {
    var text := d.text + (if d.closing then "\"" else "");
    text + Braces(D.Depth(text))
  }

  /** The arguments of a call that is named after `pre` and closed after `post`. */
  function RecordedText(pre: seq<Node>, post: seq<Node>): string {
    CloseText(BodyRun(Shown(BodyRun(START, pre)), post))
  }

  lemma {:induction false} CloseCall(s: State, name: string, before: seq<Call>, n: Node)
    requires InCall(s, name, before) && name != "" && n.tag == ToolClose
    ensures Safe(s, n) && Step(s, n).calls == before + [Call(name, CloseText(ContentOf(s)), "")]
    ensures Step(s, n).pending.None? && Step(s, n).argsBuffer == ""
  {
    assert ContentOf(s).text + "" == ContentOf(s).text;
  }

  lemma CloseOneBrace(d: Draft)
    requires !d.closing && D.Depth(d.text) == 1
    ensures CloseText(d) == d.text + "}"
  {
    assert d.text + "" == d.text;
    assert Braces(1) == "}" + Braces(0) && Braces(0) == "" && "}" + "" == "}";
  }

  lemma NamedAtStart(body: seq<Node>)
    ensures RecordedText([], body) == CloseText(BodyRun(Shown(START), body))
  {
  }

  /** One call is recorded, from any state and for any body nodes. */
  lemma {:induction false} OneCallRecorded(s: State, pre: seq<Node>, post: seq<Node>,
                                           open: string, name: string, close: string)
    requires Valid(s) && TrimEnd(name) != "" && AllBody(pre) && AllBody(post)
    ensures var nodes := [Node(ToolOpen, open)] + (pre + ([Node(ToolName, name)] + (post + [Node(ToolClose, close)])));
            SafeRun(s, nodes) &&
            Run(s, nodes).calls == s.calls + [Call(TrimEnd(name), RecordedText(pre, post), "")]
  {
    var o, n, c := Node(ToolOpen, open), Node(ToolName, name), Node(ToolClose, close);
    var s0 := Step(s, o);
    RunInCall(s0, "", s.calls, pre);
    var s1 := Run(s0, pre);
    NameInCall(s1, s.calls, name);
    var s2 := Step(s1, n);
    RunInCall(s2, TrimEnd(name), s.calls, post);
    var s3 := Run(s2, post);
    CloseCall(s3, TrimEnd(name), s.calls, c);
    RunOne(s3, c);
    RunAppend(s2, post, [c]);
    RunOne(s1, n);
    RunAppend(s1, [n], post + [c]);
    RunAppend(s0, pre, [n] + (post + [c]));
    RunOne(s, o);
    RunAppend(s, [o], pre + ([n] + (post + [c])));
  }

  // ----- where the name comes -----

  predicate AddsNothing(n: Node) {
    n.tag in {ArgOpen, ArgClose} || (n.tag == ArgValue && n.text == "") || Silent(n)
  }

  /** Nothing is added before the first argument name. */
  predicate NameFirst(nodes: seq<Node>) {
    nodes == [] || nodes[0].tag == ArgName || (AddsNothing(nodes[0]) && NameFirst(nodes[1..]))
  }

  lemma NothingAdded(c: Draft, n: Node)
    requires AddsNothing(n) && !c.closing
    ensures BodyStep(c, n) == c
  {
    assert c.text + "" == c.text;
  }

  lemma {:induction false} ShownRuns(c: Draft, nodes: seq<Node>)
    requires c.text == "" ==> !c.closing && NameFirst(nodes)
    ensures Shown(BodyRun(c, nodes)) == Shown(BodyRun(Shown(c), nodes))
    decreases |nodes|
  {
    if nodes != [] && c.text == "" && nodes[0].tag != ArgName {
      NothingAdded(c, nodes[0]);
      NothingAdded(Shown(c), nodes[0]);
      ShownRuns(c, nodes[1..]);
    }
  }

  lemma {:induction false} StillNameFirst(c: Draft, pre: seq<Node>, post: seq<Node>)
    requires c.text == "" && !c.closing && NameFirst(pre + post) && BodyRun(c, pre).text == ""
    ensures NameFirst(post) && !BodyRun(c, pre).closing
    decreases |pre|
  {
    if pre == [] {
      assert pre + post == post;
    } else {
      assert (pre + post)[1..] == pre[1..] + post;
      if pre[0].tag == ArgName {
        TextGrows(BodyStep(c, pre[0]), pre[1..]);
      } else {
        NothingAdded(c, pre[0]);
        StillNameFirst(c, pre[1..], post);
      }
    }
  }

  /** Whatever part came before the name, the recorded arguments are the same. */
  lemma {:induction false} SameWhereverNamed(pre: seq<Node>, post: seq<Node>)
    requires NameFirst(pre + post)
    ensures RecordedText(pre, post) == RecordedText([], pre + post)
  {
    var start := BodyRun(START, pre);
    if start.text == "" {
      StillNameFirst(START, pre, post);
    }
    ShownRuns(start, post);
    ShownRuns(START, pre + post);
    BodyRunAppend(START, pre, post);
    TextGrows(Shown(start), post);
    TextGrows(Shown(START), pre + post);
  }

  lemma {:induction false} BraceAhead(c: Draft, nodes: seq<Node>)
    requires c.text != ""
    ensures BodyRun(c.(text := "{" + c.text), nodes) == BodyRun(c, nodes).(text := "{" + BodyRun(c, nodes).text)
    decreases |nodes|
  {
    if nodes != [] {
      BraceAheadStep(c, nodes[0]);
      TextGrows(c, [nodes[0]]);
      assert [nodes[0]][1..] == [];
      BraceAhead(BodyStep(c, nodes[0]), nodes[1..]);
    }
  }

  lemma BraceAheadStep(c: Draft, n: Node)
    requires c.text != ""
    ensures BodyStep(c.(text := "{" + c.text), n) == BodyStep(c, n).(text := "{" + BodyStep(c, n).text)
  {
    match n.tag
    case ArgName => Regroup("{", c.text, (if c.count > 0 then "," else "") + J.Dump(Trim(n.text), ":"));
    case ArgValue => Regroup("{", c.text, ValueText(n, c.closing));
    case ArgStringValue => Regroup("{", c.text, ValueText(n, c.closing));
    case ArgClose => Regroup("{", c.text, "\"");
    case _ =>
  }

  lemma {:induction false} AllBraces(t: string, x: string, y: string, i: nat)
    requires "{" + t + x == t + y && i < |t|
    ensures t[i] == '{'
  {
    assert ("{" + t + x)[i] == (t + y)[i] == t[i];
    if i > 0 {
      AllBraces(t, x, y, i - 1);
      assert ("{" + t + x)[i] == t[i - 1];
    }
  }

  lemma {:induction false} BracesAreClosing(n: int, i: nat)
    requires i < |Braces(n)|
    ensures Braces(n)[i] == '}'
  {
    if i > 0 {
      BracesAreClosing(n - 1, i - 1);
    }
  }

  /** A brace ahead of a text is never made up for by closing braces. */
  lemma OneBraceMore(t: string, a: int, b: int)
    requires t != ""
    ensures "{" + t + Braces(a) != t + Braces(b)
  {
    if "{" + t + Braces(a) == t + Braces(b) {
      NextIsBrace(t, Braces(a), Braces(b));
      BracesAreClosing(b, 0);
    }
  }

  lemma NextIsBrace(t: string, x: string, y: string)
    requires "{" + t + x == t + y && t != ""
    ensures y != "" && y[0] == '{'
  {
    var n := |t|;
    AllBraces(t, x, y, n - 1);
    assert ("{" + t + x)[n] == t[n - 1] && (t + y)[n] == y[0];
  }

  lemma CloseTextsDiffer(d: Draft)
    requires d.text != ""
    ensures CloseText(d.(text := "{" + d.text)) != CloseText(d)
  {
    var t := d.text + (if d.closing then "\"" else "");
    assert "{" + d.text + (if d.closing then "\"" else "") == "{" + t;
    OneBraceMore(t, D.Depth("{" + t), D.Depth(t));
  }

  /** The first node that adds something, when it is no argument name. */
  lemma {:induction false} FirstAdded(nodes: seq<Node>) returns (k: nat)
    requires AllBody(nodes) && !NameFirst(nodes)
    ensures k < |nodes|
    ensures var d := BodyRun(START, nodes[..k + 1]);
            d.text != "" && BodyRun(Shown(START), nodes[..k + 1]) == d.(text := "{" + d.text)
    decreases |nodes|
  {
    if AddsNothing(nodes[0]) {
      var j := FirstAdded(nodes[1..]);
      k := j + 1;
      NothingAdded(START, nodes[0]);
      NothingAdded(Shown(START), nodes[0]);
      assert nodes[..k + 1][1..] == nodes[1..][..j + 1];
    } else {
      k := 0;
      assert nodes[..1][1..] == [];
      ValueAdds(nodes[0]);
    }
  }

  lemma ValueAdds(n: Node)
    requires IsBodyNode(n) && n.tag != ArgName && !AddsNothing(n)
    ensures BodyStep(START, n).text != ""
    ensures BodyStep(Shown(START), n) == BodyStep(START, n).(text := "{" + BodyStep(START, n).text)
  {
    assert "" + ValueText(n, false) == ValueText(n, false);
  }

  /** The place of the name never matters exactly when nothing is added before the first argument name. */
  lemma {:induction false} NamePlaceIff(body: seq<Node>)
    requires AllBody(body)
    ensures (forall k | 0 <= k <= |body| :: RecordedText(body[..k], body[k..]) == RecordedText([], body)) <==>
            NameFirst(body)
  {
    if NameFirst(body) {
      forall k | 0 <= k <= |body| ensures RecordedText(body[..k], body[k..]) == RecordedText([], body) {
        SameAt(body, k);
      }
    } else {
      var k := FirstAdded(body);
      DiffersAt(body, k + 1);
    }
  }

  /** A value ahead of the first argument name loses its opening brace when the name comes after it. */
  lemma ValueAheadOfName()
    ensures var body := [Node(ArgValue, "1")];
            RecordedText(body, []) != RecordedText([], body)
  {
    var body := [Node(ArgValue, "1")];
    var k := FirstAdded(body);
    assert body[..k + 1] == body && body[k + 1..] == [];
    DiffersAt(body, k + 1);
  }

  lemma {:induction false} SameAt(body: seq<Node>, k: nat)
    requires NameFirst(body) && k <= |body|
    ensures RecordedText(body[..k], body[k..]) == RecordedText([], body)
  {
    assert body[..k] + body[k..] == body;
    SameWhereverNamed(body[..k], body[k..]);
  }

  lemma {:induction false} DiffersAt(body: seq<Node>, k: nat)
    requires k <= |body| && BodyRun(START, body[..k]).text != ""
    requires BodyRun(Shown(START), body[..k]) == BodyRun(START, body[..k]).(text := "{" + BodyRun(START, body[..k]).text)
    ensures RecordedText(body[..k], body[k..]) != RecordedText([], body)
  {
    assert body[..k] + body[k..] == body;
    AfterFirstAdded(body[..k], body[k..]);
  }

  lemma {:induction false} AfterFirstAdded(pre: seq<Node>, post: seq<Node>)
    requires BodyRun(START, pre).text != ""
    requires BodyRun(Shown(START), pre) == BodyRun(START, pre).(text := "{" + BodyRun(START, pre).text)
    ensures RecordedText(pre, post) != RecordedText([], pre + post)
  {
    var d := BodyRun(START, pre);
    BodyRunAppend(Shown(START), pre, post);
    BraceAhead(d, post);
    TextGrows(d, post);
    CloseTextsDiffer(BodyRun(d, post));
    assert BodyRun(START, []) == START;
  }
}
