/** Where the texts of a visit end up: reasoning, content, and the id of a call. */
module ToolTexts {
  import opened ChatMessage
  import opened CType
  import opened Options
  import opened Sequences
  import opened ToolMapper
  import opened CallBody
  import opened ToolStreaming
  import D = BraceDepth

  // ----- reasoning and content -----

  /** The texts of the nodes of one tag, in order. */
  function TextsOf(nodes: seq<Node>, tag: Tag): string {
    if nodes == [] then ""
    else (if nodes[0].tag == tag then nodes[0].text else "") + TextsOf(nodes[1..], tag)
  }

  lemma {:induction false} StepTexts(s: State, n: Node)
    requires Safe(s, n)
    ensures Step(s, n).content == s.content + TextsOf([n], Content)
    ensures Step(s, n).reasoning == s.reasoning + TextsOf([n], Reasoning)
  {
    assert [n][1..] == [] && n.text + "" == n.text && "" + "" == "";
    assert s.content + "" == s.content && s.reasoning + "" == s.reasoning;
  }

  lemma TextsCons(nodes: seq<Node>, tag: Tag)
    requires nodes != []
    ensures TextsOf(nodes, tag) == TextsOf([nodes[0]], tag) + TextsOf(nodes[1..], tag)
  {
    assert [nodes[0]][1..] == [] && nodes[0].text + "" == nodes[0].text && "" + "" == "";
  }

  /** Content is the texts of the content nodes, reasoning those of the reasoning nodes, in order. */
  lemma {:induction false} RunTexts(s: State, nodes: seq<Node>)
    requires SafeRun(s, nodes)
    ensures Run(s, nodes).content == s.content + TextsOf(nodes, Content)
    ensures Run(s, nodes).reasoning == s.reasoning + TextsOf(nodes, Reasoning)
    decreases |nodes|
  {
    if nodes == [] {
      assert s.content + "" == s.content && s.reasoning + "" == s.reasoning;
    } else {
      StepTexts(s, nodes[0]);
      RunTexts(Step(s, nodes[0]), nodes[1..]);
      TextsCons(nodes, Content);
      TextsCons(nodes, Reasoning);
      Regroup(s.content, TextsOf([nodes[0]], Content), TextsOf(nodes[1..], Content));
      Regroup(s.reasoning, TextsOf([nodes[0]], Reasoning), TextsOf(nodes[1..], Reasoning));
    }
  }

  /** The texts of the message of a visit, and of the state the mapper ends in. */
  lemma VisitTexts(nodes: seq<Node>)
    requires SafeRun(INIT, nodes)
    ensures var content, reasoning := TextsOf(nodes, Content), TextsOf(nodes, Reasoning);
            var shown := if IsBlank(reasoning) then "" else reasoning;
            var end := Finish(Run(INIT, nodes));
            MessageOf(Run(INIT, nodes)).content == content == end.content &&
            MessageOf(Run(INIT, nodes)).reasoning == shown == end.reasoning
  {
    RunTexts(INIT, nodes);
    assert "" + TextsOf(nodes, Content) == TextsOf(nodes, Content);
    assert "" + TextsOf(nodes, Reasoning) == TextsOf(nodes, Reasoning);
    if IsBlank(TextsOf(nodes, Reasoning)) && TextsOf(nodes, Reasoning) == "" {
      assert IsBlank("");
    }
  }

  // ----- names and ids -----

  /** Trailing space is gone, and nothing else. */
  lemma {:induction false} TrimEndMeans(s: string)
    ensures var t := TrimEnd(s);
            t <= s && (forall i | |t| <= i < |s| :: IsSpace(s[i])) && (t != "" ==> !IsSpace(t[|t| - 1]))
  {
    if s != "" && IsSpace(s[|s| - 1]) {
      TrimEndMeans(s[..|s| - 1]);
    }
  }

  /** One leading space is gone, and all trailing space. */
  lemma TrimMeans(s: string)
    ensures var u := if s != "" && IsSpace(s[0]) then s[1..] else s;
            var t := Trim(s);
            t <= u && (forall i | |t| <= i < |u| :: IsSpace(u[i])) && (t != "" ==> !IsSpace(t[|t| - 1]))
  {
    TrimEndMeans(if s != "" && IsSpace(s[0]) then s[1..] else s);
  }

  lemma {:induction false} TrimEndOf(t: string, space: string)
    requires (forall c <- space :: IsSpace(c)) && (t != "" ==> !IsSpace(t[|t| - 1]))
    ensures TrimEnd(t + space) == t
    decreases |space|
  {
    if space == "" {
      assert t + space == t;
    } else {
      var n := |space| - 1;
      assert space[n] in space && (t + space)[..|t| + n] == t + space[..n];
      TrimEndOf(t, space[..n]);
    }
  }

  /** An id is sent with or without quotes, and with any space behind it. */
  lemma IdMeans(id: string, space: string)
    requires forall c <- space :: IsSpace(c)
    ensures IdOf("\"" + id + "\"" + space) == id
    ensures id != "" && !IsSpace(id[|id| - 1]) && id[0] != '"' ==> IdOf(id + space) == id
  {
    var quoted := "\"" + id + "\"";
    TrimEndOf(quoted, space);
    assert quoted[1..|quoted| - 1] == id;
    if id != "" && !IsSpace(id[|id| - 1]) {
      TrimEndOf(id, space);
    }
  }

  // ----- the id of a call -----

  function WithId(s: State, id: string): State
    requires Valid(s) && HasTool(s)
  {
    WithCall(s, CurrentCall(s).(id := id))
  }

  predicate IsCallNode(n: Node) {
    IsBodyNode(n) || n.tag == ToolName
  }

  /** The other nodes of a call neither read nor change the id. */
  lemma {:induction false} StepWithId(s: State, n: Node, id: string)
    requires Valid(s) && HasTool(s) && IsCallNode(n)
    ensures Safe(s, n) && Safe(WithId(s, id), n) && HasTool(Step(s, n))
    ensures Step(WithId(s, id), n) == WithId(Step(s, n), id)
  {
    if n.tag == ToolName {
      NameWithId(s, n, id);
    } else if n.tag in {ArgName, ArgValue, ArgStringValue, ArgClose} {
      ArgumentWithId(s, n, id);
    }
  }

  lemma NameWithId(s: State, n: Node, id: string)
    requires Valid(s) && HasTool(s) && n.tag == ToolName
    ensures HasTool(Step(s, n)) && Step(WithId(s, id), n) == WithId(Step(s, n), id)
  {
  }

  lemma ArgumentWithId(s: State, n: Node, id: string)
    requires Valid(s) && HasTool(s) && n.tag in {ArgName, ArgValue, ArgStringValue, ArgClose}
    ensures HasTool(Step(s, n)) && Step(WithId(s, id), n) == WithId(Step(s, n), id)
  {
  }

  lemma {:induction false} RunWithId(s: State, nodes: seq<Node>, id: string)
    requires Valid(s) && HasTool(s) && AllCallNodes(nodes)
    ensures SafeRun(s, nodes) && SafeRun(WithId(s, id), nodes) && HasTool(Run(s, nodes))
    ensures Run(WithId(s, id), nodes) == WithId(Run(s, nodes), id)
    decreases |nodes|
  {
    if nodes != [] {
      StepWithId(s, nodes[0], id);
      RunWithId(Step(s, nodes[0]), nodes[1..], id);
    }
  }

  lemma CloseWithId(s: State, n: Node, id: string)
    requires Valid(s) && s.current == ToLast && n.tag == ToolClose
    ensures Step(WithId(s, id), n).calls == WithId(Step(s, n), id).calls
    ensures Step(s, n).current == ToLast
  {
  }

  predicate AllCallNodes(nodes: seq<Node>) {
    forall i | 0 <= i < |nodes| :: IsCallNode(nodes[i])
  }

  /** An id between two parts of a call. */
  lemma {:induction false} IdBetween(s: State, a: seq<Node>, b: seq<Node>, id: string, close: string)
    requires Valid(s) && HasTool(s) && AllCallNodes(a) && AllCallNodes(b)
    ensures SafeRun(s, a) && SafeRun(Run(s, a), b)
    ensures var t := Run(Run(s, a), b);
            var nodes := a + ([Node(ToolId, id)] + (b + [Node(ToolClose, close)]));
            t.current == ToLast ==>
              SafeRun(s, nodes) && Step(t, Node(ToolClose, close)).current == ToLast &&
              Run(s, nodes).calls == WithId(Step(t, Node(ToolClose, close)), IdOf(id)).calls
  {
    var i, c := Node(ToolId, id), Node(ToolClose, close);
    RunWithId(s, a, "");
    var s1 := Run(s, a);
    RunWithId(s1, b, IdOf(id));
    var t := Run(s1, b);
    if t.current == ToLast {
      CloseWithId(t, c, IdOf(id));
      RunOne(WithId(t, IdOf(id)), c);
      RunAppend(Step(s1, i), b, [c]);
      RunOne(s1, i);
      RunAppend(s1, [i], b + [c]);
      RunAppend(s, a, [i] + (b + [c]));
    }
  }

  /** A call is recorded with the id it is sent with, wherever that comes, and as without it otherwise. */
  lemma {:induction false} CallWithId(s: State, pre: seq<Node>, post: seq<Node>, k: nat, id: string,
                                      open: string, name: string, close: string)
    requires Valid(s) && TrimEnd(name) != "" && AllBody(pre) && AllBody(post)
    requires k <= |pre| + 1 + |post|
    ensures var body := pre + ([Node(ToolName, name)] + post);
            var nodes := [Node(ToolOpen, open)] + (body[..k] + ([Node(ToolId, id)] + (body[k..] + [Node(ToolClose, close)])));
            SafeRun(s, nodes) &&
            Run(s, nodes).calls == s.calls + [Call(TrimEnd(name), RecordedText(pre, post), IdOf(id))]
  {
    var o, i, c := Node(ToolOpen, open), Node(ToolId, id), Node(ToolClose, close);
    var body := pre + ([Node(ToolName, name)] + post);
    var s0 := Step(s, o);
    BodyIsCall(pre, post, name);
    IdBetween(s0, body[..k], body[k..], id, close);
    WithoutId(s, pre, post, open, name, k);
    CloseCall(Run(Run(s0, body[..k]), body[k..]), TrimEnd(name), s.calls, c);
    RunOne(s, o);
    RunAppend(s, [o], body[..k] + ([i] + (body[k..] + [c])));
  }

  lemma BodyIsCall(pre: seq<Node>, post: seq<Node>, name: string)
    requires AllBody(pre) && AllBody(post)
    ensures AllCallNodes(pre + ([Node(ToolName, name)] + post))
  {
  }

  /** The same nodes without the id. */
  lemma {:induction false} WithoutId(s: State, pre: seq<Node>, post: seq<Node>, open: string, name: string, k: nat)
    requires Valid(s) && TrimEnd(name) != "" && AllBody(pre) && AllBody(post) && k <= |pre| + 1 + |post|
    requires var body, s0 := pre + ([Node(ToolName, name)] + post), Step(s, Node(ToolOpen, open));
             SafeRun(s0, body[..k]) && SafeRun(Run(s0, body[..k]), body[k..])
    ensures var body, s0 := pre + ([Node(ToolName, name)] + post), Step(s, Node(ToolOpen, open));
            var t := Run(Run(s0, body[..k]), body[k..]);
            InCall(t, TrimEnd(name), s.calls) && CloseText(ContentOf(t)) == RecordedText(pre, post)
  {
    var body, s0 := pre + ([Node(ToolName, name)] + post), Step(s, Node(ToolOpen, open));
    RunBody(s0, s.calls, pre, post, name);
    InTwo(body, k);
    RunAppend(s0, body[..k], body[k..]);
  }

  lemma InTwo(nodes: seq<Node>, k: nat)
    requires k <= |nodes|
    ensures nodes[..k] + nodes[k..] == nodes
  {
  }

  /** All that stands between the opening and the closing of a call. */
  lemma {:induction false} RunBody(s: State, before: seq<Call>, pre: seq<Node>, post: seq<Node>, name: string)
    requires InCall(s, "", before) && ContentOf(s) == START
    requires TrimEnd(name) != "" && AllBody(pre) && AllBody(post)
    ensures var body := pre + ([Node(ToolName, name)] + post);
            SafeRun(s, body) && InCall(Run(s, body), TrimEnd(name), before) &&
            CloseText(ContentOf(Run(s, body))) == RecordedText(pre, post)
  {
    var n := Node(ToolName, name);
    RunInCall(s, "", before, pre);
    var s1 := Run(s, pre);
    NameInCall(s1, before, name);
    RunInCall(Step(s1, n), TrimEnd(name), before, post);
    RunOne(s1, n);
    RunAppend(s1, [n], post);
    RunAppend(s, pre, [n] + post);
  }

  // ----- whole arguments -----

  /**
   A call sent with its arguments as a whole, before or behind its name and with enclosing
   nodes anywhere: they are recorded without trailing space, and with every open brace closed.
   */
  lemma {:induction false} WholeArgumentsRecorded(s: State, nodes: seq<Node>, nameFirst: bool,
                                                  open: string, name: string, args: string, close: string)
    requires Valid(s) && TrimEnd(name) != "" && IsObjectText(args)
    requires Visible(nodes) ==
             if nameFirst then [Node(ToolOpen, open), Node(ToolName, name), Node(ToolArgs, args), Node(ToolClose, close)]
             else [Node(ToolOpen, open), Node(ToolArgs, args), Node(ToolName, name), Node(ToolClose, close)]
    ensures SafeRun(s, nodes)
    ensures var text := TrimEnd(args);
            Run(s, nodes).calls == s.calls + [Call(TrimEnd(name), text + Braces(D.Depth(text)), "")]
  {
    var o, n, a, c := Node(ToolOpen, open), Node(ToolName, name), Node(ToolArgs, args), Node(ToolClose, close);
    VisibleRuns(s, nodes);
    if nameFirst {
      NameThenArguments(s, o, n, a);
      RunFour(s, o, n, a, c);
    } else {
      ArgumentsThenName(s, o, n, a);
      RunFour(s, o, a, n, c);
    }
    CloseCall(if nameFirst then Step(Step(Step(s, o), n), a) else Step(Step(Step(s, o), a), n), TrimEnd(name), s.calls, c);
    assert TrimEnd(args) + "" == TrimEnd(args);
  }

  lemma {:induction false} NameThenArguments(s: State, o: Node, n: Node, a: Node)
    requires Valid(s) && o.tag == ToolOpen && n.tag == ToolName && a.tag == ToolArgs
    requires TrimEnd(n.text) != "" && IsObjectText(a.text)
    ensures Safe(s, o) && Safe(Step(s, o), n) && Safe(Step(Step(s, o), n), a)
    ensures var t := Step(Step(Step(s, o), n), a);
            InCall(t, TrimEnd(n.text), s.calls) && ContentOf(t) == Draft(TrimEnd(a.text), 0, false)
  {
    NameInCall(Step(s, o), s.calls, n.text);
  }

  lemma {:induction false} ArgumentsThenName(s: State, o: Node, n: Node, a: Node)
    requires Valid(s) && o.tag == ToolOpen && n.tag == ToolName && a.tag == ToolArgs
    requires TrimEnd(n.text) != "" && IsObjectText(a.text)
    ensures Safe(s, o) && Safe(Step(s, o), a) && Safe(Step(Step(s, o), a), n)
    ensures var t := Step(Step(Step(s, o), a), n);
            InCall(t, TrimEnd(n.text), s.calls) && ContentOf(t) == Draft(TrimEnd(a.text), 0, false)
  {
    assert InCall(Step(Step(s, o), a), "", s.calls);
    NameInCall(Step(Step(s, o), a), s.calls, n.text);
  }

  lemma {:induction false} RunFour(s: State, a: Node, b: Node, c: Node, d: Node)
    requires Safe(s, a) && Safe(Step(s, a), b) && Safe(Step(Step(s, a), b), c) && Safe(Step(Step(Step(s, a), b), c), d)
    ensures SafeRun(s, [a, b, c, d]) && Run(s, [a, b, c, d]) == Step(Step(Step(Step(s, a), b), c), d)
  {
    RunOne(Step(Step(Step(s, a), b), c), d);
    RunCons(Step(Step(s, a), b), c, [d]);
    RunCons(Step(s, a), b, [c, d]);
    RunCons(s, a, [b, c, d]);
    assert [c] + [d] == [c, d] && [b] + [c, d] == [b, c, d] && [a] + [b, c, d] == [a, b, c, d];
  }

  lemma {:induction false} RunCons(s: State, n: Node, rest: seq<Node>)
    requires Safe(s, n) && SafeRun(Step(s, n), rest)
    ensures SafeRun(s, [n] + rest) && Run(s, [n] + rest) == Run(Step(s, n), rest)
  {
    assert ([n] + rest)[1..] == rest;
  }

  /** Arguments in which every brace is closed are recorded as they are. */
  lemma ClosedArguments(text: string)
    requires D.Depth(text) <= 0
    ensures text + Braces(D.Depth(text)) == text
  {
  }
}
