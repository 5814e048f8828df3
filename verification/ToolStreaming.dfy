/** The mapper run afresh on longer and longer parts of a text, and the deltas between the messages. */
module ToolStreaming {
  import opened ChatMessage
  import opened CType
  import opened Options
  import opened Sequences
  import opened ToolMapper
  import opened CallBody
  import opened MessageDiffs
  import J = JsonText
  import Q = PyQuotes
  import S = PyStreaming

  // ----- the message of a state -----

  /** Every call is named when it is recorded, never before. */
  predicate Settled(s: State) {
    Valid(s) && (s.pending.Some? ==> s.pending.value.name == "")
  }

  /** The message that is returned when the visit ends here. */
  function MessageOf(s: State): Message {
    Message(if IsBlank(s.reasoning) then "" else s.reasoning, s.content, s.calls)
  }

  lemma FinishShows(s: State)
    requires Settled(s)
    ensures var t := Finish(s);
            Message(t.reasoning, t.content, t.calls) == MessageOf(s)
  {
    if IsBlank(s.reasoning) && s.reasoning == "" {
      assert MessageOf(s).reasoning == "";
    }
  }

  /**
   The node is one that a call is sent with: one name, an id that is not taken back,
   arguments as a whole only before others, and no closing of a call without a name.
   */
  predicate Grows(s: State, n: Node)
    requires Valid(s)
  {
    match n.tag
    case ToolName => s.current != ToLast
    case ToolId => s.current == ToLast ==> IdOf(n.text) != "" || CurrentCall(s).id == ""
    case ToolArgs => TargetIsCall(s) && IsObjectText(n.text) ==> CurrentCall(s).arguments <= TrimEnd(n.text)
    case ToolClose => s.current == ToLast ==> CurrentCall(s).name != "" || s.argsBuffer == ""
    case _ => true
  }

  lemma BlankGrows(a: string, b: string)
    ensures (if IsBlank(a) then "" else a) <= (if IsBlank(a + b) then "" else a + b)
  {
    if !IsBlank(a) {
      var i :| 0 <= i < |a| && a[i] !in " \n\r\t";
      assert (a + b)[i] == a[i];
    }
  }

  /** Messages that differ in the last call only. */
  lemma LastCallDiffers(m: Message, c: Call, d: Call)
    requires m.calls != []
    ensures var k := |m.calls| - 1;
            Extends(m.(calls := m.calls[k := c]), m.(calls := m.calls[k := d])) <==> CallExtends(c, d)
  {
  }

  lemma LastCallGrows(m: Message, d: Call)
    requires m.calls != [] && CallExtends(m.calls[|m.calls| - 1], d)
    ensures Extends(m, m.(calls := m.calls[|m.calls| - 1 := d]))
  {
  }

  lemma OtherCalls(m: Message, more: seq<Call>)
    ensures Extends(m, m.(calls := m.calls + more))
  {
  }

  lemma ExtendsItself(m: Message)
    ensures Extends(m, m)
  {
  }

  // ----- one node -----

  /** A node of a call only ever extends the message. */
  lemma StepExtends(s: State, n: Node)
    requires Settled(s) && Safe(s, n) && Grows(s, n)
    ensures Settled(Step(s, n)) && Extends(MessageOf(s), MessageOf(Step(s, n)))
  {
    if n.tag in {Reasoning, Content} {
      TextExtends(s, n);
    } else if !HasTool(s) {
      NothingOpen(s, n);
    } else if n.tag == ToolName {
      NameExtends(s, n);
    } else if n.tag == ToolClose {
      CloseExtends(s, n);
    } else if s.current == ToLast {
      CallStepExtends(s, n);
    } else {
      NotYetShown(s, n);
    }
  }

  lemma TextExtends(s: State, n: Node)
    requires Settled(s) && n.tag in {Reasoning, Content}
    ensures Settled(Step(s, n)) && Extends(MessageOf(s), MessageOf(Step(s, n)))
  {
    BlankGrows(s.reasoning, n.text);
  }

  lemma NothingOpen(s: State, n: Node)
    requires Settled(s) && Safe(s, n) && !HasTool(s) && n.tag !in {Reasoning, Content}
    ensures Settled(Step(s, n)) && Extends(MessageOf(s), MessageOf(Step(s, n)))
  {
    ExtendsItself(MessageOf(s));
  }

  /** Before its name a call shows nothing. */
  lemma NotYetShown(s: State, n: Node)
    requires Settled(s) && s.current == ToPending && n.tag !in {Reasoning, Content, ToolName, ToolClose}
    ensures Settled(Step(s, n)) && Extends(MessageOf(s), MessageOf(Step(s, n)))
  {
    assert MessageOf(Step(s, n)) == MessageOf(s);
    ExtendsItself(MessageOf(s));
  }

  lemma NameExtends(s: State, n: Node)
    requires Settled(s) && s.current == ToPending && n.tag == ToolName
    ensures Settled(Step(s, n)) && Extends(MessageOf(s), MessageOf(Step(s, n)))
  {
    OtherCalls(MessageOf(s), [Step(s, n).calls[|s.calls|]]);
  }

  lemma CloseExtends(s: State, n: Node)
    requires Settled(s) && HasTool(s) && n.tag == ToolClose && Grows(s, n)
    ensures Settled(Step(s, n)) && Extends(MessageOf(s), MessageOf(Step(s, n)))
  {
    if s.current == ToLast {
      LastCallGrows(MessageOf(s), CurrentCall(Step(s, n)));
    }
  }

  /** Any other node, when it changes anything, extends the recorded call. */
  lemma CallStepExtends(s: State, n: Node)
    requires Settled(s) && s.current == ToLast && Grows(s, n)
    requires n.tag !in {Reasoning, Content, ToolName, ToolClose}
    ensures Settled(Step(s, n)) && Extends(MessageOf(s), MessageOf(Step(s, n)))
  {
    if n.tag == ToolOpen {
      ExtendsItself(MessageOf(s));
    } else {
      CallStep(s, n);
      LastCallGrows(MessageOf(s), CurrentCall(Step(s, n)));
    }
  }

  lemma CallStep(s: State, n: Node)
    requires Settled(s) && s.current == ToLast && Grows(s, n)
    requires n.tag !in {Reasoning, Content, ToolName, ToolClose, ToolOpen}
    ensures var t := Step(s, n);
            t.current == ToLast && t.pending == s.pending && t.reasoning == s.reasoning && t.content == s.content &&
            t.calls == s.calls[|s.calls| - 1 := CurrentCall(t)] && CallExtends(CurrentCall(s), CurrentCall(t))
  {
    if n.tag in {ArgName, ArgValue, ArgStringValue, ArgClose} {
      ArgumentStep(s, n);
    }
  }

  lemma ArgumentStep(s: State, n: Node)
    requires Settled(s) && s.current == ToLast && n.tag in {ArgName, ArgValue, ArgStringValue, ArgClose}
    ensures var t := Step(s, n);
            t.current == ToLast && t.pending == s.pending && t.reasoning == s.reasoning && t.content == s.content &&
            t.calls == s.calls[|s.calls| - 1 := CurrentCall(t)] && CallExtends(CurrentCall(s), CurrentCall(t))
  {
  }

  predicate AllGrow(s: State, nodes: seq<Node>)
    decreases |nodes|
  {
    Valid(s) && (nodes == [] || (Safe(s, nodes[0]) && Grows(s, nodes[0]) && AllGrow(Step(s, nodes[0]), nodes[1..])))
  }

  /** Visiting more nodes extends the message. */
  lemma {:induction false} RunExtends(s: State, nodes: seq<Node>)
    requires Settled(s) && AllGrow(s, nodes)
    ensures SafeRun(s, nodes) && Settled(Run(s, nodes)) && Extends(MessageOf(s), MessageOf(Run(s, nodes)))
    decreases |nodes|
  {
    if nodes == [] {
      OtherCalls(MessageOf(s), []);
      assert s.calls + [] == s.calls;
    } else {
      StepExtends(s, nodes[0]);
      RunExtends(Step(s, nodes[0]), nodes[1..]);
      ExtendsFurther(MessageOf(s), MessageOf(Step(s, nodes[0])), MessageOf(Run(s, nodes)));
    }
  }

  lemma {:induction false} GrowAppend(s: State, a: seq<Node>, b: seq<Node>)
    requires SafeRun(s, a)
    ensures AllGrow(s, a + b) <==> AllGrow(s, a) && AllGrow(Run(s, a), b)
    decreases |a|
  {
    if a == [] {
      assert a + b == b;
    } else {
      assert (a + b)[1..] == a[1..] + b;
      GrowAppend(Step(s, a[0]), a[1..], b);
    }
  }

  // ----- a node that is cut -----

  /** The text ends inside the node: what must hold of the part `t` that has arrived. */
  predicate CutSafe(s: State, n: Node, t: string)
    requires Valid(s) && t <= n.text
  {
    match n.tag
    case ToolId => s.current == ToLast ==> IdOf(t) == IdOf(n.text) || IdOf(n.text) != ""
    case ArgName => TargetIsCall(s) ==> Trim(t) == Trim(n.text)
    case ArgValue => TargetIsCall(s) ==> S.Safe(S.PendingOf(t, Q.Outside, false), n.text[|t|..])
    case ArgStringValue => TargetIsCall(s) && s.closingQuote && t == "" ==> n.text == ""
    case _ => true
  }

  lemma {:induction false} TrimEndPrefix(t: string, text: string)
    requires t <= text
    ensures TrimEnd(t) <= TrimEnd(text)
    decreases |text|
  {
    if t != text {
      var n := |text| - 1;
      if IsSpace(text[n]) {
        TrimEndPrefix(t, text[..n]);
      } else {
        TrimEndShort(t);
      }
    }
  }

  lemma {:induction false} TrimEndShort(t: string)
    ensures TrimEnd(t) <= t
  {
    if t != "" && IsSpace(t[|t| - 1]) {
      TrimEndShort(t[..|t| - 1]);
    }
  }

  /** What is read back tells escaped strings apart, so one is never the beginning of another. */
  lemma DumpedNames(a: string, b: string)
    ensures J.Dump(a, ":") <= J.Dump(b, ":") <==> a == b
  {
    if J.Dump(a, ":") <= J.Dump(b, ":") {
      var x, y := J.Escape(a, "\"" + ":"), J.Escape(b, "\"" + ":");
      DropQuote(x, y);
      SameName(a, b, y[|x|..]);
    }
  }

  lemma SameName(a: string, b: string, rest: string)
    requires J.Escape(a, "\"" + ":") + rest == J.Escape(b, "\"" + ":")
    ensures a == b
  {
    J.EscapeAppend(a, "\"" + ":", rest);
    Regroup("\"", ":", rest);
    J.ReadEscaped(a, ":" + rest);
    J.ReadEscaped(b, ":");
  }

  lemma DropQuote(x: string, y: string)
    requires "\"" + x <= "\"" + y
    ensures x <= y
  {
    assert ("\"" + x)[1..] == x && ("\"" + y)[1..] == y;
  }

  lemma AfterSame(o: string, x: string, y: string)
    ensures o + x <= o + y <==> x <= y
  {
    if o + x <= o + y {
      assert (o + x)[|o|..] == x && (o + y)[|o|..] == y;
    } else if x <= y {
      PrefixAfter(o, x, y);
    }
  }

  lemma NameTexts(comma: string, a: string, b: string)
    ensures comma + J.Dump(a, ":") <= comma + J.Dump(b, ":") <==> a == b
  {
    AfterSame(comma, J.Dump(a, ":"), J.Dump(b, ":"));
    DumpedNames(a, b);
  }

  lemma ValueTexts(t: string, text: string)
    requires t <= text
    ensures var n := Node(ArgValue, text);
            ValueText(n.(text := t), false) <= ValueText(n, false) <==>
            S.Safe(S.PendingOf(t, Q.Outside, false), text[|t|..])
  {
    assert t + text[|t|..] == text;
    S.CutIsPrefix(t, text[|t|..], Q.Outside, false);
  }

  /** An escaped character never begins with a quote. */
  lemma EscapeStarts(text: string)
    requires text != ""
    ensures J.Escape(text, "") != "" && J.Escape(text, "")[0] != '"'
  {
    var c := text[0];
    assert J.EscapeChar(c) != "" && J.EscapeChar(c)[0] != '"';
  }

  lemma StringTexts(t: string, text: string, closing: bool)
    requires t <= text
    ensures var n := Node(ArgStringValue, text);
            ValueText(n.(text := t), closing) <= ValueText(n, closing) <==> (closing && t == "" ==> text == "")
  {
    var quote := if closing then "" else "\"";
    if t == "" {
      if text != "" {
        EscapeStarts(text);
        assert quote + J.Escape(text, "") != "" && (quote + J.Escape(text, ""))[0] == if closing then J.Escape(text, "")[0] else '"';
      }
    } else {
      J.EscapePrefix(t, text);
      PrefixAfter(quote, J.Escape(t, ""), J.Escape(text, ""));
    }
  }

  /** States that differ in the arguments of the recorded call. */
  lemma ArgumentsDiffer(s: State, x: string, y: string)
    requires Settled(s) && TargetIsCall(s)
    ensures Extends(MessageOf(WithTarget(s, x)), MessageOf(WithTarget(s, y))) <==> x <= y
  {
    var c := CurrentCall(s);
    LastCallDiffers(MessageOf(s), c.(arguments := x), c.(arguments := y));
  }

  /** Outside a named call, arguments are kept in the buffer and show nothing. */
  lemma ArgumentsHidden(s: State, x: string)
    requires Settled(s) && !TargetIsCall(s)
    ensures MessageOf(WithTarget(s, x)) == MessageOf(s)
  {
  }

  /** A node that writes `o + x` for the part and `o + y` for the whole. */
  lemma WritesDiffer(s: State, o: string, x: string, y: string)
    requires Settled(s)
    ensures Extends(MessageOf(WithTarget(s, o + x)), MessageOf(WithTarget(s, o + y))) <==>
            (TargetIsCall(s) ==> x <= y)
  {
    if TargetIsCall(s) {
      ArgumentsDiffer(s, o + x, o + y);
      AfterSame(o, x, y);
    } else {
      ArgumentsHidden(s, o + x);
      ArgumentsHidden(s, o + y);
      ExtendsItself(MessageOf(s));
    }
  }

  lemma CutName(s: State, n: Node, t: string)
    requires Settled(s) && s.current == ToPending && n.tag == ToolName && t <= n.text
    ensures Extends(MessageOf(Step(s, n.(text := t))), MessageOf(Step(s, n)))
  {
    TrimEndPrefix(t, n.text);
    var m := MessageOf(Step(s, n));
    var k := |s.calls|;
    var c, d := Step(s, n.(text := t)).calls[k], m.calls[k];
    assert Step(s, n.(text := t)).calls == m.calls[k := c] && m.calls[k := d] == m.calls;
    LastCallDiffers(m, c, d);
  }

  lemma CutId(s: State, n: Node, t: string)
    requires Settled(s) && HasTool(s) && n.tag == ToolId && t <= n.text
    ensures Extends(MessageOf(Step(s, n.(text := t))), MessageOf(Step(s, n))) <==> CutSafe(s, n, t)
  {
    if s.current == ToLast {
      var c := CurrentCall(s);
      LastCallDiffers(MessageOf(s), c.(id := IdOf(t)), c.(id := IdOf(n.text)));
    } else {
      ExtendsItself(MessageOf(s));
    }
  }

  lemma CutArgs(s: State, n: Node, t: string)
    requires Settled(s) && HasTool(s) && n.tag == ToolArgs && Grows(s, n) && t <= n.text
    ensures Extends(MessageOf(Step(s, n.(text := t))), MessageOf(Step(s, n)))
  {
    TrimEndPrefix(t, n.text);
    var x, y := TrimEnd(t), TrimEnd(n.text);
    if TargetIsCall(s) {
      var a := CurrentCall(s).arguments;
      assert WithTarget(s, a).calls == s.calls;
      ArgumentsDiffer(s, if IsObjectText(t) then x else a, if IsObjectText(n.text) then y else a);
    } else {
      ArgumentsHidden(s, x);
      ArgumentsHidden(s, y);
      ExtendsItself(MessageOf(s));
    }
  }

  lemma CutText(s: State, n: Node, t: string)
    requires Settled(s) && n.tag in {Reasoning, Content} && t <= n.text
    ensures Extends(MessageOf(Step(s, n.(text := t))), MessageOf(Step(s, n)))
  {
    var rest := n.text[|t|..];
    assert t + rest == n.text;
    if n.tag == Reasoning {
      Regroup(s.reasoning, t, rest);
      BlankGrows(s.reasoning + t, rest);
    } else {
      PrefixAfter(s.content, t, n.text);
    }
  }

  lemma CutArgName(s: State, n: Node, t: string)
    requires Settled(s) && HasTool(s) && n.tag == ArgName && t <= n.text
    ensures Extends(MessageOf(Step(s, n.(text := t))), MessageOf(Step(s, n))) <==> CutSafe(s, n, t)
  {
    var comma := if s.argCount > 0 then "," else "";
    var target := if Target(s) == "" then "{" else Target(s);
    NameTexts(comma, Trim(t), Trim(n.text));
    WritesDiffer(s, target, comma + J.Dump(Trim(t), ":"), comma + J.Dump(Trim(n.text), ":"));
    NameWritten(s, n.(text := t));
    NameWritten(s, n);
  }

  lemma NameWritten(s: State, n: Node)
    requires Settled(s) && HasTool(s) && n.tag == ArgName
    ensures var comma := if s.argCount > 0 then "," else "";
            var target := if Target(s) == "" then "{" else Target(s);
            MessageOf(Step(s, n)) == MessageOf(WithTarget(s, target + (comma + J.Dump(Trim(n.text), ":"))))
  {
  }

  lemma CutArgValue(s: State, n: Node, t: string)
    requires Settled(s) && HasTool(s) && n.tag in {ArgValue, ArgStringValue} && t <= n.text
    ensures Extends(MessageOf(Step(s, n.(text := t))), MessageOf(Step(s, n))) <==> CutSafe(s, n, t)
  {
    var c := n.(text := t);
    if n.tag == ArgValue {
      ValueTexts(t, n.text);
    } else {
      StringTexts(t, n.text, s.closingQuote);
    }
    WritesDiffer(s, Target(s), ValueText(c, s.closingQuote), ValueText(n, s.closingQuote));
    ValueWritten(s, c);
    ValueWritten(s, n);
  }

  lemma ValueWritten(s: State, n: Node)
    requires Settled(s) && HasTool(s) && n.tag in {ArgValue, ArgStringValue}
    ensures MessageOf(Step(s, n)) == MessageOf(WithTarget(s, Target(s) + ValueText(n, s.closingQuote)))
  {
  }

  lemma CutIsSafe(s: State, n: Node, t: string)
    requires Safe(s, n) && t <= n.text
    ensures Safe(s, n.(text := t))
  {
    TrimEndPrefix(t, n.text);
  }

  /** The message of a text that ends inside a node is extended by that of the whole node exactly when the cut is safe. */
  lemma CutExtendsIff(s: State, n: Node, t: string)
    requires Settled(s) && Safe(s, n) && Grows(s, n) && t <= n.text
    ensures Safe(s, n.(text := t))
    ensures Extends(MessageOf(Step(s, n.(text := t))), MessageOf(Step(s, n))) <==> CutSafe(s, n, t)
  {
    CutIsSafe(s, n, t);
    if n.tag in {Reasoning, Content} {
      CutText(s, n, t);
    } else if !HasTool(s) || n.tag in {ToolOpen, ArgOpen, ArgClose, ToolClose, OtherTag} {
      assert Step(s, n.(text := t)) == Step(s, n);
      ExtendsItself(MessageOf(Step(s, n)));
    } else if n.tag == ToolName {
      CutName(s, n, t);
    } else if n.tag == ToolId {
      CutId(s, n, t);
    } else if n.tag == ToolArgs {
      CutArgs(s, n, t);
    } else if n.tag == ArgName {
      CutArgName(s, n, t);
    } else {
      CutArgValue(s, n, t);
    }
  }

  /** Inside a word the literals are taken back: "Tr" shows `true`, "Trust" shows itself. */
  lemma WordValueIsTakenBack(s: State)
    requires Settled(s) && TargetIsCall(s)
    ensures !Extends(MessageOf(Step(s, Node(ArgValue, "Tr"))), MessageOf(Step(s, Node(ArgValue, "Trust"))))
  {
    var n := Node(ArgValue, "Trust");
    assert "Tr" <= "Trust";
    CutExtendsIff(s, n, "Tr");
    S.OpenWordIsTakenBack();
    ValueTexts("Tr", "Trust");
  }

  // ----- a parse of part of the text -----

  const INIT := State("", "", [], None, NoTool, 0, false, "")

  /** `a` are the first nodes of `b`, the last of them cut safely. */
  predicate IsCut(a: seq<Node>, b: seq<Node>) {
    a == [] ||
    (|a| <= |b| &&
     var k := |a| - 1;
     a[..k] == b[..k] && a[k].text <= b[k].text && a[k] == b[k].(text := a[k].text) &&
     SafeRun(INIT, b[..k]) && CutSafe(Run(INIT, b[..k]), b[k], a[k].text))
  }

  lemma AroundNode(nodes: seq<Node>, k: nat)
    requires k < |nodes|
    ensures nodes == nodes[..k] + ([nodes[k]] + nodes[k + 1..])
  {
  }

  /** The message of the part is extended by the message of the whole. */
  lemma CutVisitExtends(a: seq<Node>, b: seq<Node>)
    requires IsCut(a, b) && AllGrow(INIT, b)
    ensures SafeRun(INIT, a) && SafeRun(INIT, b)
    ensures Extends(MessageOf(Run(INIT, a)), MessageOf(Run(INIT, b)))
  {
    RunExtends(INIT, b);
    if a != [] {
      var k := |a| - 1;
      var n, c := b[k], a[k];
      AroundNode(b, k);
      GrowAppend(INIT, b[..k], [n] + b[k + 1..]);
      RunExtends(INIT, b[..k]);
      var s := Run(INIT, b[..k]);
      CutStep(s, n, c.text, b[k + 1..]);
      RunAppend(INIT, b[..k], [n] + b[k + 1..]);
      RunAppend(INIT, b[..k], [c]);
      assert a == b[..k] + [c];
    }
  }

  /** From the node that is cut on. */
  lemma CutStep(s: State, n: Node, t: string, rest: seq<Node>)
    requires Settled(s) && AllGrow(s, [n] + rest) && t <= n.text && CutSafe(s, n, t)
    ensures SafeRun(s, [n.(text := t)]) && SafeRun(s, [n] + rest)
    ensures Extends(MessageOf(Run(s, [n.(text := t)])), MessageOf(Run(s, [n] + rest)))
  {
    assert ([n] + rest)[1..] == rest;
    RunExtends(s, [n] + rest);
    CutExtendsIff(s, n, t);
    StepExtends(s, n);
    RunExtends(Step(s, n), rest);
    RunOne(s, n.(text := t));
    ExtendsFurther(MessageOf(Step(s, n.(text := t))), MessageOf(Step(s, n)), MessageOf(Run(Step(s, n), rest)));
  }

  /**
   `a` is a parse of a part of the text of `b`: but for the nodes that enclose others, whose
   texts may differ, it has the first nodes of `b`, the last of them cut safely.
   */
  predicate IsPart(a: seq<Node>, b: seq<Node>) {
    IsCut(Visible(a), Visible(b))
  }

  lemma PartExtends(a: seq<Node>, b: seq<Node>)
    requires IsPart(a, b) && AllGrow(INIT, Visible(b))
    ensures SafeRun(INIT, a) && SafeRun(INIT, b)
    ensures Extends(MessageOf(Run(INIT, a)), MessageOf(Run(INIT, b)))
  {
    CutVisitExtends(Visible(a), Visible(b));
    VisibleRuns(INIT, a);
    VisibleRuns(INIT, b);
  }

  // ----- a stream of parses -----

  /** The parses of longer and longer parts of a text, from nothing on. */
  predicate IsParseStream(parses: seq<seq<Node>>) {
    && parses != [] && Visible(parses[0]) == []
    && (forall i | 0 <= i < |parses| :: AllGrow(INIT, Visible(parses[i])))
    && forall i | 0 <= i < |parses| - 1 :: IsPart(parses[i], parses[i + 1])
  }

  predicate AllSafe(parses: seq<seq<Node>>) {
    forall i | 0 <= i < |parses| :: SafeRun(INIT, parses[i])
  }

  /** The mapper is run afresh on every parse. */
  function Messages(parses: seq<seq<Node>>): seq<Message>
    requires AllSafe(parses)
  {
    seq(|parses|, i requires 0 <= i < |parses| => MessageOf(Run(INIT, parses[i])))
  }

  lemma StreamIsSafe(parses: seq<seq<Node>>)
    requires IsParseStream(parses)
    ensures AllSafe(parses)
  {
    forall i | 0 <= i < |parses| ensures SafeRun(INIT, parses[i]) {
      RunExtends(INIT, Visible(parses[i]));
      VisibleRuns(INIT, parses[i]);
    }
  }

  /** The deltas of a stream of parses never fail, and applied in order they give the last message. */
  lemma ParsesAreRebuilt(parses: seq<seq<Node>>)
    requires IsParseStream(parses)
    ensures AllSafe(parses)
    ensures var ms := Messages(parses);
            IsStream(ms) && StreamDeltas(ms).Some? && ApplyAll(EMPTY, StreamDeltas(ms).value) == ms[|ms| - 1]
  {
    StreamIsSafe(parses);
    var ms := Messages(parses);
    VisibleRuns(INIT, parses[0]);
    assert IsBlank("") && MessageOf(INIT) == EMPTY;
    forall i | 0 <= i < |ms| - 1 ensures Extends(ms[i], ms[i + 1]) {
      assert IsPart(parses[i], parses[i + 1]);
      PartExtends(parses[i], parses[i + 1]);
    }
    StreamRebuilds(ms);
  }

  // ----- what a call is sent with -----

  /** As `Grows`, of a node of which any part may have arrived: the id and whole arguments come once. */
  predicate Once(s: State, n: Node)
    requires Valid(s)
  {
    match n.tag
    case ToolName => s.current != ToLast
    case ToolId => s.current == ToLast ==> CurrentCall(s).id == ""
    case ToolArgs => TargetIsCall(s) && IsObjectText(n.text) ==> CurrentCall(s).arguments <= "{"
    case ToolClose => s.current == ToLast ==> CurrentCall(s).name != "" || s.argsBuffer == ""
    case _ => true
  }

  predicate AllOnce(s: State, nodes: seq<Node>)
    decreases |nodes|
  {
    Valid(s) && (nodes == [] || (Safe(s, nodes[0]) && Once(s, nodes[0]) && AllOnce(Step(s, nodes[0]), nodes[1..])))
  }

  lemma {:induction false} OnceGrows(s: State, nodes: seq<Node>)
    requires AllOnce(s, nodes)
    ensures AllGrow(s, nodes) && SafeRun(s, nodes)
    decreases |nodes|
  {
    if nodes != [] {
      OnceGrows(Step(s, nodes[0]), nodes[1..]);
    }
  }

  lemma {:induction false} OnceAppend(s: State, a: seq<Node>, b: seq<Node>)
    requires SafeRun(s, a)
    ensures AllOnce(s, a + b) <==> AllOnce(s, a) && AllOnce(Run(s, a), b)
    decreases |a|
  {
    if a == [] {
      assert a + b == b;
    } else {
      assert (a + b)[1..] == a[1..] + b;
      OnceAppend(Step(s, a[0]), a[1..], b);
    }
  }

  lemma OneOnce(s: State, n: Node)
    requires Safe(s, n) && Once(s, n)
    ensures AllOnce(s, [n]) && SafeRun(s, [n]) && Run(s, [n]) == Step(s, n)
  {
    assert [n][1..] == [];
  }

  lemma CutOnce(s: State, n: Node, t: string)
    requires Safe(s, n) && Once(s, n) && t <= n.text
    ensures Safe(s, n.(text := t)) && Once(s, n.(text := t))
  {
    CutIsSafe(s, n, t);
    TrimEndPrefix(t, n.text);
  }

  /** What a part has of a visit in which everything comes once comes once. */
  lemma CutVisitOnce(a: seq<Node>, b: seq<Node>)
    requires IsCut(a, b) && AllOnce(INIT, b)
    ensures AllOnce(INIT, a)
  {
    if a != [] {
      var k := |a| - 1;
      var n, c := b[k], a[k];
      AroundNode(b, k);
      OnceAppend(INIT, b[..k], [n] + b[k + 1..]);
      var s := Run(INIT, b[..k]);
      assert ([n] + b[k + 1..])[0] == n;
      CutOnce(s, n, c.text);
      OneOnce(s, c);
      OnceAppend(INIT, b[..k], [c]);
      assert a == b[..k] + [c];
    }
  }

  lemma {:induction false} VisibleOnce(s: State, nodes: seq<Node>)
    requires AllOnce(s, nodes)
    ensures AllOnce(s, Visible(nodes))
    decreases |nodes|
  {
    if nodes != [] {
      VisibleOnce(Step(s, nodes[0]), nodes[1..]);
      if !Silent(nodes[0]) {
        assert Visible(nodes)[1..] == Visible(nodes[1..]);
      }
    }
  }

  // ----- conversations -----

  /**
   A piece of a message: a text, or a tool call with its name anywhere among the nodes it is
   sent with. Grammars without a mark at the end of a call give no closing node.
   */
  datatype Item = TextItem(tag: Tag, text: string)
                | CallItem(open: string, pre: seq<Node>, name: string, post: seq<Node>, close: Option<string>)

  /**
   The nodes a call is sent with, in any order: argument nodes, enclosing nodes, one id
   (unless `id` was sent), and whole arguments unless arguments have `begun`.
   */
  predicate IsSent(nodes: seq<Node>, id: bool, begun: bool)
    decreases |nodes|
  {
    nodes == [] ||
    (MaySend(nodes[0], id, begun) &&
     IsSent(nodes[1..], id || nodes[0].tag == ToolId, begun || Begins(nodes[0])))
  }

  predicate MaySend(n: Node, id: bool, begun: bool) {
    IsBodyNode(n) || (n.tag == ToolId && !id) || (n.tag == ToolArgs && !begun)
  }

  predicate Begins(n: Node) {
    n.tag != ToolId && !AddsNothing(n)
  }

  predicate IsGood(item: Item) {
    match item
    case TextItem(tag, _) => tag in {Reasoning, Content, OtherTag}
    case CallItem(_, pre, name, post, _) => IsSent(pre + post, false, false) && TrimEnd(name) != ""
  }

  function CloseNodes(close: Option<string>): seq<Node> {
    if close.Some? then [Node(ToolClose, close.value)] else []
  }

  function ItemNodes(item: Item): seq<Node> {
    match item
    case TextItem(tag, text) => [Node(tag, text)]
    case CallItem(open, pre, name, post, close) =>
      [Node(ToolOpen, open)] + (pre + ([Node(ToolName, name)] + (post + CloseNodes(close))))
  }

  function Nodes(items: seq<Item>): seq<Node> {
    if items == [] then [] else ItemNodes(items[0]) + Nodes(items[1..])
  }

  /** Inside a call, named or not: what has not been sent is not there. */
  predicate IsOpen(s: State, named: bool, id: bool, begun: bool) {
    && Settled(s)
    && s.current == (if named then ToLast else ToPending)
    && TargetIsCall(s) == named
    && (named ==> s.argsBuffer == "")
    && (!named ==> CurrentCall(s).arguments == "")
    && (!id ==> CurrentCall(s).id == "")
    && (!begun ==> Target(s) == (if named then "{" else "") && !s.closingQuote)
  }

  lemma SentStep(s: State, named: bool, id: bool, begun: bool, n: Node)
    requires IsOpen(s, named, id, begun) && MaySend(n, id, begun)
    ensures Safe(s, n) && Once(s, n)
    ensures IsOpen(Step(s, n), named, id || n.tag == ToolId, begun || Begins(n))
  {
    if IsBodyNode(n) {
      BodyNodeSent(s, named, id, begun, n);
    }
  }

  lemma BodyNodeSent(s: State, named: bool, id: bool, begun: bool, n: Node)
    requires IsOpen(s, named, id, begun) && IsBodyNode(n)
    ensures Safe(s, n) && Once(s, n) && IsOpen(Step(s, n), named, id, begun || Begins(n))
  {
    assert Target(s) + "" == Target(s);
  }

  lemma {:induction false} SentRun(s: State, named: bool, id: bool, begun: bool, nodes: seq<Node>, rest: seq<Node>)
    returns (i: bool, b: bool)
    requires IsOpen(s, named, id, begun) && IsSent(nodes + rest, id, begun)
    ensures SafeRun(s, nodes) && AllOnce(s, nodes)
    ensures IsOpen(Run(s, nodes), named, i, b) && IsSent(rest, i, b)
    decreases |nodes|
  {
    i, b := id, begun;
    if nodes == [] {
      assert nodes + rest == rest;
    } else {
      assert (nodes + rest)[1..] == nodes[1..] + rest;
      SentStep(s, named, id, begun, nodes[0]);
      i, b := SentRun(Step(s, nodes[0]), named, id || nodes[0].tag == ToolId, begun || Begins(nodes[0]), nodes[1..], rest);
    }
  }

  lemma SentName(s: State, id: bool, begun: bool, n: Node)
    requires IsOpen(s, false, id, begun) && n.tag == ToolName && TrimEnd(n.text) != ""
    ensures Safe(s, n) && Once(s, n) && IsOpen(Step(s, n), true, id, begun)
  {
  }

  lemma CloseOnce(s: State, id: bool, begun: bool, close: Option<string>)
    requires IsOpen(s, true, id, begun)
    ensures AllOnce(s, CloseNodes(close)) && SafeRun(s, CloseNodes(close))
    ensures Settled(Run(s, CloseNodes(close)))
  {
    if close.Some? {
      OneOnce(s, Node(ToolClose, close.value));
    }
  }

  lemma CallIsOnce(s: State, item: Item)
    requires Settled(s) && item.CallItem? && IsGood(item)
    ensures AllOnce(s, ItemNodes(item))
  {
    var o, n, c := Node(ToolOpen, item.open), Node(ToolName, item.name), CloseNodes(item.close);
    OneOnce(s, o);
    var s0 := Step(s, o);
    var i, b := SentRun(s0, false, false, false, item.pre, item.post);
    var s1 := Run(s0, item.pre);
    SentName(s1, i, b, n);
    OneOnce(s1, n);
    var s2 := Step(s1, n);
    assert item.post + [] == item.post;
    var i', b' := SentRun(s2, true, i, b, item.post, []);
    CloseOnce(Run(s2, item.post), i', b', item.close);
    OnceAppend(s2, item.post, c);
    OnceAppend(s1, [n], item.post + c);
    OnceAppend(s0, item.pre, [n] + (item.post + c));
    OnceAppend(s, [o], item.pre + ([n] + (item.post + c)));
  }

  /** In a conversation every node comes once, from any settled state. */
  lemma {:induction false} ConversationOnce(s: State, items: seq<Item>)
    requires Settled(s) && forall i | 0 <= i < |items| :: IsGood(items[i])
    ensures AllOnce(s, Nodes(items))
    decreases |items|
  {
    if items != [] {
      if items[0].CallItem? {
        CallIsOnce(s, items[0]);
      } else {
        OneOnce(s, ItemNodes(items[0])[0]);
      }
      OnceGrows(s, ItemNodes(items[0]));
      RunExtends(s, ItemNodes(items[0]));
      ConversationOnce(Run(s, ItemNodes(items[0])), items[1..]);
      OnceAppend(s, ItemNodes(items[0]), Nodes(items[1..]));
    }
  }

  /** Each parse is a part of the next one, and the last is of the whole conversation. */
  predicate IsStreamOf(parses: seq<seq<Node>>, items: seq<Item>) {
    && parses != [] && Visible(parses[0]) == [] && Visible(parses[|parses| - 1]) == Visible(Nodes(items))
    && forall i | 0 <= i < |parses| - 1 :: IsPart(parses[i], parses[i + 1])
  }

  lemma {:induction false} ParsesOnce(parses: seq<seq<Node>>, items: seq<Item>, i: nat)
    requires IsStreamOf(parses, items) && i < |parses|
    requires forall j | 0 <= j < |items| :: IsGood(items[j])
    ensures AllOnce(INIT, Visible(parses[i]))
    decreases |parses| - i
  {
    if i == |parses| - 1 {
      ConversationOnce(INIT, items);
      VisibleOnce(INIT, Nodes(items));
    } else {
      ParsesOnce(parses, items, i + 1);
      CutVisitOnce(Visible(parses[i]), Visible(parses[i + 1]));
    }
  }

  /**
   A conversation of texts and tool calls, parsed afresh on longer and longer parts that are
   cut safely: the deltas never fail, and the client ends with the message of the whole.
   */
  lemma ConversationIsRebuilt(parses: seq<seq<Node>>, items: seq<Item>)
    requires IsStreamOf(parses, items) && forall j | 0 <= j < |items| :: IsGood(items[j])
    ensures AllSafe(parses) && SafeRun(INIT, Nodes(items))
    ensures var ms := Messages(parses);
            StreamDeltas(ms).Some? && ApplyAll(EMPTY, StreamDeltas(ms).value) == MessageOf(Run(INIT, Nodes(items)))
  {
    forall i | 0 <= i < |parses| ensures AllGrow(INIT, Visible(parses[i])) {
      ParsesOnce(parses, items, i);
      OnceGrows(INIT, Visible(parses[i]));
    }
    ParsesAreRebuilt(parses);
    VisibleRuns(INIT, parses[|parses| - 1]);
    VisibleRuns(INIT, Nodes(items));
  }
}
