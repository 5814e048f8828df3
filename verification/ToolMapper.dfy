/**
 `common_chat_peg_mapper`: the state machine that turns the tagged nodes of a parse,
 visited in order, into a chat message with tool calls. Each node is one step: a function
 from state to state says what it does, and the methods of the class do it to the fields,
 whichever call the pointer to the current tool points to.
 */
module ToolMapper {
  import opened ChatMessage
  import opened CType
  import opened Sequences
  import opened Options
  import J = JsonText
  import Q = PyQuotes
  import D = BraceDepth

  datatype Tag =
    | Reasoning | Content
    | ToolOpen | ToolClose | ToolName | ToolId | ToolArgs
    | ArgOpen | ArgClose | ArgName | ArgValue | ArgStringValue
    | OtherTag

  datatype Node = Node(tag: Tag, text: string)

  /**
   What `current_tool` points to: nothing, the pending call, the last recorded call,
   or a pending call that has been discarded.
   */
  datatype Pointer = NoTool | ToPending | ToLast | Dangling

  datatype State = State(
    reasoning: string, content: string, calls: seq<Call>,
    pending: Option<Call>, current: Pointer,
    argCount: nat, closingQuote: bool, argsBuffer: string)

  predicate Valid(s: State) {
    && (s.current == ToPending ==> s.pending.Some?)
    && (s.current == ToLast ==> s.calls != [] && s.pending.None?)
    && (s.current in {NoTool, Dangling} ==> s.pending.None?)
  }

  /** A node that only encloses others: of no tag that is read, or arguments that are no object text. */
  predicate Silent(n: Node) {
    n.tag == OtherTag || (n.tag == ToolArgs && !IsObjectText(n.text))
  }

  predicate NeedsTool(n: Node) {
    n.tag !in {Reasoning, Content, ToolOpen, ArgOpen} && !Silent(n)
  }

  /** The source would follow a dangling pointer on any other node. */
  predicate Safe(s: State, n: Node) {
    Valid(s) && !(s.current == Dangling && NeedsTool(n))
  }

  // ----- text helpers -----

  predicate IsObjectText(text: string) {
    TrimEnd(text) != "" && TrimEnd(text)[0] == '{'
  }

  function TrimEnd(s: string): string {
    if s != "" && IsSpace(s[|s| - 1]) then TrimEnd(s[..|s| - 1]) else s
  }

  /** `trim`: at most one leading space, every trailing one. */
  function Trim(s: string): string {
    TrimEnd(if s != "" && IsSpace(s[0]) then s[1..] else s)
  }

  function Unquote(s: string): string {
    if |s| >= 2 && s[0] == '"' && s[|s| - 1] == '"' then s[1..|s| - 1] else s
  }

  function IdOf(text: string): string {
    Unquote(TrimEnd(text))
  }

  function Braces(n: int): string {
    if n <= 0 then "" else "}" + Braces(n - 1)
  }

  // ----- one step -----

  function CurrentCall(s: State): Call
    requires Valid(s) && s.current in {ToPending, ToLast}
  {
    if s.current == ToPending then s.pending.value else s.calls[|s.calls| - 1]
  }

  function WithCall(s: State, c: Call): State
    requires Valid(s) && s.current in {ToPending, ToLast}
  {
    if s.current == ToPending then s.(pending := Some(c)) else s.(calls := s.calls[|s.calls| - 1 := c])
  }

  predicate HasTool(s: State) {
    s.current in {ToPending, ToLast}
  }

  /** `args_target`: the arguments of a named call, and the buffer before that. */
  predicate TargetIsCall(s: State)
    requires Valid(s)
  {
    HasTool(s) && CurrentCall(s).name != ""
  }

  function Target(s: State): string
    requires Valid(s)
  {
    if TargetIsCall(s) then CurrentCall(s).arguments else s.argsBuffer
  }

  function WithTarget(s: State, text: string): State
    requires Valid(s)
  {
    if TargetIsCall(s) then WithCall(s, CurrentCall(s).(arguments := text)) else s.(argsBuffer := text)
  }

  function Named(s: State, name: string): State
    requires Valid(s) && HasTool(s)
  {
    var c := CurrentCall(s).(name := name);
    var c' := if s.argsBuffer != "" then c.(arguments := s.argsBuffer)
              else if c.arguments == "" then c.(arguments := "{")
              else c;
    var t := WithCall(s, c').(argsBuffer := if s.argsBuffer != "" then "" else s.argsBuffer);
    if t.pending.Some? then t.(calls := t.calls + [t.pending.value], pending := None, current := ToLast) else t
  }

  /** The text a value node adds. */
  function ValueText(n: Node, closingQuote: bool): string {
    if n.tag == ArgStringValue then
      if n.text == "" then "\"" else (if closingQuote then "" else "\"") + J.Escape(n.text, "")
    else if n.text == "" then ""
    else Q.Normalize(n.text, Q.Outside, false)
  }

  function Closed(s: State): State
    requires Valid(s) && HasTool(s)
  {
    var c := CurrentCall(s);
    var flush := c.name == "" && s.argsBuffer != "";
    var c1 := if flush then c.(arguments := s.argsBuffer) else c;
    var c2 := if s.closingQuote then c1.(arguments := c1.arguments + "\"") else c1;
    var c3 := c2.(arguments := c2.arguments + Braces(D.Depth(c2.arguments)));
    var t := WithCall(s, c3).(argsBuffer := if flush then "" else s.argsBuffer, closingQuote := false);
    if t.pending.Some? then
      t.(calls := if c.name != "" then t.calls + [c3] else t.calls, pending := None, current := Dangling)
    else t
  }

  function Step(s: State, n: Node): (t: State)
    requires Safe(s, n)
    ensures Valid(t)
  {
    match n.tag
    case Reasoning => s.(reasoning := s.reasoning + n.text)
    case Content => s.(content := s.content + n.text)
    case ToolOpen => s.(pending := Some(Call("", "", "")), current := ToPending, argCount := 0, argsBuffer := "", closingQuote := false)
    case ToolId => if HasTool(s) then WithCall(s, CurrentCall(s).(id := Unquote(TrimEnd(n.text)))) else s
    case ToolName => if HasTool(s) then Named(s, TrimEnd(n.text)) else s
    case ToolArgs =>
      var text := TrimEnd(n.text);
      if HasTool(s) && text != "" && text[0] == '{' then WithTarget(s, text) else s
    case ArgOpen => s.(closingQuote := false)
    case ArgName =>
      if HasTool(s) then
        var text := (if Target(s) == "" then "{" else Target(s)) +
                    ((if s.argCount > 0 then "," else "") + J.Dump(Trim(n.text), ":"));
        WithTarget(s, text).(argCount := s.argCount + 1)
      else s
    case ArgValue => if HasTool(s) then WithTarget(s, Target(s) + ValueText(n, s.closingQuote)) else s
    case ArgStringValue =>
      if HasTool(s) then WithTarget(s, Target(s) + ValueText(n, s.closingQuote)).(closingQuote := true) else s
    case ArgClose =>
      if HasTool(s) && s.closingQuote then WithTarget(s, Target(s) + "\"").(closingQuote := false) else s
    case ToolClose => if HasTool(s) then Closed(s) else s
    case OtherTag => s
  }

  // ----- a whole visit -----

  predicate SafeRun(s: State, nodes: seq<Node>)
    decreases |nodes|
  {
    Valid(s) && (nodes == [] || (Safe(s, nodes[0]) && SafeRun(Step(s, nodes[0]), nodes[1..])))
  }

  function Run(s: State, nodes: seq<Node>): (t: State)
    requires SafeRun(s, nodes)
    ensures Valid(t)
    decreases |nodes|
  {
    if nodes == [] then s else Run(Step(s, nodes[0]), nodes[1..])
  }

  /**
   The nodes without the silent ones. An enclosing node is visited before what it encloses,
   with all the text that has arrived of it, so that its text grows from parse to parse.
   */
  function Visible(nodes: seq<Node>): seq<Node> {
    if nodes == [] then []
    else if Silent(nodes[0]) then Visible(nodes[1..])
    else [nodes[0]] + Visible(nodes[1..])
  }

  /** Silent nodes play no part in a visit. */
  lemma {:induction false} VisibleRuns(s: State, nodes: seq<Node>)
    requires Valid(s)
    ensures SafeRun(s, nodes) <==> SafeRun(s, Visible(nodes))
    ensures SafeRun(s, nodes) ==> Run(s, nodes) == Run(s, Visible(nodes))
    decreases |nodes|
  {
    if nodes != [] && Safe(s, nodes[0]) {
      VisibleRuns(Step(s, nodes[0]), nodes[1..]);
      if Silent(nodes[0]) {
        assert Step(s, nodes[0]) == s;
      } else {
        assert Visible(nodes)[0] == nodes[0] && Visible(nodes)[1..] == Visible(nodes[1..]);
      }
    }
  }

  predicate IsBlank(s: string) {
    forall i | 0 <= i < |s| :: s[i] in " \n\r\t"
  }

  /** After the visit: a named pending call is recorded, and blank reasoning dropped. */
  function Finish(s: State): State
    requires Valid(s)
  {
    var t :=
      if s.pending.Some? && s.pending.value.name != "" then
        var c := if s.argsBuffer != "" then s.pending.value.(arguments := s.argsBuffer) else s.pending.value;
        var c' := if s.closingQuote && c.arguments != "" then c.(arguments := c.arguments + "\"") else c;
        s.(calls := s.calls + [c'], pending := None, current := Dangling)
      else s;
    if IsBlank(t.reasoning) then t.(reasoning := "") else t
  }

  class Mapper {
    var reasoning: string
    var content: string
    var calls: seq<Call>
    var pending: Option<Call>
    var current: Pointer
    var argCount: nat
    var closingQuote: bool
    var argsBuffer: string

    ghost function Abs(): State
      reads this
    {
      State(reasoning, content, calls, pending, current, argCount, closingQuote, argsBuffer)
    }

    constructor ()
      ensures Abs() == State("", "", [], None, NoTool, 0, false, "")
    {
      reasoning, content, calls := "", "", [];
      pending, current := None, NoTool;
      argCount, closingQuote, argsBuffer := 0, false, "";
    }

    method SetCall(c: Call)
      requires Valid(Abs()) && HasTool(Abs())
      modifies this`pending, this`calls
      ensures Abs() == WithCall(old(Abs()), c)
    {
      if current == ToPending {
        pending := Some(c);
      } else {
        calls := calls[|calls| - 1 := c];
      }
    }

    method GetCall() returns (c: Call)
      requires Valid(Abs()) && HasTool(Abs())
      ensures c == CurrentCall(Abs())
    {
      if current == ToPending {
        c := pending.value;
      } else {
        c := calls[|calls| - 1];
      }
    }

    method GetTarget() returns (text: string)
      requires Valid(Abs()) && HasTool(Abs())
      ensures text == Target(Abs())
    {
      var c := GetCall();
      text := if c.name != "" then c.arguments else argsBuffer;
    }

    method SetTarget(text: string)
      requires Valid(Abs()) && HasTool(Abs())
      modifies this`pending, this`calls, this`argsBuffer
      ensures Abs() == WithTarget(old(Abs()), text)
    {
      var c := GetCall();
      if c.name != "" {
        SetCall(c.(arguments := text));
      } else {
        argsBuffer := text;
      }
    }

    method SetName(text: string)
      requires Valid(Abs()) && HasTool(Abs())
      modifies this
      ensures Abs() == Named(old(Abs()), TrimEnd(text))
    {
      var c := GetCall();
      c := c.(name := TrimEnd(text));
      if argsBuffer != "" {
        c := c.(arguments := argsBuffer);
        argsBuffer := "";
      } else if c.arguments == "" {
        c := c.(arguments := "{");
      }
      SetCall(c);
      if pending.Some? {
        calls := calls + [pending.value];
        pending := None;
        current := ToLast;
      }
    }

    method Close()
      requires Valid(Abs()) && HasTool(Abs())
      modifies this
      ensures Abs() == Closed(old(Abs()))
    {
      var c := GetCall();
      var named := c.name != "";
      if !named && argsBuffer != "" {
        c := c.(arguments := argsBuffer);
        argsBuffer := "";
      }
      if closingQuote {
        c := c.(arguments := c.arguments + "\"");
        closingQuote := false;
      }
      var depth := D.JsonBraceDepth(c.arguments);
      ghost var open := c.arguments;
      ghost var total := Braces(depth);
      while depth > 0
        modifies {}
        invariant open + total == c.arguments + Braces(depth)
        invariant c.name == CurrentCall(old(Abs())).name && c.id == CurrentCall(old(Abs())).id
      {
        Regroup(c.arguments, "}", Braces(depth - 1));
        c := c.(arguments := c.arguments + "}");
        depth := depth - 1;
      }
      assert c.arguments + "" == c.arguments;
      SetCall(c);
      if pending.Some? {
        if named {
          calls := calls + [pending.value];
        }
        pending := None;
        current := Dangling;
      }
    }

    method AddArgName(text: string)
      requires Valid(Abs()) && HasTool(Abs())
      modifies this
      ensures Abs() == Step(old(Abs()), Node(ArgName, text))
    {
      var entry := if argCount > 0 then "," else "";
      entry := entry + J.Dump(Trim(text), ":");
      var target := GetTarget();
      if target == "" {
        target := "{";
      }
      argCount := argCount + 1;
      SetTarget(target + entry);
    }

    method AddValue(node: Node)
      requires Valid(Abs()) && HasTool(Abs())
      requires node.tag == ArgValue || node.tag == ArgStringValue
      modifies this
      ensures Abs() == Step(old(Abs()), node)
    {
      var isString := node.tag == ArgStringValue;
      var text := "";
      if node.text == "" && isString {
        // the closing quote comes with the end of the argument
        text := "\"";
      } else if node.text != "" && isString {
        if !closingQuote {
          text := "\"";
        }
        text := text + J.Escape(node.text, "");
      } else if node.text != "" {
        text := Q.NormalizeQuotesToJson(node.text);
      }
      var target := GetTarget();
      if isString {
        closingQuote := true;
      }
      SetTarget(target + text);
    }

    method Map(node: Node)
      requires Safe(Abs(), node)
      modifies this
      ensures Abs() == Step(old(Abs()), node)
    {
      var hasTool := current == ToPending || current == ToLast;
      match node.tag
      case Reasoning => reasoning := reasoning + node.text;
      case Content => content := content + node.text;
      case ToolOpen =>
        pending := Some(Call("", "", ""));
        current := ToPending;
        argCount := 0;
        argsBuffer := "";
        closingQuote := false;
      case ToolId =>
        if hasTool {
          var c := GetCall();
          SetCall(c.(id := Unquote(TrimEnd(node.text))));
        }
      case ToolName =>
        if hasTool {
          SetName(node.text);
        }
      case ToolArgs =>
        var text := TrimEnd(node.text);
        if hasTool && text != "" && text[0] == '{' {
          SetTarget(text);
        }
      case ArgOpen => closingQuote := false;
      case ArgName =>
        if hasTool {
          AddArgName(node.text);
        }
      case ArgValue =>
        if hasTool {
          AddValue(node);
        }
      case ArgStringValue =>
        if hasTool {
          AddValue(node);
        }
      case ArgClose =>
        if hasTool && closingQuote {
          var target := GetTarget();
          closingQuote := false;
          SetTarget(target + "\"");
        }
      case ToolClose =>
        if hasTool {
          Close();
        }
      case OtherTag =>
    }

    method FromAst(nodes: seq<Node>)
      requires SafeRun(Abs(), nodes)
      modifies this
      ensures Abs() == Finish(Run(old(Abs()), nodes))
    {
      var i := 0;
      assert nodes[0..] == nodes;
      while i < |nodes|
        invariant i <= |nodes|
        invariant SafeRun(Abs(), nodes[i..])
        invariant Run(Abs(), nodes[i..]) == Run(old(Abs()), nodes)
      {
        assert nodes[i..][1..] == nodes[i + 1..];
        Map(nodes[i]);
        i := i + 1;
      }
      if pending.Some? && pending.value.name != "" {
        var c := pending.value;
        if argsBuffer != "" {
          c := c.(arguments := argsBuffer);
        }
        if closingQuote && c.arguments != "" {
          c := c.(arguments := c.arguments + "\"");
        }
        calls := calls + [c];
        pending := None;
        current := Dangling;
      }
      if IsBlank(reasoning) {
        reasoning := "";
      }
    }
  }
}
