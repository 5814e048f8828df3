/** One tool call, whatever its arguments and wherever its name falls: its arguments are one JSON object. */
module ToolCalls {
  import opened Sequences
  import opened ChatMessage
  import opened Options
  import opened ToolMapper
  import opened CallBody
  import J = JsonText
  import D = BraceDepth
  import V = PyValues
  import P = PyToJson

  // ----- the nodes of a call -----

  /** A string argument is sent as it is, any other value in Python's notation. */
  datatype Value = TextValue(s: string) | PythonValue(v: V.PyValue, sp: string)

  datatype Arg = Arg(open: string, name: string, value: Value, close: string)

  ghost predicate WellFormed(a: Arg) {
    a.value.PythonValue? ==> V.WellFormed(a.value.v) && P.Clean(a.value.v) && J.AllSpace(a.value.sp)
  }

  function ValueNode(v: Value): Node {
    match v
    case TextValue(s) => Node(ArgStringValue, s)
    case PythonValue(v, sp) => Node(ArgValue, V.PyPrint(v, sp, ""))
  }

  function ArgNodes(a: Arg): seq<Node> {
    [Node(ArgOpen, a.open), Node(ArgName, a.name), ValueNode(a.value), Node(ArgClose, a.close)]
  }

  function Body(args: seq<Arg>): seq<Node> {
    if args == [] then [] else ArgNodes(args[0]) + Body(args[1..])
  }

  function MemberOf(a: Arg): J.Member {
    J.Member(Trim(a.name), match a.value case TextValue(s) => J.Str(s) case PythonValue(v, _) => V.ToJson(v))
  }

  function MembersOf(args: seq<Arg>): seq<J.Member> {
    seq(|args|, i requires 0 <= i < |args| => MemberOf(args[i]))
  }

  function SpaceOf(a: Arg): string {
    match a.value case TextValue(_) => "" case PythonValue(_, sp) => sp
  }

  /** One member as the mapper writes it, followed by `rest`: no space after the colon. */
  function MemberText(a: Arg, rest: string): string {
    J.Dump(Trim(a.name), ":" + J.Print(MemberOf(a).value, SpaceOf(a), rest))
  }

  function MembersText(args: seq<Arg>, rest: string): string
    decreases |args|
  {
    if args == [] then rest
    else MemberText(args[0], AfterFirst(args, rest))
  }

  /** What follows the first member. */
  function AfterFirst(args: seq<Arg>, rest: string): string
    requires args != []
    decreases |args|, 0
  {
    if |args| == 1 then rest else "," + MembersText(args[1..], rest)
  }

  /** The arguments of the recorded call. */
  function ArgumentsText(args: seq<Arg>): string {
    "{" + MembersText(args, "}")
  }

  lemma {:induction false} BodyNodes(args: seq<Arg>)
    ensures AllBody(Body(args))
    ensures NameFirst(Body(args))
  {
    if args != [] {
      BodyNodes(args[1..]);
      var b := Body(args);
      assert b[0] == ArgNodes(args[0])[0] && b[1..][0] == ArgNodes(args[0])[1];
    }
  }

  // ----- the text of the arguments -----

  lemma {:induction false} RunOneArg(c: Draft, a: Arg, rest: string)
    requires WellFormed(a) && !c.closing
    ensures var d := BodyRun(c, ArgNodes(a));
            d.count == c.count + 1 && !d.closing && d.text != "" &&
            d.text + rest == Shown(c).text + ((if c.count > 0 then "," else "") + MemberText(a, rest))
  {
    var n := ArgNodes(a);
    var c1 := BodyStep(c, n[0]);
    var c2 := BodyStep(c1, n[1]);
    var c3 := BodyStep(c2, n[2]);
    var c4 := BodyStep(c3, n[3]);
    assert n[1..][1..][1..][1..] == [];
    assert n[1..][0] == n[1] && n[1..][1..][0] == n[2] && n[1..][1..][1..][0] == n[3];
    assert BodyRun(c, n) == BodyRun(c1, n[1..]) == BodyRun(c2, n[1..][1..]);
    assert BodyRun(c2, n[1..][1..]) == BodyRun(c3, n[1..][1..][1..]) == c4;
    RunValue(c2, a.value, a.close);
    var value := J.Print(MemberOf(a).value, SpaceOf(a), "");
    var comma := if c.count > 0 then "," else "";
    AppendMember(Shown(c).text, comma, Trim(a.name), value, rest);
    J.PrintAppend(MemberOf(a).value, SpaceOf(a), "", rest);
    assert "" + rest == rest;
  }

  /** A value node and the end of its argument write the JSON text of the value. */
  lemma {:induction false} RunValue(c: Draft, v: Value, close: string)
    requires v.PythonValue? ==> V.WellFormed(v.v) && P.Clean(v.v) && J.AllSpace(v.sp)
    requires !c.closing
    ensures BodyStep(BodyStep(c, ValueNode(v)), Node(ArgClose, close)) ==
            c.(text := c.text + J.Print(MemberOf(Arg("", "", v, "")).value, SpaceOf(Arg("", "", v, "")), ""))
  {
    match v
    case TextValue(s) => RunText(c, s, close);
    case PythonValue(v, sp) => RunPython(c, v, sp, close);
  }

  lemma {:induction false} RunText(c: Draft, s: string, close: string)
    requires !c.closing
    ensures BodyStep(BodyStep(c, Node(ArgStringValue, s)), Node(ArgClose, close)) == c.(text := c.text + J.Dump(s, ""))
  {
    QuotedText(c.text, s);
  }

  lemma {:induction false} RunPython(c: Draft, v: V.PyValue, sp: string, close: string)
    requires V.WellFormed(v) && P.Clean(v) && J.AllSpace(sp) && !c.closing
    ensures BodyStep(BodyStep(c, Node(ArgValue, V.PyPrint(v, sp, ""))), Node(ArgClose, close)) ==
            c.(text := c.text + J.Print(V.ToJson(v), sp, ""))
  {
    PythonText(v, sp);
  }

  lemma PythonText(v: V.PyValue, sp: string)
    requires V.WellFormed(v) && P.Clean(v) && J.AllSpace(sp)
    ensures ValueText(Node(ArgValue, V.PyPrint(v, sp, "")), false) == J.Print(V.ToJson(v), sp, "")
  {
    P.TranslationIsJson(v, sp);
    PrintedNonEmpty(v, sp);
  }

  lemma QuotedText(text: string, s: string)
    ensures (text + (if s == "" then "\"" else "\"" + J.Escape(s, ""))) + "\"" == text + J.Dump(s, "")
  {
    J.EscapeAppend(s, "", "\"");
    assert "" + "\"" == "\"" + "";
    Regroup("\"", J.Escape(s, ""), "\"");
    Regroup(text, "\"" + J.Escape(s, ""), "\"");
    if s == "" {
      assert J.Escape(s, "") == "" && "\"" + "" == "\"";
    }
  }

  lemma PrintedNonEmpty(v: V.PyValue, sp: string)
    requires V.WellFormed(v)
    ensures V.PyPrint(v, sp, "") != ""
  {
  }

  lemma AppendMember(text: string, comma: string, name: string, value: string, rest: string)
    ensures ((text + (comma + J.Dump(name, ":"))) + value) + rest ==
            text + (comma + J.Dump(name, ":" + (value + rest)))
  {
    J.DumpAppend(name, ":", value + rest);
    Regroup(J.Dump(name, ":"), value, rest);
    RegroupText(text, comma, J.Dump(name, ":"), value, rest);
  }

  lemma RegroupText(a: string, b: string, c: string, d: string, e: string)
    ensures ((a + (b + c)) + d) + e == a + (b + (c + (d + e)))
  {
  }

  lemma {:induction false} RunArgs(c: Draft, args: seq<Arg>, rest: string)
    requires (forall i | 0 <= i < |args| :: WellFormed(args[i])) && !c.closing
    ensures var d := BodyRun(c, Body(args));
            d.count == c.count + |args| && !d.closing &&
            Shown(d).text + rest ==
            Shown(c).text + ((if args != [] && c.count > 0 then "," else "") + MembersText(args, rest))
    decreases |args|
  {
    if args == [] {
      assert "" + rest == rest;
    } else {
      var d := BodyRun(c, ArgNodes(args[0]));
      BodyRunAppend(c, ArgNodes(args[0]), Body(args[1..]));
      RunOneArg(c, args[0], AfterFirst(args, rest));
      RunArgs(d, args[1..], rest);
      assert "" + rest == rest;
    }
  }

  // ----- the object closes and reads back -----

  lemma {:induction false} MembersStayOpen(args: seq<Arg>, rest: string)
    requires forall i | 0 <= i < |args| :: WellFormed(args[i])
    ensures D.ReadAll(D.Scan(1, false, false), MembersText(args, rest)) == D.ReadAll(D.Scan(1, false, false), rest)
    decreases |args|
  {
    if args != [] {
      var a, more := args[0], AfterFirst(args, rest);
      var open := D.Scan(1, false, false);
      MembersStayOpen(args[1..], rest);
      if |args| > 1 {
        D.ReadCons(open, ',', MembersText(args[1..], rest));
      }
      MemberIsWellFormed(a);
      D.ValueBalances(MemberOf(a).value, SpaceOf(a), 1, more);
      var value := J.Print(MemberOf(a).value, SpaceOf(a), more);
      D.ReadCons(open, ':', value);
      D.ReadDump(Trim(a.name), 1, ":" + value);
    }
  }

  lemma MemberIsWellFormed(a: Arg)
    requires WellFormed(a)
    ensures J.WellFormed(MemberOf(a).value) && J.AllSpace(SpaceOf(a))
  {
    if a.value.PythonValue? {
      P.JsonIsWellFormed(a.value.v);
    }
  }

  /** Before the closing brace exactly one brace is open. */
  lemma OneBraceOpen(args: seq<Arg>)
    requires forall i | 0 <= i < |args| :: WellFormed(args[i])
    ensures D.Depth("{" + MembersText(args, "")) == 1
  {
    MembersStayOpen(args, "");
    OpenBrace(MembersText(args, ""));
  }

  lemma OpenBrace(t: string)
    requires D.ReadAll(D.Scan(1, false, false), t) == D.Scan(1, false, false)
    ensures D.Depth("{" + t) == 1
  {
    D.ReadCons(D.Scan(0, false, false), '{', t);
  }

  lemma {:induction false} MembersTextAppend(args: seq<Arg>, a: string, b: string)
    ensures MembersText(args, a + b) == MembersText(args, a) + b
    decreases |args|
  {
    if args != [] {
      MembersTextAppend(args[1..], a, b);
      if |args| > 1 {
        Regroup(",", MembersText(args[1..], a), b);
      }
      MemberTextAppend(args[0], AfterFirst(args, a), b);
    }
  }

  lemma MemberTextAppend(x: Arg, t: string, b: string)
    ensures MemberText(x, t + b) == MemberText(x, t) + b
  {
    J.PrintAppend(MemberOf(x).value, SpaceOf(x), t, b);
    Regroup(":", J.Print(MemberOf(x).value, SpaceOf(x), t), b);
    J.DumpAppend(Trim(x.name), ":" + J.Print(MemberOf(x).value, SpaceOf(x), t), b);
  }

  lemma {:induction false} ReadMemberText(a: Arg, after: string)
    requires WellFormed(a) && after != "" && after[0] in ",}"
    ensures var t := MemberText(a, after);
            t != "" && t[0] == '"' && J.SkipSpace(t) == t &&
            J.ReadMembers(t) ==
              if after[0] == '}' then Some(([MemberOf(a)], after[1..]))
              else (var r :- J.ReadMembers(J.SkipSpace(after[1..])); Some(([MemberOf(a)] + r.0, r.1)))
  {
    MemberIsWellFormed(a);
    var value := J.Print(MemberOf(a).value, SpaceOf(a), after);
    J.ReadPrinted(MemberOf(a).value, SpaceOf(a), after);
    J.ReadEscaped(Trim(a.name), ":" + value);
    assert (":" + value)[1..] == value;
    J.PrintStarts(MemberOf(a).value, SpaceOf(a), after);
    J.ReadMember(MemberText(a, after), MemberOf(a), ":" + value, after);
  }

  lemma {:induction false} ReadMembersText(args: seq<Arg>)
    requires args != [] && forall i | 0 <= i < |args| :: WellFormed(args[i])
    ensures var t := MembersText(args, "}");
            t != "" && t[0] == '"' && J.SkipSpace(t) == t && J.ReadMembers(t) == Some((MembersOf(args), ""))
    decreases |args|
  {
    ReadMemberText(args[0], AfterFirst(args, "}"));
    MembersOfFirst(args);
    if |args| > 1 {
      var more := MembersText(args[1..], "}");
      assert ("," + more)[1..] == more;
      ReadMembersText(args[1..]);
    }
  }

  lemma MembersOfFirst(args: seq<Arg>)
    requires args != []
    ensures MembersOf(args) == [MemberOf(args[0])] + MembersOf(args[1..])
    ensures |args| == 1 ==> MembersOf(args) == [MemberOf(args[0])]
  {
  }

  /** The recorded arguments are one JSON object holding the pairs in the order they came. */
  lemma ArgumentsReadBack(args: seq<Arg>)
    requires forall i | 0 <= i < |args| :: WellFormed(args[i])
    ensures J.ReadValue(ArgumentsText(args)) == Some((J.Obj(MembersOf(args)), ""))
  {
    if args == [] {
      ObjectOf("}");
      assert MembersOf(args) == [] && MembersText(args, "}") == "}" && "}"[1..] == "";
    } else {
      ReadMembersText(args);
      ObjectOf(MembersText(args, "}"));
    }
  }

  lemma ObjectOf(t: string)
    requires t != "" && !J.IsSpace(t[0])
    ensures J.ReadValue("{" + t) ==
            if t[0] == '}' then Some((J.Obj([]), t[1..])) else (var r :- J.ReadMembers(t); Some((J.Obj(r.0), r.1)))
  {
    var s := "{" + t;
    assert s[0] == '{' && s[1..] == t;
    assert J.SkipSpace(t) == t;
  }

  // ----- the whole call -----

  /**
   The call that is recorded for arguments, with enclosing nodes anywhere and the name after
   any node of the body, the first and the last included: always the same one, with the
   complete object.
   */
  lemma {:induction false} SameCallWhereverNamed(s: State, args: seq<Arg>, pre: seq<Node>, post: seq<Node>,
                                                 open: string, name: string, close: string)
    requires Valid(s) && TrimEnd(name) != ""
    requires forall i | 0 <= i < |args| :: WellFormed(args[i])
    requires Visible(pre + post) == Body(args)
    ensures var nodes := [Node(ToolOpen, open)] + (pre + ([Node(ToolName, name)] + (post + [Node(ToolClose, close)])));
            SafeRun(s, nodes) &&
            Run(s, nodes).calls == s.calls + [Call(TrimEnd(name), ArgumentsText(args), "")]
  {
    BodyNodes(args);
    BodyVisible(Shown(START), pre + post);
    BodyParts(pre, post);
    OneCallRecorded(s, pre, post, open, name, close);
    SameWhereverNamed(pre, post);
    NamedAtStart(pre + post);
    NamedAtStart(Body(args));
    BodyIsRecorded(args);
  }

  lemma BodyParts(pre: seq<Node>, post: seq<Node>)
    requires AllBody(pre + post)
    ensures AllBody(pre) && AllBody(post)
  {
    forall i | 0 <= i < |pre| ensures IsBodyNode(pre[i]) {
      assert (pre + post)[i] == pre[i];
    }
    forall i | 0 <= i < |post| ensures IsBodyNode(post[i]) {
      assert (pre + post)[|pre| + i] == post[i];
    }
  }

  lemma BodyIsRecorded(args: seq<Arg>)
    requires forall i | 0 <= i < |args| :: WellFormed(args[i])
    ensures RecordedText([], Body(args)) == ArgumentsText(args)
  {
    var d := BodyRun(Shown(START), Body(args));
    DraftOfBody(args);
    OneBraceOpen(args);
    CloseOneBrace(d);
    NamedAtStart(Body(args));
    ClosedObject(args);
  }

  lemma DraftOfBody(args: seq<Arg>)
    requires forall i | 0 <= i < |args| :: WellFormed(args[i])
    ensures var d := BodyRun(Shown(START), Body(args));
            d.text == "{" + MembersText(args, "") && !d.closing
  {
    RunArgs(Shown(START), args, "");
    TextGrows(Shown(START), Body(args));
    FinalText(BodyRun(Shown(START), Body(args)), MembersText(args, ""));
  }

  lemma FinalText(d: Draft, members: string)
    requires d.text != "" && Shown(d).text + "" == "{" + ("" + members)
    ensures d.text == "{" + members
  {
    assert Shown(d).text + "" == Shown(d).text && "" + members == members;
  }

  lemma ClosedObject(args: seq<Arg>)
    ensures "{" + MembersText(args, "") + "}" == ArgumentsText(args)
  {
    MembersTextAppend(args, "", "}");
    Regroup("{", MembersText(args, ""), "}");
    assert "" + "}" == "}";
  }
}
