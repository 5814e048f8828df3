/** A cut MiniMax-M3 tree shows all that has arrived: completed, its text is the value that has arrived. */
module MinimaxArrived {
  import opened Sequences
  import opened Options
  import opened MinimaxAst
  import J = JsonText

  // ----- what has arrived -----

  predicate IsScalar(v: J.Json) {
    v.Null? || v.Bool? || v.Num?
  }

  /**
   What has arrived of an open value is `v`, but for the end `rest` of its text: the end of
   a word or number, the quote of a string, the brackets that are still open.
   */
  ghost predicate Arrived(w: Option<Node>, v: J.Json, rest: string)
    decreases v, 1
  {
    J.WellFormed(v) &&
    match w
    case None => rest == J.Print(v, "", "")
    case Some(n) =>
      match v
      case Str(s) => n.tag == StringValue && n.text == s && rest == "\""
      case Arr(items) => n.tag == ArgArray && ArrivedItems(Collect(n.children, ArgItem), items, rest)
      case Obj(members) => n.tag == ArgObject && ArrivedMembers(Collect(n.children, ToolArg), members, rest)
      case _ => n.tag == ArgValue && n.text + rest == J.Print(v, "", "")
  }

  /** Nothing of an item has arrived that could be shown. */
  predicate IsBareItem(n: Node) {
    var w := ValueOf(n.children);
    n.partial && (w.None? || (w.value.tag == ArgValue && w.value.text == ""))
  }

  /** Nothing of an argument has arrived that could be shown. */
  predicate IsBareMember(n: Node) {
    n.partial && FindByTag(n.children, ArgName, MAX_DEPTH).None?
  }

  predicate EndsWith(rest: string, last: char) {
    rest != "" && rest[|rest| - 1] == last
  }

  /** All entries but the last are whole. */
  ghost predicate ArrivedItems(ns: seq<Node>, vs: seq<J.Json>, rest: string)
    decreases vs, 0
  {
    if ns == [] || (|ns| == 1 && IsBareItem(ns[0])) then vs == [] && rest == "]"
    else
      vs != [] &&
      if |ns| == 1 && ns[0].partial then
        |vs| == 1 && EndsWith(rest, ']') && Arrived(ValueOf(ns[0].children), vs[0], rest[..|rest| - 1])
      else RepresentsEntry(ns[0], vs[0]) && ArrivedItems(ns[1..], vs[1..], rest)
  }

  ghost predicate ArrivedMembers(ns: seq<Node>, ms: seq<J.Member>, rest: string)
    decreases ms, 0
  {
    if ns == [] || (|ns| == 1 && IsBareMember(ns[0])) then ms == [] && rest == "}"
    else
      ms != [] && HasName(ns[0], ms[0].key) &&
      if |ns| == 1 && ns[0].partial then
        |ms| == 1 && EndsWith(rest, '}') && Arrived(ValueOf(ns[0].children), ms[0].value, rest[..|rest| - 1])
      else RepresentsEntry(ns[0], ms[0].value) && ArrivedMembers(ns[1..], ms[1..], rest)
  }

  predicate HasName(n: Node, key: string) {
    var name := FindByTag(n.children, ArgName, MAX_DEPTH);
    name.Some? && name.value.text == key
  }

  // ----- it is all shown -----

  /** Completed with what is missing, the shown text is the text of the value that has arrived. */
  lemma {:induction false} ArrivedPrints(w: Option<Node>, v: J.Json, rest: string)
    requires Arrived(w, v, rest)
    ensures ValueToJson(w, false) + rest == J.Print(v, "", "")
    decreases v, 1
  {
    if w.None? {
      assert "" + rest == rest;
    } else {
      var n := w.value;
      match v
      case Str(s) => OpenString(s);
      case Arr(items) => ArrivedArrayPrints(n, items, rest);
      case Obj(members) => ArrivedObjectPrints(n, members, rest);
      case _ =>
    }
  }

  lemma OpenString(s: string)
    ensures ("\"" + (J.Escape(s, "") + "")) + "\"" == J.Dump(s, "")
  {
    StringPrints(s);
    OpenBracket("\"", J.Escape(s, ""), "\"");
  }

  lemma OpenBracket(open: string, inner: string, rest: string)
    ensures (open + (inner + "")) + rest == open + (inner + rest)
  {
    assert inner + "" == inner;
  }

  lemma {:induction false} ArrivedArrayPrints(n: Node, items: seq<J.Json>, rest: string)
    requires ArrivedItems(Collect(n.children, ArgItem), items, rest)
    ensures ContainerToJson(n, false, false) + rest == J.Print(J.Arr(items), "", "")
    decreases items, 2
  {
    var ns := Collect(n.children, ArgItem);
    ArrivedItemsPrint(ns, items, false, rest);
    OpenBracket("[", Join(ns, false, false), rest);
    assert "" + J.PrintItems(items, "", "]") == J.PrintItems(items, "", "]") && "]" + "" == "]";
  }

  /** The same for the arguments of a call. */
  lemma {:induction false} ArrivedObjectPrints(n: Node, members: seq<J.Member>, rest: string)
    requires ArrivedMembers(Collect(n.children, ToolArg), members, rest)
    ensures ContainerToJson(n, true, false) + rest == J.Print(J.Obj(members), "", "")
    decreases members, 2
  {
    var ns := Collect(n.children, ToolArg);
    ArrivedMembersPrint(ns, members, false, rest);
    OpenBracket("{", Join(ns, true, false), rest);
    assert "" + J.PrintMembers(members, "", "}") == J.PrintMembers(members, "", "}") && "}" + "" == "}";
  }

  lemma BareItemIsSkipped(ns: seq<Node>, comma: bool)
    requires |ns| == 1 && IsBareItem(ns[0])
    ensures Join(ns, false, comma) == ""
  {
    assert ns[1..] == [] && EntryToJson(ns[0], false) == "";
  }

  lemma BareMemberIsSkipped(ns: seq<Node>, comma: bool)
    requires |ns| == 1 && IsBareMember(ns[0])
    ensures Join(ns, true, comma) == ""
  {
    assert ns[1..] == [] && EntryToJson(ns[0], true) == "";
  }

  /** The last entry, with its own end and the bracket behind it. */
  lemma LastEntry(c: string, shown: string, rest: string, end: string, text: string)
    requires rest != "" && rest[|rest| - 1..] == end && shown + rest[..|rest| - 1] == text
    ensures (c + (shown + "")) + rest == c + (text + end)
  {
    assert rest == rest[..|rest| - 1] + end;
    assert shown + "" == shown;
    RegroupFour(c, shown, rest[..|rest| - 1], end);
  }

  lemma {:induction false} ArrivedItemsPrint(ns: seq<Node>, vs: seq<J.Json>, comma: bool, rest: string)
    requires ArrivedItems(ns, vs, rest)
    ensures Join(ns, false, comma) + rest == (if comma && vs != [] then "," else "") + J.PrintItems(vs, "", "]")
    decreases vs, 0
  {
    var c := if comma then "," else "";
    if ns == [] {
      assert "" + rest == rest;
    } else if |ns| == 1 && IsBareItem(ns[0]) {
      BareItemIsSkipped(ns, comma);
      assert "" + rest == rest;
    } else if |ns| == 1 && ns[0].partial {
      ArrivedPrints(ValueOf(ns[0].children), vs[0], rest[..|rest| - 1]);
      assert ns[1..] == [] && EntryToJson(ns[0], false) != "";
      J.PrintAppend(vs[0], "", "", "]");
      assert "" + "]" == "]";
      LastEntry(c, EntryToJson(ns[0], false), rest, "]", J.Print(vs[0], "", ""));
    } else {
      WholeItemThenMore(ns, vs, rest);
      ArrivedItemsPrint(ns[1..], vs[1..], true, rest);
      var tail := Join(ns[1..], false, true) + rest;
      J.PrintAppend(vs[0], "", "", tail);
      RegroupFour(c, EntryToJson(ns[0], false), Join(ns[1..], false, true), rest);
      assert "" + tail == tail && "" + J.PrintItems(vs[1..], "", "]") == J.PrintItems(vs[1..], "", "]");
    }
  }

  lemma WholeItemThenMore(ns: seq<Node>, vs: seq<J.Json>, rest: string)
    requires ns != [] && vs != [] && RepresentsEntry(ns[0], vs[0])
    ensures EntryToJson(ns[0], false) == J.Print(vs[0], "", "") != ""
  {
    WholeValuePrints(ValueOf(ns[0].children).value, vs[0]);
    PrintNonEmpty(vs[0], "");
  }

  lemma {:induction false} ArrivedMembersPrint(ns: seq<Node>, ms: seq<J.Member>, comma: bool, rest: string)
    requires ArrivedMembers(ns, ms, rest)
    ensures Join(ns, true, comma) + rest == (if comma && ms != [] then "," else "") + J.PrintMembers(ms, "", "}")
    decreases ms, 1
  {
    var c := if comma then "," else "";
    if ns == [] {
      assert "" + rest == rest;
    } else if |ns| == 1 && IsBareMember(ns[0]) {
      BareMemberIsSkipped(ns, comma);
      assert "" + rest == rest;
    } else if |ns| == 1 && ns[0].partial {
      ArrivedMemberPrints(ns[0], ms[0], rest[..|rest| - 1]);
      assert ns[1..] == [] && EntryToJson(ns[0], true) != "";
      J.PrintMemberAppend(ms[0], "", "", "}");
      assert "" + "}" == "}";
      LastEntry(c, EntryToJson(ns[0], true), rest, "}", J.PrintMember(ms[0], "", ""));
    } else {
      WholeMemberPrints(ns[0], FindByTag(ns[0].children, ArgName, MAX_DEPTH).value, ms[0]);
      assert EntryToJson(ns[0], true) != "";
      ArrivedMembersPrint(ns[1..], ms[1..], true, rest);
      var tail := Join(ns[1..], true, true) + rest;
      J.PrintMemberAppend(ms[0], "", "", tail);
      RegroupFour(c, EntryToJson(ns[0], true), Join(ns[1..], true, true), rest);
      assert "" + tail == tail && "" + J.PrintMembers(ms[1..], "", "}") == J.PrintMembers(ms[1..], "", "}");
    }
  }

  lemma {:induction false} ArrivedMemberPrints(n: Node, m: J.Member, rest: string)
    requires n.partial && HasName(n, m.key) && Arrived(ValueOf(n.children), m.value, rest)
    ensures EntryToJson(n, true) + rest == J.PrintMember(m, "", "")
    decreases m, 2
  {
    var shown, value := ValueToJson(ValueOf(n.children), false), J.Print(m.value, "", "");
    ArrivedPrints(ValueOf(n.children), m.value, rest);
    J.DumpAppend(m.key, "", ":" + value);
    RegroupFour(J.Dump(m.key, ""), ":", shown, rest);
    assert "" + value == value && "" + (":" + value) == ":" + value;
  }

  /** For every cut: the completed text reads back as the value that has arrived. */
  lemma ArrivedReadsBack(w: Option<Node>, v: J.Json, rest: string)
    requires Arrived(w, v, rest)
    ensures J.ReadValue(ValueToJson(w, false) + rest) == Some((v, ""))
  {
    ArrivedPrints(w, v, rest);
    J.ReadPrinted(v, "", "");
  }

  // ----- every cut tree holds a value -----

  /** Whatever has arrived of the tree of a value is a value, up to the end of its text. */
  lemma {:induction false} CutHolds(m: Node, n: Node, whole: J.Json) returns (v: J.Json, rest: string)
    requires Represents(n, whole) && (m == n || Cut(m, n))
    ensures Arrived(Some(m), v, rest)
    decreases whole, 1
  {
    WholeValuePrints(n, whole);
    match whole
    case Str(s) => v, rest := J.Str(m.text), "\"";
    case Arr(items) =>
      CutCollected(m, n, ArgItem);
      var vs, r := CutItemsHold(Collect(m.children, ArgItem), Collect(n.children, ArgItem), items);
      v, rest := J.Arr(vs), r;
    case Obj(members) =>
      CutCollected(m, n, ToolArg);
      var ms, r := CutMembersHold(Collect(m.children, ToolArg), Collect(n.children, ToolArg), members);
      v, rest := J.Obj(ms), r;
    case _ =>
      v, rest := whole, n.text[|m.text|..];
      assert m.text + rest == n.text;
  }

  lemma CutCollected(m: Node, n: Node, tag: Tag)
    requires m == n || Cut(m, n)
    ensures CutList(Collect(m.children, tag), Collect(n.children, tag))
    ensures AllTagged(Collect(m.children, tag), tag)
  {
    if m == n {
      SameIsCut(m.children);
    }
    CollectCut(m.children, n.children, tag);
    CollectedAreTagged(m.children, tag);
  }

  lemma {:induction false} CutItemsHold(ms: seq<Node>, ns: seq<Node>, whole: seq<J.Json>) returns (vs: seq<J.Json>, rest: string)
    requires |ns| == |whole| && RepresentsItems(ns, whole) && CutList(ms, ns) && AllTagged(ms, ArgItem)
    ensures ArrivedItems(ms, vs, rest) && forall i | 0 <= i < |vs| :: J.WellFormed(vs[i])
    decreases whole, 0
  {
    if ms == [] || (|ms| == 1 && IsBareItem(ms[0])) {
      vs, rest := [], "]";
    } else {
      WholeValuePrints(ValueOf(ns[0].children).value, whole[0]);
      if |ms| == 1 && ms[0] != ns[0] {
        ValueKept(ms[0].children, ns[0].children);
        var v, r := CutHolds(ValueOf(ms[0].children).value, ValueOf(ns[0].children).value, whole[0]);
        vs, rest := [v], r + "]";
        assert rest[..|rest| - 1] == r;
      } else {
        var more;
        more, rest := CutItemsHold(ms[1..], ns[1..], whole[1..]);
        vs := [whole[0]] + more;
        assert vs[1..] == more;
      }
    }
  }

  lemma {:induction false} CutMembersHold(ms: seq<Node>, ns: seq<Node>, whole: seq<J.Member>)
    returns (vs: seq<J.Member>, rest: string)
    requires |ns| == |whole| && RepresentsMembers(ns, whole) && CutList(ms, ns) && AllTagged(ms, ToolArg)
    ensures ArrivedMembers(ms, vs, rest) && forall i | 0 <= i < |vs| :: J.WellFormed(vs[i].value)
    decreases whole, 0
  {
    if ms == [] || (|ms| == 1 && IsBareMember(ms[0])) {
      vs, rest := [], "}";
    } else {
      WholeValuePrints(ValueOf(ns[0].children).value, whole[0].value);
      if |ms| == 1 && ms[0] != ns[0] {
        var v, r := CutMemberHolds(ms[0], ns[0], whole[0]);
        vs, rest := [v], r + "}";
        assert rest[..|rest| - 1] == r;
      } else {
        var more;
        more, rest := CutMembersHold(ms[1..], ns[1..], whole[1..]);
        vs := [whole[0]] + more;
        assert vs[1..] == more;
      }
    }
  }

  lemma {:induction false} CutMemberHolds(m: Node, n: Node, whole: J.Member) returns (v: J.Member, rest: string)
    requires Cut(m, n) && m.partial && !IsBareMember(m)
    requires HasName(n, whole.key) && RepresentsEntry(n, whole.value)
    ensures HasName(m, v.key) && Arrived(ValueOf(m.children), v.value, rest)
    decreases whole, 2
  {
    WholeValuePrints(ValueOf(n.children).value, whole.value);
    NameKept(m.children, n.children, MAX_DEPTH);
    if ValueOf(m.children).None? {
      v, rest := whole, J.Print(whole.value, "", "");
    } else {
      ValueKept(m.children, n.children);
      var w, r := CutHolds(ValueOf(m.children).value, ValueOf(n.children).value, whole.value);
      v, rest := J.Member(whole.key, w), r;
    }
  }

  /** So every cut of the tree of a value reads back, once completed, as what has arrived. */
  lemma CutShowsAllArrived(m: Node, n: Node, whole: J.Json) returns (v: J.Json, rest: string)
    requires Represents(n, whole) && Cut(m, n)
    ensures Arrived(Some(m), v, rest) && J.ReadValue(ValueToJson(Some(m), false) + rest) == Some((v, ""))
  {
    v, rest := CutHolds(m, n, whole);
    ArrivedReadsBack(Some(m), v, rest);
  }

  /** And so do the arguments of a cut call. */
  lemma CutCallShowsAllArrived(m: Node, n: Node, whole: seq<J.Member>) returns (members: seq<J.Member>, rest: string)
    requires Cut(m, n) && m.partial
    requires |Collect(n.children, ToolArg)| == |whole| && RepresentsMembers(Collect(n.children, ToolArg), whole)
    ensures ArrivedMembers(Collect(m.children, ToolArg), members, rest)
    ensures J.ReadValue(ContainerToJson(m, true, !m.partial) + rest) == Some((J.Obj(members), ""))
  {
    CutCollected(m, n, ToolArg);
    members, rest := CutMembersHold(Collect(m.children, ToolArg), Collect(n.children, ToolArg), whole);
    ArrivedObjectPrints(m, members, rest);
    J.ReadPrinted(J.Obj(members), "", "");
  }
}
