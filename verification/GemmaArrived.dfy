/** A cut Gemma 4 tree shows all that has arrived: completed, its text is the value that has arrived. */
module GemmaArrived {
  import opened Sequences
  import opened Options
  import opened GemmaAst
  import J = JsonText

  // ----- what has arrived -----

  /** Nothing of the node has arrived that could be shown. */
  predicate IsBare(n: Node) {
    || n.text == ""
    || (n.rule == Value && (n.children == [] || n.children[0].text == ""))
    || (n.rule == KeyValue && (n.children == [] || (|n.children| == 1 && n.children[0].text == "")))
  }

  /**
   What has arrived of the tree is the value `v`, but for the end `rest` of its text: the
   end of a word or number, the quote of a string, the brackets that are still open, and
   whatever is to stand in a place where nothing has arrived.
   */
  ghost predicate Arrived(m: Node, v: J.Json, rest: string)
    decreases v, 1
  {
    J.WellFormed(v) &&
    if IsBare(m) then rest == J.Print(v, "", "")
    else
      m.rule == Value && |m.children| == 1 &&
      var c := m.children[0];
      match v
      case Null => c.rule == Null && c.text + rest == "null"
      case Bool(b) => c.rule == Bool && c.text + rest == if b then "true" else "false"
      case Num(text) => c.rule == Number && c.text + rest == text
      case Str(s) => c.rule == String && ArrivedString(c, s, rest)
      case Arr(items) =>
        c.rule == Array && |c.children| == |items| &&
        if c.partial then ArrivedItems(c.children, items, rest) else rest == "" && RepresentsAll(c.children, items)
      case Obj(members) =>
        c.rule == Dict && |c.children| == |members| &&
        if c.partial then ArrivedMembers(c.children, members, rest) else rest == "" && RepresentsMembers(c.children, members)
  }

  predicate ArrivedString(c: Node, s: string, rest: string) {
    if c.children == [] then s == "" && rest == "\""
    else
      c.children[0].rule == StringContent && c.children[0].text == s && rest == if c.partial then "\"" else ""
  }

  predicate EndsWith(rest: string, last: char) {
    rest != "" && rest[|rest| - 1] == last
  }

  ghost predicate ArrivedItems(ns: seq<Node>, vs: seq<J.Json>, rest: string)
    requires |ns| == |vs|
    decreases vs, 0
  {
    if ns == [] then rest == "]"
    else if |ns| == 1 then EndsWith(rest, ']') && Arrived(ns[0], vs[0], rest[..|rest| - 1])
    else Represents(ns[0], vs[0]) && ArrivedItems(ns[1..], vs[1..], rest)
  }

  ghost predicate ArrivedMembers(ns: seq<Node>, ms: seq<J.Member>, rest: string)
    requires |ns| == |ms|
    decreases ms, 0
  {
    if ns == [] then rest == "}"
    else if |ns| == 1 then EndsWith(rest, '}') && ArrivedMember(ns[0], ms[0], rest[..|rest| - 1])
    else RepresentsMember(ns[0], ms[0]) && ArrivedMembers(ns[1..], ms[1..], rest)
  }

  /** A member is cut before its key, inside it, behind it, or in its value. */
  ghost predicate ArrivedMember(n: Node, m: J.Member, rest: string)
    decreases m, 2
  {
    if IsBare(n) then rest == J.PrintMember(m, "", "") && J.WellFormed(m.value)
    else
      n.rule == KeyValue && n.children != [] &&
      if |n.children| == 1 then
        J.WellFormed(m.value) &&
        if n.children[0].partial then ArrivedKey(n.children[0], m.key) && rest == "\":" + J.Print(m.value, "", "")
        else RepresentsKey(n.children[0], m.key) && rest == J.Print(m.value, "", "")
      else
        |n.children| == 2 && RepresentsKey(n.children[0], m.key) && Arrived(n.children[1], m.value, rest)
  }

  predicate ArrivedKey(k: Node, key: string) {
    k.rule == Key && k.text != "" &&
    if k.children == [] then key == "" else k.children[0].rule == KeyName && k.children[0].text == key
  }

  // ----- it is all shown -----

  lemma BarePrintsNothing(n: Node)
    requires IsBare(n)
    ensures ToJson(n) == ""
  {
    if n.text != "" && n.rule == KeyValue && |n.children| == 1 {
      assert n.children[1..] == [] && ToJson(n.children[0]) == "";
      assert Concat(n.children) == "" + Concat([]);
    }
  }

  /** Completed with what is missing, the shown text is the text of the value that has arrived. */
  lemma {:induction false} ArrivedPrints(m: Node, v: J.Json, rest: string)
    requires Arrived(m, v, rest)
    ensures ToJson(m) + rest == J.Print(v, "", "")
    decreases v, 1
  {
    if IsBare(m) {
      BarePrintsNothing(m);
      assert "" + rest == rest;
    } else {
      var c := m.children[0];
      assert ToJson(m) == ToJson(c);
      match v
      case Null => assert "null" + "" == "null";
      case Bool(b) => assert "true" + "" == "true" && "false" + "" == "false";
      case Num(text) => assert text + "" == text;
      case Str(s) => ArrivedStringPrints(c, s, rest);
      case Arr(items) => ArrivedArrayPrints(c, items, rest);
      case Obj(members) => ArrivedDictPrints(c, members, rest);
    }
  }

  lemma ArrivedStringPrints(c: Node, s: string, rest: string)
    requires c.rule == String && c.text != "" && ArrivedString(c, s, rest)
    ensures ToJson(c) + rest == J.Dump(s, "")
  {
    if c.children == [] {
      assert J.Escape("", "\"" + "") == "\"" + "" && "\"" + "" == "\"";
    } else {
      StringPrints(c.children[0], s);
      QuoteBehind(J.Escape(s, ""), rest, c.partial);
    }
  }

  lemma QuoteBehind(e: string, rest: string, partial: bool)
    requires rest == if partial then "\"" else ""
    ensures ("\"" + (e + if partial then "" else "\"")) + rest == "\"" + (e + "\"")
  {
    assert e + "" == e;
  }

  lemma OpenBracket(open: string, inner: string, rest: string)
    ensures (open + (inner + "")) + rest == open + (inner + rest)
  {
    assert inner + "" == inner;
  }

  lemma {:induction false} ArrivedArrayPrints(c: Node, items: seq<J.Json>, rest: string)
    requires c.rule == Array && c.text != "" && |c.children| == |items|
    requires if c.partial then ArrivedItems(c.children, items, rest) else rest == "" && RepresentsAll(c.children, items)
    ensures ToJson(c) + rest == "[" + J.PrintItems(items, "", "]" + "")
    decreases items, 2
  {
    assert "]" + "" == "]";
    if c.partial {
      ArrivedItemsPrint(c.children, items, false, rest);
      OpenBracket("[", Join(c.children, false), rest);
      assert "" + J.PrintItems(items, "", "]") == J.PrintItems(items, "", "]");
    } else {
      WholeItemsPrint(c.children, items, false, "]");
      InBrackets("[", "]", Join(c.children, false), J.PrintItems(items, "", "]"));
      assert ToJson(c) + "" == ToJson(c);
    }
  }

  lemma {:induction false} ArrivedDictPrints(c: Node, members: seq<J.Member>, rest: string)
    requires c.rule == Dict && c.text != "" && |c.children| == |members|
    requires if c.partial then ArrivedMembers(c.children, members, rest) else rest == "" && RepresentsMembers(c.children, members)
    ensures ToJson(c) + rest == "{" + J.PrintMembers(members, "", "}" + "")
    decreases members, 3
  {
    assert "}" + "" == "}";
    if c.partial {
      ArrivedMembersPrint(c.children, members, false, rest);
      OpenBracket("{", Join(c.children, false), rest);
      assert "" + J.PrintMembers(members, "", "}") == J.PrintMembers(members, "", "}");
    } else {
      WholeMembersPrint(c.children, members, false, "}");
      InBrackets("{", "}", Join(c.children, false), J.PrintMembers(members, "", "}"));
      assert ToJson(c) + "" == ToJson(c);
    }
  }

  /** The last child, with its own end and the bracket behind it. */
  lemma LastChild(c: string, shown: string, rest: string, end: string, text: string)
    requires rest != "" && rest[|rest| - 1..] == end && shown + rest[..|rest| - 1] == text
    ensures (c + (shown + "")) + rest == c + (text + end)
  {
    assert rest == rest[..|rest| - 1] + end;
    assert shown + "" == shown;
    RegroupFour(c, shown, rest[..|rest| - 1], end);
  }

  lemma {:induction false} ArrivedItemsPrint(ns: seq<Node>, vs: seq<J.Json>, comma: bool, rest: string)
    requires |ns| == |vs| && ArrivedItems(ns, vs, rest)
    ensures Join(ns, comma) + rest == (if comma && ns != [] then "," else "") + J.PrintItems(vs, "", "]")
    decreases vs, 0
  {
    var c := if comma && ns != [] then "," else "";
    if ns == [] {
      assert "" + rest == rest;
    } else if |ns| == 1 {
      ArrivedPrints(ns[0], vs[0], rest[..|rest| - 1]);
      J.PrintAppend(vs[0], "", "", "]");
      assert ns[1..] == [] && "" + "]" == "]";
      LastChild(c, ToJson(ns[0]), rest, "]", J.Print(vs[0], "", ""));
    } else {
      WholeTreePrints(ns[0], vs[0]);
      ArrivedItemsPrint(ns[1..], vs[1..], true, rest);
      var tail := Join(ns[1..], true) + rest;
      J.PrintAppend(vs[0], "", "", tail);
      RegroupFour(c, ToJson(ns[0]), Join(ns[1..], true), rest);
      assert "" + tail == tail && "" + J.PrintItems(vs[1..], "", "]") == J.PrintItems(vs[1..], "", "]");
    }
  }

  lemma {:induction false} ArrivedMembersPrint(ns: seq<Node>, ms: seq<J.Member>, comma: bool, rest: string)
    requires |ns| == |ms| && ArrivedMembers(ns, ms, rest)
    ensures Join(ns, comma) + rest == (if comma && ns != [] then "," else "") + J.PrintMembers(ms, "", "}")
    decreases ms, 1
  {
    var c := if comma && ns != [] then "," else "";
    if ns == [] {
      assert "" + rest == rest;
    } else if |ns| == 1 {
      ArrivedMemberPrints(ns[0], ms[0], rest[..|rest| - 1]);
      J.PrintMemberAppend(ms[0], "", "", "}");
      assert ns[1..] == [] && "" + "}" == "}";
      LastChild(c, ToJson(ns[0]), rest, "}", J.PrintMember(ms[0], "", ""));
    } else {
      MemberPrints(ns[0], ms[0]);
      ArrivedMembersPrint(ns[1..], ms[1..], true, rest);
      var tail := Join(ns[1..], true) + rest;
      J.PrintMemberAppend(ms[0], "", "", tail);
      RegroupFour(c, ToJson(ns[0]), Join(ns[1..], true), rest);
      assert "" + tail == tail && "" + J.PrintMembers(ms[1..], "", "}") == J.PrintMembers(ms[1..], "", "}");
    }
  }

  lemma {:induction false} ArrivedMemberPrints(n: Node, m: J.Member, rest: string)
    requires ArrivedMember(n, m, rest)
    ensures ToJson(n) + rest == J.PrintMember(m, "", "")
    decreases m, 2
  {
    if IsBare(n) {
      BarePrintsNothing(n);
      assert "" + rest == rest;
    } else {
      var value := J.Print(m.value, "", "");
      assert "" + value == value;
      KeyThenValue(m.key, value);
      if |n.children| == 1 {
        ConcatOne(n.children);
        ArrivedKeyPrints(n.children[0], m.key, rest, value);
      } else {
        ConcatTwo(n.children);
        KeyPrints(n.children[0], m.key);
        ArrivedPrints(n.children[1], m.value, rest);
        Regroup(ToJson(n.children[0]), ToJson(n.children[1]), rest);
      }
    }
  }

  lemma ConcatOne(ns: seq<Node>)
    requires |ns| == 1
    ensures Concat(ns) == ToJson(ns[0])
  {
    assert ns[1..] == [] && ToJson(ns[0]) + "" == ToJson(ns[0]);
  }

  lemma ArrivedKeyPrints(k: Node, key: string, rest: string, value: string)
    requires if k.partial then ArrivedKey(k, key) && rest == "\":" + value else RepresentsKey(k, key) && rest == value
    ensures ToJson(k) + rest == ("\"" + (J.Escape(key, "") + "\":")) + value
  {
    if k.partial {
      if k.children == [] {
        assert J.Escape("", "") == "";
      } else if key == "" {
        assert ToJson(k.children[0]) == "";
      }
      assert ToJson(k) == "\"" + (J.Escape(key, "") + "");
      OpenBracket("\"", J.Escape(key, ""), rest);
      KeyText(J.Escape(key, ""), value);
    } else {
      KeyPrints(k, key);
    }
  }

  /** For every cut: the completed text reads back as the value that has arrived. */
  lemma ArrivedReadsBack(m: Node, v: J.Json, rest: string)
    requires Arrived(m, v, rest)
    ensures J.ReadValue(ToJson(m) + rest) == Some((v, ""))
  {
    ArrivedPrints(m, v, rest);
    J.ReadPrinted(v, "", "");
  }

  // ----- every cut tree holds a value -----

  lemma {:induction false} WholeArrived(n: Node, v: J.Json)
    requires Represents(n, v)
    ensures Arrived(n, v, "")
  {
    RepresentedIsWellFormed(n, v);
    var c := n.children[0];
    assert c.text + "" == c.text;
  }

  /** Whatever has arrived of the tree of a value is a value, up to the end of its text. */
  lemma {:induction false} CutHolds(m: Node, n: Node, whole: J.Json) returns (v: J.Json, rest: string)
    requires Represents(n, whole) && (m == n || Cut(m, n))
    ensures Arrived(m, v, rest)
    decreases whole, 1
  {
    RepresentedIsWellFormed(n, whole);
    if m == n {
      WholeArrived(n, whole);
      v, rest := whole, "";
    } else if IsBare(m) {
      v, rest := whole, J.Print(whole, "", "");
    } else {
      OneChild(m.children, n.children);
      var c, d := m.children[0], n.children[0];
      if c == d {
        WholeArrived(n, whole);
        v, rest := whole, "";
      } else if whole.Arr? {
        var vs, r := CutItemsHold(c.children, d.children, whole.items);
        v, rest := J.Arr(vs), r;
      } else if whole.Obj? {
        var ms, r := CutMembersHold(c.children, d.children, whole.members);
        v, rest := J.Obj(ms), r;
      } else {
        v, rest := CutScalarHolds(m, n, whole);
      }
    }
  }

  lemma {:induction false} CutScalarHolds(m: Node, n: Node, whole: J.Json) returns (v: J.Json, rest: string)
    requires Represents(n, whole) && !whole.Arr? && !whole.Obj? && !IsBare(m)
    requires m.rule == Value && |m.children| == 1 && Cut(m.children[0], n.children[0])
    ensures Arrived(m, v, rest)
  {
    RepresentedIsWellFormed(n, whole);
    var c, d := m.children[0], n.children[0];
    if whole.Str? {
      CutString(c, d);
      v, rest := J.Str(if c.children == [] then "" else c.children[0].text), "\"";
    } else {
      v, rest := whole, d.text[|c.text|..];
      assert c.text + rest == d.text;
    }
  }

  lemma OneChild(ms: seq<Node>, ns: seq<Node>)
    requires CutChildren(ms, ns) && |ns| == 1
    ensures |ms| <= 1 && (ms != [] ==> ms[0] == ns[0] || Cut(ms[0], ns[0]))
  {
    CutIsShorter(ms, ns);
  }

  lemma {:induction false} CutIsShorter(ms: seq<Node>, ns: seq<Node>)
    requires CutChildren(ms, ns)
    ensures |ms| <= |ns|
    decreases |ms|
  {
    if |ms| > 1 {
      CutIsShorter(ms[1..], ns[1..]);
    }
  }

  lemma CutString(c: Node, d: Node)
    requires Cut(c, d) && d.rule == String && |d.children| == 1 && d.children[0].rule == StringContent && c.text != ""
    ensures ArrivedString(c, if c.children == [] then "" else c.children[0].text, "\"")
  {
    OneChild(c.children, d.children);
  }

  lemma {:induction false} CutItemsHold(ms: seq<Node>, ns: seq<Node>, whole: seq<J.Json>) returns (vs: seq<J.Json>, rest: string)
    requires |ns| == |whole| && RepresentsAll(ns, whole) && CutChildren(ms, ns)
    ensures |vs| == |ms| && ArrivedItems(ms, vs, rest) && J.WellFormed(J.Arr(vs))
    decreases whole, 0
  {
    if ms == [] {
      vs, rest := [], "]";
    } else if |ms| == 1 {
      var v, r := CutHolds(ms[0], ns[0], whole[0]);
      vs, rest := [v], r + "]";
      LastItem(ms, v, r);
    } else {
      var more;
      more, rest := CutItemsHold(ms[1..], ns[1..], whole[1..]);
      RepresentedIsWellFormed(ns[0], whole[0]);
      vs := [whole[0]] + more;
      WholeItemAhead(ms, whole[0], more, rest);
    }
  }

  lemma {:induction false} LastItem(ms: seq<Node>, v: J.Json, r: string)
    requires |ms| == 1 && Arrived(ms[0], v, r)
    ensures ArrivedItems(ms, [v], r + "]") && J.WellFormed(J.Arr([v]))
  {
    var rest := r + "]";
    assert rest[..|rest| - 1] == r;
  }

  lemma {:induction false} LastMember(ms: seq<Node>, m: J.Member, r: string)
    requires |ms| == 1 && ArrivedMember(ms[0], m, r) && J.WellFormed(m.value)
    ensures ArrivedMembers(ms, [m], r + "}") && J.WellFormed(J.Obj([m]))
  {
    var rest := r + "}";
    assert rest[..|rest| - 1] == r;
  }

  lemma {:induction false} WholeItemAhead(ms: seq<Node>, v: J.Json, more: seq<J.Json>, rest: string)
    requires |ms| > 1 && |more| == |ms| - 1 && Represents(ms[0], v) && ArrivedItems(ms[1..], more, rest)
    requires J.WellFormed(v) && J.WellFormed(J.Arr(more))
    ensures ArrivedItems(ms, [v] + more, rest) && J.WellFormed(J.Arr([v] + more))
  {
    assert ([v] + more)[1..] == more;
  }

  lemma {:induction false} CutMembersHold(ms: seq<Node>, ns: seq<Node>, whole: seq<J.Member>)
    returns (vs: seq<J.Member>, rest: string)
    requires |ns| == |whole| && RepresentsMembers(ns, whole) && CutChildren(ms, ns)
    ensures |vs| == |ms| && ArrivedMembers(ms, vs, rest) && J.WellFormed(J.Obj(vs))
    decreases whole, 0
  {
    if ms == [] {
      vs, rest := [], "}";
    } else if |ms| == 1 {
      var v, r := CutMemberHolds(ms[0], ns[0], whole[0]);
      vs, rest := [v], r + "}";
      LastMember(ms, v, r);
    } else {
      var more;
      more, rest := CutMembersHold(ms[1..], ns[1..], whole[1..]);
      RepresentedIsWellFormed(ns[0].children[1], whole[0].value);
      vs := [whole[0]] + more;
      WholeMemberAhead(ms, whole[0], more, rest);
    }
  }

  lemma {:induction false} WholeMemberAhead(ms: seq<Node>, m: J.Member, more: seq<J.Member>, rest: string)
    requires |ms| > 1 && |more| == |ms| - 1 && RepresentsMember(ms[0], m) && ArrivedMembers(ms[1..], more, rest)
    requires J.WellFormed(m.value) && J.WellFormed(J.Obj(more))
    ensures ArrivedMembers(ms, [m] + more, rest) && J.WellFormed(J.Obj([m] + more))
  {
    assert ([m] + more)[1..] == more;
  }

  lemma {:induction false} CutMemberHolds(m: Node, n: Node, whole: J.Member) returns (v: J.Member, rest: string)
    requires RepresentsMember(n, whole) && (m == n || Cut(m, n))
    ensures ArrivedMember(m, v, rest) && J.WellFormed(v.value)
    decreases whole, 2
  {
    RepresentedIsWellFormed(n.children[1], whole.value);
    if m == n {
      WholeArrived(n.children[1], whole.value);
      v, rest := whole, "";
    } else if IsBare(m) {
      v, rest := whole, J.PrintMember(whole, "", "");
    } else if |m.children| == 1 {
      var k := m.children[0];
      if k == n.children[0] {
        v, rest := whole, J.Print(whole.value, "", "");
      } else {
        assert CutChildren(m.children, n.children);
        assert Cut(k, n.children[0]);
        CutKey(k, n.children[0], whole.key);
        v := J.Member(if k.children == [] then "" else k.children[0].text, whole.value);
        rest := "\":" + J.Print(whole.value, "", "");
      }
    } else {
      TwoChildren(m.children, n.children);
      var w, r := CutHolds(m.children[1], n.children[1], whole.value);
      v, rest := J.Member(whole.key, w), r;
    }
  }

  lemma CutKey(k: Node, n: Node, key: string)
    requires RepresentsKey(n, key) && Cut(k, n) && k.text != ""
    ensures k.partial && ArrivedKey(k, if k.children == [] then "" else k.children[0].text)
  {
    OneChild(k.children, n.children);
  }

  lemma TwoChildren(ms: seq<Node>, ns: seq<Node>)
    requires CutChildren(ms, ns) && |ns| == 2 && |ms| > 1
    ensures |ms| == 2 && ms[0] == ns[0] && (ms[1] == ns[1] || Cut(ms[1], ns[1]))
  {
    OneChild(ms[1..], ns[1..]);
  }

  /** So every cut of the tree of a value reads back, once completed, as what has arrived. */
  lemma CutShowsAllArrived(m: Node, n: Node, whole: J.Json) returns (v: J.Json, rest: string)
    requires Represents(n, whole) && Cut(m, n)
    ensures Arrived(m, v, rest) && J.ReadValue(ToJson(m) + rest) == Some((v, ""))
  {
    v, rest := CutHolds(m, n, whole);
    ArrivedReadsBack(m, v, rest);
  }
}
