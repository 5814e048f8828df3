/**
 `gemma4_to_json`: printing the syntax tree of a Gemma 4 value, complete or cut off by
 the end of a stream, as JSON text.
 */
module GemmaAst {
  import opened Sequences
  import opened Options
  import J = JsonText

  datatype Rule = Number | Bool | Null | StringContent | String | Array | KeyName | Key | KeyValue | Dict | Value | OtherRule

  datatype Node = Node(rule: Rule, text: string, partial: bool, children: seq<Node>)

  function ToJson(n: Node): string
    decreases n, 1
  {
    if n.text == "" then ""
    else
      match n.rule
      case Number => n.text
      case Bool => n.text
      case Null => n.text
      case StringContent => J.Escape(n.text, "")
      case String =>
        if n.children == [] then "\""
        else "\"" + (ToJson(n.children[0]) + if n.partial then "" else "\"")
      case Array => "[" + (Join(n.children, false) + if n.partial then "" else "]")
      case KeyName => n.text
      case Key =>
        "\"" + ((if n.children == [] then "" else J.Escape(ToJson(n.children[0]), "")) + if n.partial then "" else "\":")
      case KeyValue => Concat(n.children)
      case Dict => "{" + (Join(n.children, false) + if n.partial then "" else "}")
      case Value => if n.children == [] then "" else ToJson(n.children[0])
      case OtherRule => ""
  }

  /** The children separated by commas; `comma` says whether one is due before the first. */
  function Join(ns: seq<Node>, comma: bool): string
    decreases ns, 0
  {
    if ns == [] then ""
    else (if comma then "," else "") + (ToJson(ns[0]) + Join(ns[1..], true))
  }

  function Concat(ns: seq<Node>): string
    decreases ns, 0
  {
    if ns == [] then "" else ToJson(ns[0]) + Concat(ns[1..])
  }

  // ----- complete trees -----

  predicate IsWhole(n: Node, rule: Rule) {
    n.rule == rule && n.text != "" && !n.partial
  }

  /** `n` is the complete tree of the value `v`. */
  ghost predicate Represents(n: Node, v: J.Json)
    decreases v, 1
  {
    IsWhole(n, Value) && |n.children| == 1 &&
    var c := n.children[0];
    match v
    case Null => IsWhole(c, Null) && c.text == "null"
    case Bool(b) => IsWhole(c, Bool) && c.text == (if b then "true" else "false")
    case Num(text) => IsWhole(c, Number) && c.text == text && J.IsNumber(text)
    case Str(s) =>
      IsWhole(c, String) && |c.children| == 1 &&
      c.children[0].rule == StringContent && c.children[0].text == s
    case Arr(items) =>
      IsWhole(c, Array) && |c.children| == |items| && RepresentsAll(c.children, items)
    case Obj(members) =>
      IsWhole(c, Dict) && |c.children| == |members| && RepresentsMembers(c.children, members)
  }

  ghost predicate RepresentsAll(ns: seq<Node>, vs: seq<J.Json>)
    requires |ns| == |vs|
    decreases vs, 0
  {
    ns == [] || (Represents(ns[0], vs[0]) && RepresentsAll(ns[1..], vs[1..]))
  }

  predicate RepresentsKey(n: Node, key: string) {
    && IsWhole(n, Key) && |n.children| == 1
    && IsWhole(n.children[0], KeyName) && n.children[0].text == key
  }

  ghost predicate RepresentsMember(n: Node, m: J.Member)
    decreases m, 2
  {
    && IsWhole(n, KeyValue) && |n.children| == 2
    && RepresentsKey(n.children[0], m.key)
    && Represents(n.children[1], m.value)
  }

  ghost predicate RepresentsMembers(ns: seq<Node>, ms: seq<J.Member>)
    requires |ns| == |ms|
    decreases ms, 0
  {
    ns == [] || (RepresentsMember(ns[0], ms[0]) && RepresentsMembers(ns[1..], ms[1..]))
  }

  /** The tree of a value prints as `dump()` of the value. */
  lemma {:induction false} WholeTreePrints(n: Node, v: J.Json)
    requires Represents(n, v)
    ensures ToJson(n) == J.Print(v, "", "")
    decreases v, 1
  {
    var c := n.children[0];
    assert ToJson(n) == ToJson(c);
    match v
    case Null =>
    case Bool(_) =>
    case Num(_) =>
    case Str(s) => StringPrints(c.children[0], s);
    case Arr(items) =>
      WholeItemsPrint(c.children, items, false, "]");
      InBrackets("[", "]", Join(c.children, false), J.PrintItems(items, "", "]"));
    case Obj(members) =>
      WholeMembersPrint(c.children, members, false, "}");
      InBrackets("{", "}", Join(c.children, false), J.PrintMembers(members, "", "}"));
  }

  lemma StringPrints(content: Node, s: string)
    requires content.rule == StringContent && content.text == s
    ensures "\"" + (ToJson(content) + "\"") == J.Dump(s, "")
  {
    J.EscapeAppend(s, "", "\"");
    assert "" + "\"" == "\"" + "";
  }

  lemma {:induction false} WholeItemsPrint(ns: seq<Node>, vs: seq<J.Json>, comma: bool, rest: string)
    requires |ns| == |vs| && RepresentsAll(ns, vs)
    ensures Join(ns, comma) + rest == (if comma && ns != [] then "," else "") + J.PrintItems(vs, "", rest)
    decreases vs, 0
  {
    var c := if comma && ns != [] then "," else "";
    if ns == [] {
      assert "" + rest == rest;
    } else {
      WholeTreePrints(ns[0], vs[0]);
      WholeItemsPrint(ns[1..], vs[1..], true, rest);
      var tail := Join(ns[1..], true) + rest;
      J.PrintAppend(vs[0], "", "", tail);
      RegroupFour(c, ToJson(ns[0]), Join(ns[1..], true), rest);
      assert "" + tail == tail && "" + J.PrintItems(vs[1..], "", rest) == J.PrintItems(vs[1..], "", rest);
    }
  }

  lemma {:induction false} MemberPrints(n: Node, m: J.Member)
    requires RepresentsMember(n, m)
    ensures ToJson(n) == J.PrintMember(m, "", "")
    decreases m, 2
  {
    WholeTreePrints(n.children[1], m.value);
    var value := J.Print(m.value, "", "");
    ConcatTwo(n.children);
    KeyPrints(n.children[0], m.key);
    KeyThenValue(m.key, value);
    assert "" + value == value;
  }

  lemma KeyPrints(n: Node, key: string)
    requires RepresentsKey(n, key)
    ensures ToJson(n) == "\"" + (J.Escape(key, "") + "\":")
  {
  }

  lemma KeyThenValue(key: string, value: string)
    ensures ("\"" + (J.Escape(key, "") + "\":")) + value == J.Dump(key, ":" + value)
  {
    J.EscapeAppend(key, "", "\":" + value);
    KeyText(J.Escape(key, ""), value);
    assert "" + ("\":" + value) == "\":" + value;
    assert "\":" + value == "\"" + (":" + value);
  }

  lemma ConcatTwo(ns: seq<Node>)
    requires |ns| == 2
    ensures Concat(ns) == ToJson(ns[0]) + ToJson(ns[1])
  {
    assert ns[1..] == [ns[1]] && [ns[1]][1..] == [];
    assert Concat([ns[1]]) == ToJson(ns[1]) + Concat([]);
    assert ToJson(ns[1]) + "" == ToJson(ns[1]);
  }

  lemma KeyText(e: string, value: string)
    ensures ("\"" + (e + "\":")) + value == "\"" + (e + ("\":" + value))
  {
  }

  lemma {:induction false} WholeMembersPrint(ns: seq<Node>, ms: seq<J.Member>, comma: bool, rest: string)
    requires |ns| == |ms| && RepresentsMembers(ns, ms)
    ensures Join(ns, comma) + rest == (if comma && ns != [] then "," else "") + J.PrintMembers(ms, "", rest)
    decreases ms, 0
  {
    var c := if comma && ns != [] then "," else "";
    if ns == [] {
      assert "" + rest == rest;
    } else {
      MemberPrints(ns[0], ms[0]);
      WholeMembersPrint(ns[1..], ms[1..], true, rest);
      var tail := Join(ns[1..], true) + rest;
      J.PrintMemberAppend(ms[0], "", "", tail);
      RegroupFour(c, ToJson(ns[0]), Join(ns[1..], true), rest);
      assert "" + tail == tail && "" + J.PrintMembers(ms[1..], "", rest) == J.PrintMembers(ms[1..], "", rest);
    }
  }

  lemma {:induction false} RepresentedIsWellFormed(n: Node, v: J.Json)
    requires Represents(n, v)
    ensures J.WellFormed(v)
    decreases v, 1
  {
    match v
    case Arr(items) => RepresentedItems(n.children[0].children, items);
    case Obj(members) => RepresentedMembers(n.children[0].children, members);
    case _ =>
  }

  lemma {:induction false} RepresentedItems(ns: seq<Node>, vs: seq<J.Json>)
    requires |ns| == |vs| && RepresentsAll(ns, vs)
    ensures forall i | 0 <= i < |vs| :: J.WellFormed(vs[i])
    decreases vs, 0
  {
    if ns != [] {
      RepresentedIsWellFormed(ns[0], vs[0]);
      RepresentedItems(ns[1..], vs[1..]);
      assert vs == [vs[0]] + vs[1..];
    }
  }

  lemma {:induction false} RepresentedMembers(ns: seq<Node>, ms: seq<J.Member>)
    requires |ns| == |ms| && RepresentsMembers(ns, ms)
    ensures forall i | 0 <= i < |ms| :: J.WellFormed(ms[i].value)
    decreases ms, 0
  {
    if ns != [] {
      RepresentedIsWellFormed(ns[0].children[1], ms[0].value);
      RepresentedMembers(ns[1..], ms[1..]);
      assert ms == [ms[0]] + ms[1..];
    }
  }

  /** The printed tree of a complete value reads back as that value. */
  lemma WholeTreeReadsBack(n: Node, v: J.Json)
    requires Represents(n, v)
    ensures J.ReadValue(ToJson(n)) == Some((v, ""))
  {
    WholeTreePrints(n, v);
    RepresentedIsWellFormed(n, v);
    J.ReadPrinted(v, "", "");
  }

  // ----- trees cut off by the end of the stream -----

  predicate IsLeaf(r: Rule) {
    r in {Number, Bool, Null, StringContent, KeyName}
  }

  /** Printing the node writes something after its children. */
  predicate WritesEnd(n: Node) {
    n.text != "" && !n.partial && (n.rule in {Array, Key, Dict} || (n.rule == String && n.children != []))
  }

  /**
   `m` is what the parser has of `n` when the text ends early: the first children of
   `n`, the last of them possibly cut itself. A node whose end is printed must be marked
   partial; the mark of any other node is not read, and the parser leaves it unset on a
   key name or a string content that ends with the text.
   */
  ghost predicate Cut(m: Node, n: Node)
    decreases n, 1
  {
    && m.rule == n.rule && !WritesEnd(m) && m.text <= n.text
    && (!IsLeaf(n.rule) ==> CutChildren(m.children, n.children))
  }

  ghost predicate CutChildren(ms: seq<Node>, ns: seq<Node>)
    decreases ns, 0
  {
    ms == [] ||
    (ns != [] &&
     if |ms| == 1 then ms[0] == ns[0] || Cut(ms[0], ns[0])
     else ms[0] == ns[0] && CutChildren(ms[1..], ns[1..]))
  }

  /** Text already shown is never taken back: a cut tree prints a prefix of the longer one. */
  lemma {:induction false} CutPrintsPrefix(m: Node, n: Node)
    requires Cut(m, n)
    ensures ToJson(m) <= ToJson(n)
    decreases n, 2
  {
    if m.text != "" {
      match n.rule
      case StringContent => J.EscapePrefix(m.text, n.text);
      case String =>
        if m.children != [] {
          FirstChildPrefix(m.children, n.children);
          PrefixInside("\"", ToJson(m.children[0]), ToJson(n.children[0]), if n.partial then "" else "\"");
          assert ToJson(m.children[0]) + "" == ToJson(m.children[0]);
        }
      case Array =>
        JoinPrefix(m.children, n.children, false);
        PrefixInside("[", Join(m.children, false), Join(n.children, false), if n.partial then "" else "]");
        assert Join(m.children, false) + "" == Join(m.children, false);
      case Dict =>
        JoinPrefix(m.children, n.children, false);
        PrefixInside("{", Join(m.children, false), Join(n.children, false), if n.partial then "" else "}");
        assert Join(m.children, false) + "" == Join(m.children, false);
      case Key =>
        if m.children != [] {
          FirstChildPrefix(m.children, n.children);
          J.EscapePrefix(ToJson(m.children[0]), ToJson(n.children[0]));
          PrefixInside("\"", J.Escape(ToJson(m.children[0]), ""), J.Escape(ToJson(n.children[0]), ""), if n.partial then "" else "\":");
          assert J.Escape(ToJson(m.children[0]), "") + "" == J.Escape(ToJson(m.children[0]), "");
        } else {
          assert "\"" + ("" + "") == "\"";
        }
      case KeyValue => ConcatPrefix(m.children, n.children);
      case Value =>
        if m.children != [] {
          FirstChildPrefix(m.children, n.children);
        }
      case _ =>
    }
  }

  lemma {:induction false} FirstChildPrefix(ms: seq<Node>, ns: seq<Node>)
    requires ms != [] && CutChildren(ms, ns)
    ensures ns != [] && ToJson(ms[0]) <= ToJson(ns[0])
    decreases ns, 0
  {
    if ms[0] != ns[0] {
      CutPrintsPrefix(ms[0], ns[0]);
    }
  }

  lemma {:induction false} JoinPrefix(ms: seq<Node>, ns: seq<Node>, comma: bool)
    requires CutChildren(ms, ns)
    ensures Join(ms, comma) <= Join(ns, comma)
    decreases ns, 1
  {
    if ms != [] {
      var c := if comma then "," else "";
      FirstChildPrefix(ms, ns);
      if |ms| == 1 {
        assert ms[1..] == [] && ToJson(ms[0]) + "" == ToJson(ms[0]);
        PrefixInside(c, ToJson(ms[0]), ToJson(ns[0]), Join(ns[1..], true));
      } else {
        JoinPrefix(ms[1..], ns[1..], true);
        PrefixInside(ToJson(ns[0]), Join(ms[1..], true), Join(ns[1..], true), "");
        assert Join(ns[1..], true) + "" == Join(ns[1..], true);
        PrefixInside(c, ToJson(ns[0]) + Join(ms[1..], true), ToJson(ns[0]) + Join(ns[1..], true), "");
        assert (ToJson(ns[0]) + Join(ns[1..], true)) + "" == ToJson(ns[0]) + Join(ns[1..], true);
      }
    }
  }

  lemma {:induction false} ConcatPrefix(ms: seq<Node>, ns: seq<Node>)
    requires CutChildren(ms, ns)
    ensures Concat(ms) <= Concat(ns)
    decreases ns, 1
  {
    if ms != [] {
      FirstChildPrefix(ms, ns);
      if |ms| == 1 {
        assert ms[1..] == [] && ToJson(ms[0]) + "" == ToJson(ms[0]);
        PrefixInside("", ToJson(ms[0]), ToJson(ns[0]), Concat(ns[1..]));
      } else {
        ConcatPrefix(ms[1..], ns[1..]);
        PrefixInside(ToJson(ns[0]), Concat(ms[1..]), Concat(ns[1..]), "");
        assert Concat(ns[1..]) + "" == Concat(ns[1..]);
      }
    }
  }
}
