/**
 `minimax_m3_value_to_json` and its helpers: printing the syntax tree of a MiniMax-M3
 tool call, complete or cut off by the end of a stream, as JSON text.
 */
module MinimaxAst {
  import opened Sequences
  import opened Options
  import J = JsonText

  datatype Tag = ToolArg | ArgItem | ArgName | ArgValue | StringValue | ArgObject | ArgArray | OtherTag

  datatype Node = Node(tag: Tag, text: string, partial: bool, children: seq<Node>)

  function Size(n: Node): (k: nat)
    ensures k > 0
    decreases n, 1
  {
    1 + SizeAll(n.children)
  }

  function SizeAll(ns: seq<Node>): (k: nat)
    ensures ns != [] ==> k == 1 + SizeAll(ns[0].children) + SizeAll(ns[1..])
    decreases ns, 0
  {
    if ns == [] then 0 else Size(ns[0]) + SizeAll(ns[1..])
  }

  /** `find_by_tag` among `ns` and their descendants, first in document order, to the given depth. */
  function FindByTag(ns: seq<Node>, tag: Tag, depth: nat): Option<Node>
    decreases SizeAll(ns)
  {
    if ns == [] then None
    else if ns[0].tag == tag then Some(ns[0])
    else
      var inside := if depth > 1 then FindByTag(ns[0].children, tag, depth - 1) else None;
      if inside.Some? then inside else FindByTag(ns[1..], tag, depth)
  }

  /** `minimax_m3_collect`: the nodes with the tag, not looking inside those found. */
  function Collect(ns: seq<Node>, tag: Tag): (out: seq<Node>)
    ensures SizeAll(out) <= SizeAll(ns)
    decreases SizeAll(ns)
  {
    if ns == [] then []
    else
      var first := if ns[0].tag == tag then [ns[0]] else Collect(ns[0].children, tag);
      var rest := Collect(ns[1..], tag);
      SizeAppend(first, rest);
      first + rest
  }

  lemma {:induction false} SizeAppend(a: seq<Node>, b: seq<Node>)
    ensures SizeAll(a + b) == SizeAll(a) + SizeAll(b)
  {
    if a == [] {
      assert a + b == b;
    } else {
      assert (a + b)[1..] == a[1..] + b;
      SizeAppend(a[1..], b);
    }
  }

  lemma {:induction false} CollectAppend(a: seq<Node>, b: seq<Node>, tag: Tag)
    ensures Collect(a + b, tag) == Collect(a, tag) + Collect(b, tag)
    decreases |a|
  {
    if a == [] {
      assert a + b == b;
    } else {
      assert (a + b)[1..] == a[1..] + b;
      CollectAppend(a[1..], b, tag);
      Regroup(if a[0].tag == tag then [a[0]] else Collect(a[0].children, tag), Collect(a[1..], tag), Collect(b, tag));
    }
  }

  /** A node with the tag is collected itself; any other node gives way to its children, in their place. */
  lemma CollectSeesThrough(a: seq<Node>, n: Node, b: seq<Node>, tag: Tag)
    ensures n.tag == tag ==> Collect(a + ([n] + b), tag) == Collect(a, tag) + ([n] + Collect(b, tag))
    ensures n.tag != tag ==> Collect(a + ([n] + b), tag) == Collect(a + (n.children + b), tag)
  {
    CollectAppend(a, [n] + b, tag);
    CollectAppend([n], b, tag);
    CollectAppend(a, n.children + b, tag);
    CollectAppend(n.children, b, tag);
    CollectOne(n, tag);
  }

  lemma CollectOne(n: Node, tag: Tag)
    ensures Collect([n], tag) == if n.tag == tag then [n] else Collect(n.children, tag)
  {
    assert [n][1..] == [] && Collect([], tag) == [];
    assert Collect(n.children, tag) + [] == Collect(n.children, tag) && [n] + [] == [n];
  }

  lemma {:induction false} FindAppend(a: seq<Node>, b: seq<Node>, tag: Tag, depth: nat)
    ensures FindByTag(a + b, tag, depth) ==
            if FindByTag(a, tag, depth).Some? then FindByTag(a, tag, depth) else FindByTag(b, tag, depth)
    decreases |a|
  {
    if a == [] {
      assert a + b == b;
    } else {
      assert (a + b)[1..] == a[1..] + b;
      FindAppend(a[1..], b, tag, depth);
    }
  }

  /** The first node found: earlier ones hold none, and one of another tag is searched one level less deep. */
  lemma FindsFirst(a: seq<Node>, n: Node, b: seq<Node>, tag: Tag, depth: nat)
    requires FindByTag(a, tag, depth).None?
    ensures n.tag == tag ==> FindByTag(a + ([n] + b), tag, depth) == Some(n)
    ensures n.tag != tag && depth > 1 && FindByTag(n.children, tag, depth - 1).Some? ==>
              FindByTag(a + ([n] + b), tag, depth) == FindByTag(n.children, tag, depth - 1)
    ensures n.tag != tag && depth <= 1 ==> FindByTag(a + ([n] + b), tag, depth) == FindByTag(b, tag, depth)
  {
    FindAppend(a, [n] + b, tag, depth);
    assert ([n] + b)[1..] == b;
  }

  predicate IsValueTag(tag: Tag) {
    tag in {ArgValue, StringValue, ArgObject, ArgArray}
  }

  /** `minimax_m3_value_of`: the first child that is a value. */
  function ValueOf(ns: seq<Node>): (r: Option<Node>)
    ensures r.Some? ==> Size(r.value) <= SizeAll(ns)
  {
    if ns == [] then None
    else if IsValueTag(ns[0].tag) then Some(ns[0])
    else ValueOf(ns[1..])
  }

  const MAX_DEPTH := 3

  function ValueToJson(v: Option<Node>, closed: bool): string
    decreases if v.Some? then Size(v.value) else 0, 0
  {
    match v
    case None => ""
    case Some(n) =>
      match n.tag
      case ArgObject => ContainerToJson(n, true, closed)
      case ArgArray => ContainerToJson(n, false, closed)
      case StringValue => "\"" + (J.Escape(n.text, "") + if closed then "\"" else "")
      case _ => n.text
  }

  function ContainerToJson(n: Node, isObject: bool, closed: bool): string
    decreases SizeAll(n.children), 2
  {
    (if isObject then "{" else "[") +
    (Join(Collect(n.children, if isObject then ToolArg else ArgItem), isObject, false) +
     if !closed then "" else if isObject then "}" else "]")
  }

  /** One entry of a container: a member, or the value of an item. */
  function EntryToJson(n: Node, isObject: bool): string
    decreases SizeAll(n.children), 1
  {
    if isObject then
      match FindByTag(n.children, ArgName, MAX_DEPTH)
      case None => ""
      case Some(name) => J.Dump(name.text, "") + (":" + ValueToJson(ValueOf(n.children), !n.partial))
    else ValueToJson(ValueOf(n.children), !n.partial)
  }

  /** The entries that print as something, separated by commas. */
  function Join(ns: seq<Node>, isObject: bool, comma: bool): string
    decreases SizeAll(ns), 1
  {
    if ns == [] then ""
    else
      var text := EntryToJson(ns[0], isObject);
      if text == "" then Join(ns[1..], isObject, comma)
      else (if comma then "," else "") + (text + Join(ns[1..], isObject, true))
  }

  // ----- complete trees -----

  /** `n` is the complete value node of `v`. */
  ghost predicate Represents(n: Node, v: J.Json)
    decreases v, 1
  {
    match v
    case Str(s) => n.tag == StringValue && n.text == s
    case Arr(items) =>
      n.tag == ArgArray && |Collect(n.children, ArgItem)| == |items| && RepresentsItems(Collect(n.children, ArgItem), items)
    case Obj(members) =>
      n.tag == ArgObject && |Collect(n.children, ToolArg)| == |members| && RepresentsMembers(Collect(n.children, ToolArg), members)
    case _ => n.tag == ArgValue && n.text == J.Print(v, "", "") && J.WellFormed(v)
  }

  /** `n` is a complete item or argument whose value is `v`. */
  ghost predicate RepresentsEntry(n: Node, v: J.Json)
    decreases v, 2
  {
    !n.partial && ValueOf(n.children).Some? && Represents(ValueOf(n.children).value, v)
  }

  ghost predicate RepresentsItems(ns: seq<Node>, vs: seq<J.Json>)
    requires |ns| == |vs|
    decreases vs, 0
  {
    ns == [] || (RepresentsEntry(ns[0], vs[0]) && RepresentsItems(ns[1..], vs[1..]))
  }

  ghost predicate RepresentsMembers(ns: seq<Node>, ms: seq<J.Member>)
    requires |ns| == |ms|
    decreases ms, 0
  {
    ns == [] ||
    (var name := FindByTag(ns[0].children, ArgName, MAX_DEPTH);
     && name.Some? && name.value.text == ms[0].key
     && RepresentsEntry(ns[0], ms[0].value) && RepresentsMembers(ns[1..], ms[1..]))
  }

  lemma PrintNonEmpty(v: J.Json, rest: string)
    requires J.WellFormed(v)
    ensures J.Print(v, "", rest) != ""
  {
  }

  /** The complete tree of a value prints as `dump()` of the value. */
  lemma {:induction false} WholeValuePrints(n: Node, v: J.Json)
    requires Represents(n, v)
    ensures ValueToJson(Some(n), true) == J.Print(v, "", "") && J.WellFormed(v)
    decreases v, 1
  {
    match v
    case Str(s) => StringPrints(s);
    case Arr(items) => WholeArrayPrints(n, items);
    case Obj(members) => WholeObjectPrints(n, members);
    case _ =>
  }

  lemma {:induction false} WholeArrayPrints(n: Node, items: seq<J.Json>)
    requires |Collect(n.children, ArgItem)| == |items| && RepresentsItems(Collect(n.children, ArgItem), items)
    ensures ContainerToJson(n, false, true) == J.Print(J.Arr(items), "", "") && J.WellFormed(J.Arr(items))
    decreases items, 1
  {
    WholeItemsPrint(Collect(n.children, ArgItem), items, false, "]");
    InBrackets("[", "]", Join(Collect(n.children, ArgItem), false, false), J.PrintItems(items, "", "]"));
  }

  /** The same for the arguments of a call, which are collected from the node of the tool itself. */
  lemma {:induction false} WholeObjectPrints(n: Node, members: seq<J.Member>)
    requires |Collect(n.children, ToolArg)| == |members| && RepresentsMembers(Collect(n.children, ToolArg), members)
    ensures ContainerToJson(n, true, true) == J.Print(J.Obj(members), "", "") && J.WellFormed(J.Obj(members))
    decreases members, 1
  {
    WholeMembersPrint(Collect(n.children, ToolArg), members, false, "}");
    InBrackets("{", "}", Join(Collect(n.children, ToolArg), true, false), J.PrintMembers(members, "", "}"));
  }

  lemma StringPrints(s: string)
    ensures "\"" + (J.Escape(s, "") + "\"") == J.Dump(s, "")
  {
    J.EscapeAppend(s, "", "\"");
    assert "" + "\"" == "\"" + "";
  }

  lemma {:induction false} WholeItemsPrint(ns: seq<Node>, vs: seq<J.Json>, comma: bool, rest: string)
    requires |ns| == |vs| && RepresentsItems(ns, vs)
    ensures Join(ns, false, comma) + rest == (if comma && ns != [] then "," else "") + J.PrintItems(vs, "", rest)
    ensures forall i | 0 <= i < |vs| :: J.WellFormed(vs[i])
    decreases vs, 0
  {
    if ns == [] {
      assert "" + rest == rest;
    } else {
      WholeValuePrints(ValueOf(ns[0].children).value, vs[0]);
      WholeItemsPrint(ns[1..], vs[1..], true, rest);
      PrintNonEmpty(vs[0], "");
      var tail := Join(ns[1..], false, true) + rest;
      J.PrintAppend(vs[0], "", "", tail);
      RegroupFour(if comma then "," else "", EntryToJson(ns[0], false), Join(ns[1..], false, true), rest);
      assert "" + tail == tail && "" + J.PrintItems(vs[1..], "", rest) == J.PrintItems(vs[1..], "", rest);
      assert vs == [vs[0]] + vs[1..];
    }
  }

  lemma {:induction false} WholeMemberPrints(n: Node, name: Node, m: J.Member)
    requires FindByTag(n.children, ArgName, MAX_DEPTH) == Some(name) && name.text == m.key
    requires RepresentsEntry(n, m.value)
    ensures EntryToJson(n, true) == J.PrintMember(m, "", "") && J.WellFormed(m.value)
    decreases m, 2
  {
    WholeValuePrints(ValueOf(n.children).value, m.value);
    var value := J.Print(m.value, "", "");
    J.DumpAppend(m.key, "", ":" + value);
    assert "" + value == value && "" + (":" + value) == ":" + value;
  }

  lemma {:induction false} WholeMembersPrint(ns: seq<Node>, ms: seq<J.Member>, comma: bool, rest: string)
    requires |ns| == |ms| && RepresentsMembers(ns, ms)
    ensures Join(ns, true, comma) + rest == (if comma && ns != [] then "," else "") + J.PrintMembers(ms, "", rest)
    ensures forall i | 0 <= i < |ms| :: J.WellFormed(ms[i].value)
    decreases ms, 0
  {
    if ns == [] {
      assert "" + rest == rest;
    } else {
      WholeMemberPrints(ns[0], FindByTag(ns[0].children, ArgName, MAX_DEPTH).value, ms[0]);
      WholeMembersPrint(ns[1..], ms[1..], true, rest);
      assert EntryToJson(ns[0], true) != "";
      var tail := Join(ns[1..], true, true) + rest;
      J.PrintMemberAppend(ms[0], "", "", tail);
      RegroupFour(if comma then "," else "", EntryToJson(ns[0], true), Join(ns[1..], true, true), rest);
      assert "" + tail == tail && "" + J.PrintMembers(ms[1..], "", rest) == J.PrintMembers(ms[1..], "", rest);
      assert ms == [ms[0]] + ms[1..];
    }
  }

  /** The printed tree of a complete value reads back as that value. */
  lemma WholeValueReadsBack(n: Node, v: J.Json)
    requires Represents(n, v)
    ensures J.ReadValue(ValueToJson(Some(n), true)) == Some((v, ""))
  {
    WholeValuePrints(n, v);
    J.ReadPrinted(v, "", "");
  }

  // ----- trees cut off by the end of the stream -----

  /**
   `m` is what the parser has of `n` when the text ends early: the first children of
   `n`, the last of them possibly cut itself. The mark of a partial node is read only on
   arguments and items, whose values are closed unless it is set; the parser leaves it
   unset on an array that ends with the text after a complete item. Argument names are
   atomic: the parser shows them whole or not at all.
   */
  ghost predicate Cut(m: Node, n: Node)
    decreases n, 1
  {
    && m.tag == n.tag && m.tag != ArgName && (m.tag in {ToolArg, ArgItem} ==> m.partial)
    && m.text <= n.text && CutList(m.children, n.children)
  }

  ghost predicate CutList(ms: seq<Node>, ns: seq<Node>)
    decreases ns, 0
  {
    ms == [] ||
    (ns != [] &&
     if |ms| == 1 then ms[0] == ns[0] || Cut(ms[0], ns[0])
     else ms[0] == ns[0] && CutList(ms[1..], ns[1..]))
  }

  lemma {:induction false} CutListAppend(a: seq<Node>, ms: seq<Node>, ns: seq<Node>)
    requires CutList(ms, ns)
    ensures CutList(a + ms, a + ns)
  {
    if a == [] {
      assert a + ms == ms && a + ns == ns;
    } else {
      CutListAppend(a[1..], ms, ns);
      assert (a + ms)[1..] == a[1..] + ms && (a + ns)[1..] == a[1..] + ns;
    }
  }

  lemma {:induction false} CutListLonger(ms: seq<Node>, ns: seq<Node>, b: seq<Node>)
    requires CutList(ms, ns)
    ensures CutList(ms, ns + b)
    decreases |ms|
  {
    if |ms| > 1 {
      CutListLonger(ms[1..], ns[1..], b);
      assert (ns + b)[1..] == ns[1..] + b;
    }
  }

  lemma {:induction false} CollectCut(ms: seq<Node>, ns: seq<Node>, tag: Tag)
    requires CutList(ms, ns)
    ensures CutList(Collect(ms, tag), Collect(ns, tag))
    decreases SizeAll(ns)
  {
    if ms != [] {
      var rest := Collect(ns[1..], tag);
      if |ms| == 1 {
        assert ms[1..] == [];
        var mine := if ms[0].tag == tag then [ms[0]] else Collect(ms[0].children, tag);
        var yours := if ns[0].tag == tag then [ns[0]] else Collect(ns[0].children, tag);
        assert mine + [] == mine;
        if ms[0] == ns[0] {
          SameIsCut(mine);
        } else if ms[0].tag != tag {
          CollectCut(ms[0].children, ns[0].children, tag);
        }
        CutListLonger(mine, yours, rest);
      } else {
        CollectCut(ms[1..], ns[1..], tag);
        CutListAppend(if ms[0].tag == tag then [ms[0]] else Collect(ms[0].children, tag), Collect(ms[1..], tag), rest);
      }
    }
  }

  lemma {:induction false} SameIsCut(ms: seq<Node>)
    ensures CutList(ms, ms)
  {
    if |ms| > 1 {
      SameIsCut(ms[1..]);
    }
  }

  /** A name found in a cut entry is the name of the whole entry. */
  lemma {:induction false} NameKept(ms: seq<Node>, ns: seq<Node>, depth: nat)
    requires CutList(ms, ns)
    ensures var found := FindByTag(ms, ArgName, depth);
            found.Some? ==> found == FindByTag(ns, ArgName, depth)
    decreases SizeAll(ns)
  {
    if ms != [] {
      if |ms| == 1 {
        assert ms[1..] == [];
        assert FindByTag(ms[1..], ArgName, depth).None?;
        if ms[0] != ns[0] && depth > 1 {
          NameKept(ms[0].children, ns[0].children, depth - 1);
        }
      } else {
        NameKept(ms[1..], ns[1..], depth);
      }
    }
  }

  lemma {:induction false} ValueKept(ms: seq<Node>, ns: seq<Node>)
    requires CutList(ms, ns)
    ensures var v, w := ValueOf(ms), ValueOf(ns);
            v.Some? ==> w.Some? && (v == w || Cut(v.value, w.value))
    decreases |ms|
  {
    if |ms| == 1 {
      assert ms[1..] == [];
    } else if |ms| > 1 {
      ValueKept(ms[1..], ns[1..]);
    }
  }

  /** What an open value shows is a prefix of what it shows later, cut further on or closed. */
  lemma {:induction false} CutValuePrintsPrefix(v: Option<Node>, w: Option<Node>, closed: bool)
    requires v.Some? ==> w.Some? && (v == w || Cut(v.value, w.value))
    ensures ValueToJson(v, false) <= ValueToJson(w, closed)
    decreases if w.Some? then Size(w.value) else 0, 0
  {
    if v.Some? {
      var m, n := v.value, w.value;
      match n.tag
      case ArgObject => CutContainerPrintsPrefix(m, n, true, closed);
      case ArgArray => CutContainerPrintsPrefix(m, n, false, closed);
      case StringValue =>
        J.EscapePrefix(m.text, n.text);
        PrefixInside("\"", J.Escape(m.text, ""), J.Escape(n.text, ""), if closed then "\"" else "");
        assert J.Escape(m.text, "") + "" == J.Escape(m.text, "");
      case _ =>
    }
  }

  lemma {:induction false} CutContainerPrintsPrefix(m: Node, n: Node, isObject: bool, closed: bool)
    requires m == n || Cut(m, n)
    ensures ContainerToJson(m, isObject, false) <= ContainerToJson(n, isObject, closed)
    decreases SizeAll(n.children), 3
  {
    var tag := if isObject then ToolArg else ArgItem;
    var ms, ns := Collect(m.children, tag), Collect(n.children, tag);
    if m == n {
      SameIsCut(m.children);
    }
    CollectCut(m.children, n.children, tag);
    CollectedAreTagged(m.children, tag);
    JoinPrefix(ms, ns, isObject, false);
    PrefixInside(if isObject then "{" else "[", Join(ms, isObject, false), Join(ns, isObject, false),
                 if !closed then "" else if isObject then "}" else "]");
    assert Join(ms, isObject, false) + "" == Join(ms, isObject, false);
  }

  lemma {:induction false} CutEntryPrintsPrefix(m: Node, n: Node, isObject: bool)
    requires Cut(m, n) && m.partial
    ensures EntryToJson(m, isObject) <= EntryToJson(n, isObject)
    decreases SizeAll(n.children), 1
  {
    ValueKept(m.children, n.children);
    CutValuePrintsPrefix(ValueOf(m.children), ValueOf(n.children), !n.partial);
    if isObject {
      NameKept(m.children, n.children, MAX_DEPTH);
      var name := FindByTag(m.children, ArgName, MAX_DEPTH);
      if name.Some? {
        var x, y := ValueToJson(ValueOf(m.children), false), ValueToJson(ValueOf(n.children), !n.partial);
        PrefixAfter(":", x, y);
        PrefixAfter(J.Dump(name.value.text, ""), ":" + x, ":" + y);
      }
    }
  }

  predicate AllTagged(ms: seq<Node>, tag: Tag) {
    forall i | 0 <= i < |ms| :: ms[i].tag == tag
  }

  lemma {:induction false} CollectedAreTagged(ms: seq<Node>, tag: Tag)
    ensures AllTagged(Collect(ms, tag), tag)
    decreases SizeAll(ms)
  {
    if ms != [] {
      CollectedAreTagged(ms[0].children, tag);
      CollectedAreTagged(ms[1..], tag);
    }
  }

  lemma {:induction false} JoinPrefix(ms: seq<Node>, ns: seq<Node>, isObject: bool, comma: bool)
    requires CutList(ms, ns) && AllTagged(ms, if isObject then ToolArg else ArgItem)
    ensures Join(ms, isObject, comma) <= Join(ns, isObject, comma)
    decreases SizeAll(ns), 2
  {
    if |ms| == 1 {
      if ms[0] != ns[0] {
        CutEntryPrintsPrefix(ms[0], ns[0], isObject);
      }
      JoinLast(ms, ns, isObject, comma);
    } else if |ms| > 1 {
      JoinPrefix(ms[1..], ns[1..], isObject, comma);
      JoinPrefix(ms[1..], ns[1..], isObject, true);
      var text := EntryToJson(ms[0], isObject);
      PrefixAfter(text, Join(ms[1..], isObject, true), Join(ns[1..], isObject, true));
      PrefixAfter(if comma then "," else "", text + Join(ms[1..], isObject, true), text + Join(ns[1..], isObject, true));
    }
  }

  lemma {:induction false} JoinLast(ms: seq<Node>, ns: seq<Node>, isObject: bool, comma: bool)
    requires |ms| == 1 && ns != [] && EntryToJson(ms[0], isObject) <= EntryToJson(ns[0], isObject)
    ensures Join(ms, isObject, comma) <= Join(ns, isObject, comma)
  {
    var x, y := EntryToJson(ms[0], isObject), EntryToJson(ns[0], isObject);
    assert ms[1..] == [] && x + "" == x;
    if x != "" {
      PrefixInside(if comma then "," else "", x, y, Join(ns[1..], isObject, true));
    }
  }

  /** Streaming a tool call: the arguments shown for a cut call are a prefix of those of the longer one. */
  lemma ArgumentsOnlyGrow(m: Node, n: Node)
    requires Cut(m, n) && m.partial
    ensures ContainerToJson(m, true, !m.partial) <= ContainerToJson(n, true, !n.partial)
  {
    CutContainerPrintsPrefix(m, n, true, !n.partial);
  }
}
