/**
 `permute`: a grammar that matches every parser exactly once, in any order. The
 remaining parsers are the bits of a mask, and each mask is built only once.
 */
module Permute {
  import opened Orderings

  datatype Parser =
    | Eps
    | Base(id: nat)
    | Sequence(parts: seq<Parser>)
    | Choice(alts: seq<Parser>)
    | Rule(prefix: string, mask: nat, body: Parser)

  const MAX_PERMUTE := 6

  // ----- masks -----

  function Bit(i: nat): (b: nat)
    ensures b > 0
  {
    if i == 0 then 1 else 2 * Bit(i - 1)
  }

  predicate HasBit(mask: nat, i: nat) {
    if i == 0 then mask % 2 == 1 else HasBit(mask / 2, i - 1)
  }

  lemma {:induction false} BitWithin(mask: nat, i: nat)
    requires HasBit(mask, i)
    ensures Bit(i) <= mask
  {
    if i > 0 {
      BitWithin(mask / 2, i - 1);
    }
  }

  lemma {:induction false} ClearBit(mask: nat, i: nat, j: nat)
    requires HasBit(mask, i) && Bit(i) <= mask
    ensures HasBit(mask - Bit(i), j) <==> j != i && HasBit(mask, j)
  {
    if i == 0 {
      assert (mask - 1) / 2 == mask / 2;
    } else {
      BitWithin(mask / 2, i - 1);
      assert (mask - Bit(i)) / 2 == mask / 2 - Bit(i - 1) && (mask - Bit(i)) % 2 == mask % 2;
      if j > 0 {
        ClearBit(mask / 2, i - 1, j - 1);
      }
    }
  }

  lemma {:induction false} FullMask(n: nat, i: nat)
    ensures HasBit(Bit(n) - 1, i) <==> i < n
  {
    if n == 0 {
      NoBits(i);
    } else if i > 0 {
      FullMask(n - 1, i - 1);
      assert (Bit(n) - 1) / 2 == Bit(n - 1) - 1;
    }
  }

  lemma {:induction false} NoBits(i: nat)
    ensures !HasBit(0, i)
  {
    if i > 0 {
      NoBits(i - 1);
    }
  }

  lemma {:induction false} SomeBit(mask: nat) returns (i: nat)
    requires mask > 0
    ensures HasBit(mask, i)
  {
    if mask % 2 == 1 {
      i := 0;
    } else {
      i := SomeBit(mask / 2);
      i := i + 1;
    }
  }

  // ----- the grammar -----

  /** The grammar for the parsers of a mask, built without a memo. */
  function Remaining(prefix: string, parsers: seq<Parser>, mask: nat): Parser
    decreases mask, |parsers| + 1
  {
    if mask == 0 then Eps
    else Rule(prefix, mask, Choice(Alternatives(prefix, parsers, mask, 0)))
  }

  /** The alternatives that start with parser `i` or a later one. */
  function Alternatives(prefix: string, parsers: seq<Parser>, mask: nat, i: nat): seq<Parser>
    requires i <= |parsers|
    decreases mask, |parsers| - i
  {
    if i == |parsers| then []
    else if HasBit(mask, i) && Bit(i) <= mask then
      [Sequence([parsers[i], Remaining(prefix, parsers, mask - Bit(i))])] + Alternatives(prefix, parsers, mask, i + 1)
    else Alternatives(prefix, parsers, mask, i + 1)
  }

  function Permutation(prefix: string, parsers: seq<Parser>): Parser {
    if parsers == [] then Eps
    else if |parsers| == 1 || |parsers| > MAX_PERMUTE then Sequence(parsers)
    else Remaining(prefix, parsers, Bit(|parsers|) - 1)
  }

  /** The builder with its memo of rules already made. */
  class Builder {
    const prefix: string
    const parsers: seq<Parser>
    var rules: map<nat, Parser>

    /** Every remembered rule is the one the unmemoised recursion builds. */
    ghost predicate Valid()
      reads this
    {
      forall m | m in rules :: rules[m] == Remaining(prefix, parsers, m)
    }

    constructor (prefix: string, parsers: seq<Parser>)
      ensures Valid() && this.prefix == prefix && this.parsers == parsers
    {
      this.prefix := prefix;
      this.parsers := parsers;
      rules := map[];
    }

    method RemainingOf(mask: nat) returns (p: Parser)
      requires Valid()
      modifies this`rules
      ensures Valid() && p == Remaining(prefix, parsers, mask)
      ensures forall m | m in old(rules) :: m in rules
      ensures mask > 0 ==> mask in rules
      decreases mask
    {
      if mask == 0 {
        return Eps;
      }
      if mask in rules {
        return rules[mask];
      }
      var alts := [];
      ghost var todo := Alternatives(prefix, parsers, mask, 0);
      var i := 0;
      while i < |parsers|
        invariant i <= |parsers| && Valid()
        invariant forall m | m in old(rules) :: m in rules
        invariant alts + todo == Alternatives(prefix, parsers, mask, 0)
        invariant todo == Alternatives(prefix, parsers, mask, i)
      {
        if HasBit(mask, i) {
          BitWithin(mask, i);
          var rest := RemainingOf(mask - Bit(i));
          alts := alts + [Sequence([parsers[i], rest])];
        }
        i := i + 1;
        todo := Alternatives(prefix, parsers, mask, i);
      }
      assert todo == [] && alts + [] == alts;
      p := Rule(prefix, mask, Choice(alts));
      rules := rules[mask := p];
    }
  }

  method BuildPermutation(prefix: string, parsers: seq<Parser>) returns (p: Parser)
    ensures p == Permutation(prefix, parsers)
  {
    if parsers == [] {
      return Eps;
    }
    if |parsers| == 1 || |parsers| > MAX_PERMUTE {
      return Sequence(parsers);
    }
    var builder := new Builder(prefix, parsers);
    p := builder.RemainingOf(Bit(|parsers|) - 1);
  }

  // ----- the words of a grammar, choice read as union -----

  type Language = (nat, string) -> bool

  ghost predicate Word(p: Parser, w: string, base: Language)
    decreases p, 0
  {
    match p
    case Eps => w == ""
    case Base(id) => base(id, w)
    case Sequence(parts) => WordOfAll(parts, w, base)
    case Choice(alts) => exists k | 0 <= k < |alts| :: Word(alts[k], w, base)
    case Rule(_, _, body) => Word(body, w, base)
  }

  ghost predicate WordOfAll(ps: seq<Parser>, w: string, base: Language)
    decreases ps, 0
  {
    if ps == [] then w == ""
    else exists k | 0 <= k <= |w| :: Word(ps[0], w[..k], base) && WordOfAll(ps[1..], w[k..], base)
  }

  /** The parsers still to be matched, each exactly once. */
  predicate Arranges(order: seq<nat>, mask: nat, n: nat) {
    && (forall k | 0 <= k < |order| :: order[k] < n && HasBit(mask, order[k]))
    && (forall j, k | 0 <= j < k < |order| :: order[j] != order[k])
    && (forall i: nat | i < n && HasBit(mask, i) :: i in order)
  }

  /** `w` is one word of each parser, in the given order. */
  ghost predicate Ordered(parsers: seq<Parser>, order: seq<nat>, w: string, base: Language)
    requires forall k | 0 <= k < |order| :: order[k] < |parsers|
    decreases |order|
  {
    if order == [] then w == ""
    else exists k | 0 <= k <= |w| :: Word(parsers[order[0]], w[..k], base) && Ordered(parsers, order[1..], w[k..], base)
  }

  ghost predicate SomeOrder(parsers: seq<Parser>, mask: nat, w: string, base: Language) {
    exists order: seq<nat> :: Arranges(order, mask, |parsers|) && Ordered(parsers, order, w, base)
  }

  lemma TailArranges(order: seq<nat>, mask: nat, n: nat)
    requires Arranges(order, mask, n) && order != []
    ensures Bit(order[0]) <= mask && Arranges(order[1..], mask - Bit(order[0]), n)
  {
    BitWithin(mask, order[0]);
    forall j: nat ensures HasBit(mask - Bit(order[0]), j) <==> j != order[0] && HasBit(mask, j) {
      ClearBit(mask, order[0], j);
    }
    forall i: nat | i < n && HasBit(mask - Bit(order[0]), i) ensures i in order[1..] {
      assert i in order && order == [order[0]] + order[1..];
    }
  }

  lemma ConsArranges(i: nat, order: seq<nat>, mask: nat, n: nat)
    requires i < n && HasBit(mask, i) && Bit(i) <= mask && Arranges(order, mask - Bit(i), n)
    ensures Arranges([i] + order, mask, n)
  {
    forall j: nat ensures HasBit(mask - Bit(i), j) <==> j != i && HasBit(mask, j) {
      ClearBit(mask, i, j);
    }
    forall j: nat | j < n && HasBit(mask, j) ensures j in [i] + order {
      assert j == i || j in order;
    }
  }

  /** The alternatives are one sequence per parser of the mask. */
  lemma {:induction false} AlternativeOf(prefix: string, parsers: seq<Parser>, mask: nat, i: nat, alt: Parser)
    requires i <= |parsers|
    ensures alt in Alternatives(prefix, parsers, mask, i) <==>
            exists j: nat :: IsAlternative(prefix, parsers, mask, i, j, alt)
    decreases |parsers| - i
  {
    if i < |parsers| {
      AlternativeOf(prefix, parsers, mask, i + 1, alt);
      if exists j: nat :: IsAlternative(prefix, parsers, mask, i, j, alt) {
        var j: nat :| IsAlternative(prefix, parsers, mask, i, j, alt);
        if j > i {
          assert IsAlternative(prefix, parsers, mask, i + 1, j, alt);
        }
      }
      if alt in Alternatives(prefix, parsers, mask, i) {
        if alt in Alternatives(prefix, parsers, mask, i + 1) {
          var j: nat :| IsAlternative(prefix, parsers, mask, i + 1, j, alt);
          assert IsAlternative(prefix, parsers, mask, i, j, alt);
        } else {
          assert IsAlternative(prefix, parsers, mask, i, i, alt);
        }
      }
    }
  }

  predicate IsAlternative(prefix: string, parsers: seq<Parser>, mask: nat, i: nat, j: nat, alt: Parser) {
    i <= j < |parsers| && HasBit(mask, j) && Bit(j) <= mask &&
    alt == Sequence([parsers[j], Remaining(prefix, parsers, mask - Bit(j))])
  }

  lemma PairWord(p: Parser, q: Parser, w: string, base: Language)
    ensures Word(Sequence([p, q]), w, base) <==>
            exists k | 0 <= k <= |w| :: Word(p, w[..k], base) && Word(q, w[k..], base)
  {
    assert [p, q][1..] == [q] && [q][1..] == [];
    forall k | 0 <= k <= |w| ensures WordOfAll([q], w[k..], base) <==> Word(q, w[k..], base) {
      var v := w[k..];
      assert v[..|v|] == v && v[|v|..] == "";
      assert Word(q, v, base) ==> Word([q][0], v[..|v|], base) && WordOfAll([q][1..], v[|v|..], base);
      if WordOfAll([q], v, base) {
        var m :| 0 <= m <= |v| && Word([q][0], v[..m], base) && WordOfAll([q][1..], v[m..], base);
        assert m == |v|;
      }
    }
  }

  /** Every word of the grammar arranges the parsers of the mask in some order. */
  lemma {:induction false} WordsAreOrdered(prefix: string, parsers: seq<Parser>, mask: nat, w: string, base: Language)
    requires Word(Remaining(prefix, parsers, mask), w, base)
    ensures SomeOrder(parsers, mask, w, base)
    decreases mask
  {
    if mask == 0 {
      forall i: nat ensures !HasBit(0, i) {
        NoBits(i);
      }
      assert Arranges([], mask, |parsers|) && Ordered(parsers, [], w, base);
    } else {
      var alts := Alternatives(prefix, parsers, mask, 0);
      var a :| 0 <= a < |alts| && Word(alts[a], w, base);
      AlternativeOf(prefix, parsers, mask, 0, alts[a]);
      var j: nat :| IsAlternative(prefix, parsers, mask, 0, j, alts[a]);
      var rest := Remaining(prefix, parsers, mask - Bit(j));
      PairWord(parsers[j], rest, w, base);
      var k :| 0 <= k <= |w| && Word(parsers[j], w[..k], base) && Word(rest, w[k..], base);
      WordsAreOrdered(prefix, parsers, mask - Bit(j), w[k..], base);
      var order: seq<nat> :| Arranges(order, mask - Bit(j), |parsers|) && Ordered(parsers, order, w[k..], base);
      ConsArranges(j, order, mask, |parsers|);
      assert ([j] + order)[1..] == order;
      assert Ordered(parsers, [j] + order, w, base);
    }
  }

  lemma AlternativeIsWord(prefix: string, parsers: seq<Parser>, mask: nat, j: nat, w: string, base: Language)
    requires j < |parsers| && HasBit(mask, j) && Bit(j) <= mask
    requires Word(Sequence([parsers[j], Remaining(prefix, parsers, mask - Bit(j))]), w, base)
    ensures Word(Remaining(prefix, parsers, mask), w, base)
  {
    var alt := Sequence([parsers[j], Remaining(prefix, parsers, mask - Bit(j))]);
    assert IsAlternative(prefix, parsers, mask, 0, j, alt);
    AlternativeOf(prefix, parsers, mask, 0, alt);
    var alts := Alternatives(prefix, parsers, mask, 0);
    var a :| 0 <= a < |alts| && alts[a] == alt;
    assert Word(alts[a], w, base);
  }

  ghost predicate BitsBelow(mask: nat, n: nat) {
    forall i: nat | HasBit(mask, i) :: i < n
  }

  lemma ClearedBelow(mask: nat, j: nat, n: nat)
    requires BitsBelow(mask, n) && HasBit(mask, j) && Bit(j) <= mask
    ensures BitsBelow(mask - Bit(j), n)
  {
    var rest := mask - Bit(j);
    forall i: nat | HasBit(rest, i) ensures i < n {
      ClearBit(mask, j, i);
    }
  }

  /** Every arrangement of words, in any order, is a word of the grammar. */
  lemma {:induction false} OrderedAreWords(prefix: string, parsers: seq<Parser>, mask: nat, order: seq<nat>, w: string, base: Language)
    requires Arranges(order, mask, |parsers|) && Ordered(parsers, order, w, base)
    requires BitsBelow(mask, |parsers|)
    ensures Word(Remaining(prefix, parsers, mask), w, base)
    decreases mask
  {
    if mask > 0 {
      var i := SomeBit(mask);
      assert i in order;
      var j := order[0];
      TailArranges(order, mask, |parsers|);
      ClearedBelow(mask, j, |parsers|);
      var k :| 0 <= k <= |w| && Word(parsers[j], w[..k], base) && Ordered(parsers, order[1..], w[k..], base);
      OrderedAreWords(prefix, parsers, mask - Bit(j), order[1..], w[k..], base);
      PairWord(parsers[j], Remaining(prefix, parsers, mask - Bit(j)), w, base);
      AlternativeIsWord(prefix, parsers, mask, j, w, base);
    } else if order != [] {
      NoBits(order[0]);
      assert false;
    }
  }

  /** The numbers from `j` on, below `n`. */
  function InOrder(j: nat, n: nat): (order: seq<nat>)
    requires j <= n
    ensures |order| == n - j
  {
    seq(n - j, k requires 0 <= k < n - j => j + k)
  }

  /** A sequence is one word of each parser, in the order they are given in. */
  lemma {:induction false} SequenceWords(parsers: seq<Parser>, j: nat, w: string, base: Language)
    requires j <= |parsers|
    ensures WordOfAll(parsers[j..], w, base) <==> Ordered(parsers, InOrder(j, |parsers|), w, base)
    decreases |parsers| - j
  {
    if j < |parsers| {
      var n := |parsers|;
      assert parsers[j..][0] == parsers[j] && parsers[j..][1..] == parsers[j + 1..];
      assert InOrder(j, n)[0] == j && InOrder(j, n)[1..] == InOrder(j + 1, n);
      forall k | 0 <= k <= |w|
        ensures WordOfAll(parsers[j + 1..], w[k..], base) <==> Ordered(parsers, InOrder(j + 1, n), w[k..], base)
      {
        SequenceWords(parsers, j + 1, w[k..], base);
      }
    }
  }

  /** More than six parsers are matched in the order they are given in. */
  lemma ManyInOrder(prefix: string, parsers: seq<Parser>, w: string, base: Language)
    requires |parsers| > MAX_PERMUTE
    ensures Word(Permutation(prefix, parsers), w, base) <==> Ordered(parsers, InOrder(0, |parsers|), w, base)
  {
    assert parsers[0..] == parsers;
    SequenceWords(parsers, 0, w, base);
  }

  lemma FewInOrder(order: seq<nat>, n: nat)
    requires n < 2
    ensures IsOrdering(order, n) <==> order == InOrder(0, n)
  {
    if IsOrdering(order, n) {
      assert order == InOrder(0, n);
    }
  }

  /** Up to six parsers: the words are exactly one word of each, in every order. */
  lemma PermutationWords(prefix: string, parsers: seq<Parser>, w: string, base: Language)
    requires |parsers| <= MAX_PERMUTE
    ensures Word(Permutation(prefix, parsers), w, base) <==>
            exists order: seq<nat> :: IsOrdering(order, |parsers|) && Ordered(parsers, order, w, base)
  {
    if |parsers| < 2 {
      FewWords(prefix, parsers, w, base);
    } else {
      SeveralWords(prefix, parsers, w, base);
    }
  }

  lemma FewWords(prefix: string, parsers: seq<Parser>, w: string, base: Language)
    requires |parsers| < 2
    ensures Word(Permutation(prefix, parsers), w, base) <==>
            exists order: seq<nat> :: IsOrdering(order, |parsers|) && Ordered(parsers, order, w, base)
  {
    var n := |parsers|;
    assert parsers[0..] == parsers;
    SequenceWords(parsers, 0, w, base);
    FewInOrder(InOrder(0, n), n);
    if exists order: seq<nat> :: IsOrdering(order, n) && Ordered(parsers, order, w, base) {
      var order: seq<nat> :| IsOrdering(order, n) && Ordered(parsers, order, w, base);
      FewInOrder(order, n);
    }
  }

  lemma SeveralWords(prefix: string, parsers: seq<Parser>, w: string, base: Language)
    requires 2 <= |parsers| <= MAX_PERMUTE
    ensures Word(Permutation(prefix, parsers), w, base) <==>
            exists order: seq<nat> :: IsOrdering(order, |parsers|) && Ordered(parsers, order, w, base)
  {
    var n, full := |parsers|, Bit(|parsers|) - 1;
    forall i: nat ensures HasBit(full, i) <==> i < n {
      FullMask(n, i);
    }
    if Word(Permutation(prefix, parsers), w, base) {
      WordsAreOrdered(prefix, parsers, full, w, base);
      var order: seq<nat> :| Arranges(order, full, n) && Ordered(parsers, order, w, base);
      OrderingCovers(order, n);
      assert IsOrdering(order, n);
    }
    if exists order: seq<nat> :: IsOrdering(order, n) && Ordered(parsers, order, w, base) {
      var order: seq<nat> :| IsOrdering(order, n) && Ordered(parsers, order, w, base);
      OrderingCovers(order, n);
      OrderedAreWords(prefix, parsers, full, order, w, base);
    }
  }
}
