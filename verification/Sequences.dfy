/**
 Small facts about concatenation, stated once so that proofs can name the step they need.
 Sequences are compared element by element, and a proof about a printer or a loop that
 appends to a list usually needs just one regrouping of three or four pieces. Naming the
 step keeps every other fact about the sequences out of that comparison. None of the
 facts has content of its own.
 */
module Sequences {

  lemma Regroup<T>(a: seq<T>, b: seq<T>, c: seq<T>)
    ensures a + (b + c) == (a + b) + c
  {
  }

  lemma RegroupFour<T>(a: seq<T>, b: seq<T>, c: seq<T>, d: seq<T>)
    ensures (a + (b + c)) + d == a + (b + (c + d))
  {
  }

  lemma DropTwice<T>(s: seq<T>, i: nat, j: nat)
    requires i + j <= |s|
    ensures s[i..][j..] == s[i + j..] && s[i..][..j] == s[i..i + j]
  {
  }

  lemma Parts<T>(a: seq<T>, b: seq<T>)
    ensures (a + b)[..|a|] == a && (a + b)[|a|..] == b
    ensures a != [] ==> (a + b)[|a| - 1] == a[|a| - 1]
  {
  }

  lemma InBrackets(open: string, close: string, inner: string, text: string)
    requires inner + close == "" + text
    ensures open + (inner + close) == open + text && close + "" == close
  {
    assert "" + text == text;
  }

  lemma PrefixAfter(o: string, x: string, y: string)
    requires x <= y
    ensures o + x <= o + y
  {
    assert (o + y)[..|o| + |x|] == o + x;
  }

  lemma PrefixInside(o: string, x: string, y: string, z: string)
    requires x <= y
    ensures o + x <= o + (y + z) && x <= y + z
  {
    assert (o + (y + z))[..|o| + |x|] == o + x;
  }
}
