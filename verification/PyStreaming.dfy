/**
 Streaming: what translating a cut of a text has to do with translating the whole
 text. The translation of the cut is a prefix exactly when the cut does not end in
 one of two places where the automaton has to look ahead.
 */
module PyStreaming {
  import opened Options
  import opened PyQuotes

  /** What the automaton has read but cannot decide yet at the end of a cut. */
  datatype Pending = Settled | Dangling(m: Mode) | OpenWord(token: string)

  function PendingOf(p: string, m: Mode, afterWord: bool): Pending
    decreases |p|
  {
    if p == "" then Settled
    else if p == "\\" then Dangling(m)
    else if IsOpenWord(p, m, afterWord) then OpenWord(p)
    else
      var r := StepOf(p, m, afterWord);
      PendingOf(p[r.n..], r.mode, IsWordChar(p[r.n - 1]))
  }

  /** The whole of `p` is the beginning of a Python literal that may go on after the cut. */
  predicate IsOpenWord(p: string, m: Mode, afterWord: bool) {
    p != "" && StartsLiteral(p, m, afterWord) && WordRun(p) == |p| && Literal(p).Some?
  }

  /**
   The cut before `q` is safe: it does not separate a backslash from a single quote
   inside a single-quoted string, nor the beginning of a literal from word
   characters that make it another word.
   */
  predicate Safe(pending: Pending, q: string) {
    match pending
    case Settled => true
    case Dangling(m) => !(m == Single && q != "" && q[0] == '\'')
    case OpenWord(token) => Literal(token + q[..WordRun(q)]).Some?
  }

  lemma {:induction false} WordRunAppend(p: string, q: string)
    ensures WordRun(p + q) == if WordRun(p) == |p| then |p| + WordRun(q) else WordRun(p)
  {
    if p == "" {
      assert p + q == q;
    } else {
      assert (p + q)[1..] == p[1..] + q;
      WordRunAppend(p[1..], q);
    }
  }

  lemma {:induction false} LiteralOfLonger(token: string, longer: string)
    requires token <= longer && Literal(longer).Some?
    requires token != "" && token[0] in "TFN"
    ensures Literal(token).Some? && Literal(token).value <= Literal(longer).value
  {
    assert Literal(longer, 1) == if longer <= "False" then Some("false"[..|longer|]) else Literal(longer, 2);
    assert Literal(token, 1) == if token <= "False" then Some("false"[..|token|]) else Literal(token, 2);
  }

  /** Away from the two undecided places a step does not depend on what follows the cut. */
  lemma {:induction false} SameStep(p: string, q: string, m: Mode, afterWord: bool)
    requires p != "" && p != "\\" && !IsOpenWord(p, m, afterWord)
    ensures StepOf(p + q, m, afterWord) == StepOf(p, m, afterWord)
  {
    var s := p + q;
    assert s[0] == p[0] && (|p| > 1 ==> s[1] == p[1]);
    assert p[0] == '\\' ==> |p| > 1;
    if StartsLiteral(p, m, afterWord) {
      SameWord(p, q);
    }
  }

  lemma {:induction false} SameWord(p: string, q: string)
    requires p != "" && p[0] in "TFN"
    requires !(WordRun(p) == |p| && Literal(p).Some?)
    ensures var s := p + q;
            Literal(s[..WordRun(s)]) == Literal(p[..WordRun(p)]) &&
            (Literal(p[..WordRun(p)]).Some? ==> WordRun(s) == WordRun(p))
  {
    var s := p + q;
    WordRunAppend(p, q);
    if WordRun(p) == |p| {
      assert p[..WordRun(p)] == p;
      assert p <= s[..WordRun(s)];
      if Literal(s[..WordRun(s)]).Some? {
        LiteralOfLonger(p, s[..WordRun(s)]);
      }
    } else {
      assert s[..WordRun(s)] == p[..WordRun(p)];
    }
  }

  lemma {:induction false} CutLater(p: string, q: string, m: Mode, afterWord: bool, r: Step)
    requires p != "" && p != "\\" && !IsOpenWord(p, m, afterWord)
    requires r == StepOf(p, m, afterWord)
    ensures var after := IsWordChar(p[r.n - 1]);
            PendingOf(p, m, afterWord) == PendingOf(p[r.n..], r.mode, after) &&
            (Normalize(p, m, afterWord) <= Normalize(p + q, m, afterWord) <==>
             Normalize(p[r.n..], r.mode, after) <= Normalize(p[r.n..] + q, r.mode, after))
  {
    PendingLater(p, m, afterWord, r);
    CutTexts(p, q, m, afterWord, r);
  }

  lemma {:induction false} PendingLater(p: string, m: Mode, afterWord: bool, r: Step)
    requires p != "" && p != "\\" && !IsOpenWord(p, m, afterWord)
    requires r == StepOf(p, m, afterWord)
    ensures PendingOf(p, m, afterWord) == PendingOf(p[r.n..], r.mode, IsWordChar(p[r.n - 1]))
  {
  }

  lemma {:induction false} CutTexts(p: string, q: string, m: Mode, afterWord: bool, r: Step)
    requires p != "" && p != "\\" && !IsOpenWord(p, m, afterWord)
    requires r == StepOf(p, m, afterWord)
    ensures var after := IsWordChar(p[r.n - 1]);
            Normalize(p, m, afterWord) <= Normalize(p + q, m, afterWord) <==>
            Normalize(p[r.n..], r.mode, after) <= Normalize(p[r.n..] + q, r.mode, after)
  {
    CutAfterStep(p, q, m, afterWord, r);
    var after := IsWordChar(p[r.n - 1]);
    PrefixCancel(r.out, Normalize(p[r.n..], r.mode, after), Normalize(p[r.n..] + q, r.mode, after));
  }

  lemma PrefixCancel(o: string, x: string, y: string)
    ensures o + x <= o + y <==> x <= y
  {
    assert (o + x)[|o|..] == x && (o + y)[|o|..] == y;
    if o + x <= o + y {
      forall i | 0 <= i < |x| ensures x[i] == y[i] {
        assert (o + x)[|o| + i] == (o + y)[|o| + i];
      }
    }
  }

  /** The translation of a cut is a prefix of the translation of the whole exactly at a safe cut. */
  lemma {:induction false} CutIsPrefix(p: string, q: string, m: Mode, afterWord: bool)
    ensures Normalize(p, m, afterWord) <= Normalize(p + q, m, afterWord) <==> Safe(PendingOf(p, m, afterWord), q)
    decreases |p|
  {
    if p == "" {
      assert Normalize(p, m, afterWord) == "";
    } else if p == "\\" {
      CutAtBackslash(q, m, afterWord);
    } else if IsOpenWord(p, m, afterWord) {
      CutInWord(p, q, m, afterWord);
    } else {
      var r := StepOf(p, m, afterWord);
      CutIsPrefix(p[r.n..], q, r.mode, IsWordChar(p[r.n - 1]));
      CutLater(p, q, m, afterWord, r);
    }
  }

  lemma {:induction false} CutAfterStep(p: string, q: string, m: Mode, afterWord: bool, r: Step)
    requires p != "" && p != "\\" && !IsOpenWord(p, m, afterWord)
    requires r == StepOf(p, m, afterWord)
    ensures var after := IsWordChar(p[r.n - 1]);
            Normalize(p, m, afterWord) == r.out + Normalize(p[r.n..], r.mode, after) &&
            Normalize(p + q, m, afterWord) == r.out + Normalize(p[r.n..] + q, r.mode, after)
  {
    SameStep(p, q, m, afterWord);
    assert (p + q)[r.n..] == p[r.n..] + q && (p + q)[r.n - 1] == p[r.n - 1];
    Take(p, m, afterWord, r, p[r.n..]);
    Take(p + q, m, afterWord, r, p[r.n..] + q);
  }

  lemma {:induction false} CutAtBackslash(q: string, m: Mode, afterWord: bool)
    ensures Normalize("\\", m, afterWord) <= Normalize("\\" + q, m, afterWord) <==> Safe(Dangling(m), q)
  {
    assert "\\"[1..] == "";
    Take("\\", m, afterWord, Step("\\", 1, m), "");
    if q == "" {
      assert "\\" + q == "\\";
    } else {
      var s := "\\" + q;
      assert s[1] == q[0];
      var r := StepOf(s, m, afterWord);
      Take(s, m, afterWord, r, s[r.n..]);
      assert r.out[0] == if m == Single && q[0] == '\'' then '\'' else '\\';
    }
  }

  lemma {:induction false} WordIsLiteral(p: string, m: Mode, afterWord: bool)
    requires IsOpenWord(p, m, afterWord)
    ensures Normalize(p, m, afterWord) == Literal(p).value
  {
    assert p[..|p|] == p && p[|p|..] == "";
    Take(p, m, afterWord, Step(Literal(p).value, |p|, m), "");
  }

  lemma {:induction false} CutInWord(p: string, q: string, m: Mode, afterWord: bool)
    requires IsOpenWord(p, m, afterWord)
    ensures Normalize(p, m, afterWord) <= Normalize(p + q, m, afterWord) <==> Safe(OpenWord(p), q)
  {
    var s := p + q;
    WordRunAppend(p, q);
    var token := s[..WordRun(s)];
    assert token == p + q[..WordRun(q)];
    WordIsLiteral(p, m, afterWord);
    LiteralIsLower(p);
    if Literal(token).Some? {
      LiteralOfLonger(p, token);
      Take(s, m, afterWord, Step(Literal(token).value, WordRun(s), m), s[WordRun(s)..]);
    } else {
      Take(s, m, afterWord, Step([s[0]], 1, m), s[1..]);
      assert s[0] == p[0];
    }
  }

  /** A cut between a backslash and a single quote: `'\` shows a backslash that `'\'` does not. */
  lemma DanglingBackslashIsTakenBack()
    ensures !(Normalize("'\\", Outside, false) <= Normalize("'\\'", Outside, false))
  {
    var p := "'\\";
    assert StepOf(p, Outside, false) == Step("\"", 1, Single) && p[1..] == "\\";
    assert PendingOf("\\", Single, IsWordChar('\'')) == Dangling(Single);
    assert PendingOf(p, Outside, false) == Dangling(Single);
    CutIsPrefix(p, "'", Outside, false);
    assert p + "'" == "'\\'";
  }

  /** A cut inside a word that only begins like a literal: "Tr" shows "tr", "Trust" shows itself. */
  lemma OpenWordIsTakenBack()
    ensures !(Normalize("Tr", Outside, false) <= Normalize("Trust", Outside, false))
  {
    var q := "ust";
    LettersAreOneWord("Tr");
    LettersAreOneWord(q);
    BeginsTrue("Tr");
    assert "Tr" + q == "Trust" && q[..3] == q;
    NotLiteral("Trust");
    CutInWord("Tr", q, Outside, false);
  }

  lemma {:induction false} LettersAreOneWord(w: string)
    requires forall i | 0 <= i < |w| :: IsWordChar(w[i])
    ensures WordRun(w) == |w| && w[..|w|] == w
  {
    if w != "" {
      LettersAreOneWord(w[1..]);
    }
  }

  lemma BeginsTrue(w: string)
    requires w <= "True"
    ensures Literal(w).Some?
  {
  }

  lemma NotLiteral(w: string)
    requires |w| == 5 && w[0] == 'T'
    ensures Literal(w).None?
  {
    assert "False"[0] == 'F' && "None"[0] == 'N';
    assert Literal(w, 3).None? && Literal(w, 2).None? && Literal(w, 1).None?;
  }
}
