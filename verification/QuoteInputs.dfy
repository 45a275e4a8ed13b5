/** Inputs at which replaceSingleQuotes (fix_string.c) keeps or loses the meaning of a text. */
module QuoteInputs {
  import opened QuoteRewrite
  import opened QuoteContexts
  import opened QuoteSteps
  import opened QuoteMeaning
  import opened QuoteChance

  // No backquotes and no $'...'.
  predicate Tame(t: string) {
    t != [] ==> t[0] != '`' && !(|t| > 1 && t[0] == '$' && t[1] == '\'') && Tame(t[1..])
  }

  lemma {:induction false} TameIsReadable(t: string, x: Context)
    requires Tame(t) && !InBackquotes(x)
    ensures Readable(t, x)
    decreases |t|
  {
    if t != [] {
      var s := Shell(t, x);
      assert |t| > 1 ==> t[1..][0] == t[1] && t[1..][1..] == t[2..];
      TameIsReadable(t[s.n..], s.ctx);
    }
  }

  predicate Keeps(t: string) {
    Covered(t, Bare) && Readable(t, Top) && Decode(Rewrite(t, Bare), Top) == Meaning(t, Top)
  }

  predicate Loses(t: string) {
    Covered(t, Bare) && Readable(t, Top) && Decode(Rewrite(t, Bare), Top) != Meaning(t, Top)
  }

  predicate InScope(t: string) { Covered(t, Bare) && Tame(t) }

  // What the scan of a text says of it.
  lemma Judged(t: string)
    requires InScope(t)
    ensures Judge(t, Top, Bare) == Kept ==> Keeps(t)
    ensures Judge(t, Top, Bare) == Lost || (Judge(t, Top, Bare) == Stray && '\\' !in t) ==> Loses(t)
  {
    hide Covered, Readable, Judge, Decode, Meaning, Rewrite, Tame;
    TameIsReadable(t, Top);
    RewriteKeepsMeaning(t);
  }

  lemma NothingJudged(x: Context, k: Mode)
    ensures Judge([], x, k) == Kept
  {
  }

  // The scan of t from i on, at a double quote ...
  lemma JudgeQuote(t: string, i: nat, x: Context, k: Mode)
    requires i < |t| && t[i] == '"' && k != Strong
    ensures var k' := if k == Bare then Weak else Bare;
            Judge(t[i..], x, k) ==
            Judge(t[i + 1..], if x.Single? then x else if x.Double? then x.outer else Double(x), k')
  {
    hide Judge;
    assert t[i..][0] == t[i] && t[i..][1..] == t[i + 1..];
    JudgeOnce(t[i..], x, k);
  }

  // ... at a single quote ...
  lemma JudgeTick(t: string, i: nat, x: Context, k: Mode)
    requires i < |t| && t[i] == '\'' && k != Strong
    ensures (x.Double? || x.Word?) && k == Bare ==> Judge(t[i..], x, k) == Lost
    ensures x.Top? && k == Weak ==> Judge(t[i..], x, k) == Lost
    ensures x.Group? && k == Weak ==> Judge(t[i..], x, k) == Judge(t[i + 1..], Single(x), k)
    ensures x.Single? && k == Weak ==> Judge(t[i..], x, k) == Judge(t[i + 1..], x.outer, k)
    ensures x.Single? && k == Bare ==> Judge(t[i..], x, k) == Stray
  {
    hide Judge;
    assert t[i..][0] == t[i] && t[i..][1..] == t[i + 1..];
    JudgeOnce(t[i..], x, k);
  }

  // ... at a character that is no more than itself ...
  lemma JudgePlain(t: string, i: nat, x: Context, k: Mode)
    requires i < |t| && k != Strong && ('a' <= t[i] <= 'z' || t[i] == '-') && !x.Group?
    ensures Judge(t[i..], x, k) == Judge(t[i + 1..], x, k)
  {
    hide Judge;
    assert t[i..][0] == t[i] && t[i..][1..] == t[i + 1..];
    JudgeOnce(t[i..], x, k);
  }

  // ... at the end of a substitution ...
  lemma JudgeEnd(t: string, i: nat, x: Context, k: Mode)
    requires i < |t| && k != Strong && x.Group? && t[i] == x.close == ')'
    ensures Judge(t[i..], x, k) == Judge(t[i + 1..], x.outer, k)
  {
    hide Judge;
    assert t[i..][0] == t[i] && t[i..][1..] == t[i + 1..];
    JudgeOnce(t[i..], x, k);
  }

  lemma JudgeBegin(t: string, i: nat, x: Context, k: Mode)
    requires i < |t| && Begins(t[i..]) && !x.Single? && k != Strong
    ensures Judge(t[i..], x, k) == Judge(t[i + 2..], Enter(t[i..], x).ctx, k)
  {
    hide Judge;
    assert t[i..][2..] == t[i + 2..];
    JudgeOnce(t[i..], x, k);
  }

  // ... and at a backslash.
  lemma JudgePair(t: string, i: nat, x: Context, k: Mode)
    requires i + 1 < |t| && t[i] == '\\' && !x.Single? && k != Strong
    ensures x.Top? && t[i + 1] == 'n' ==> Judge(t[i..], x, k) == Lost
    ensures t[i + 1] == '"' ==> Judge(t[i..], x, k) == Judge(t[i + 2..], x, if k == Bare then Weak else Bare)
  {
    hide Judge;
    assert t[i..][0] == t[i] && t[i..][1] == t[i + 1] && t[i..][2..] == t[i + 2..];
    JudgeOnce(t[i..], x, k);
  }

  // The scan of a text that begins with a substitution between double quotes.
  lemma JudgeCommand(t: string)
    requires |t| > 3 && t[0] == '"' && t[1] == '$' && t[2] == '('
    ensures Judge(t, Top, Bare) == Judge(t[3..], Group(')', false, Double(Top)), Weak)
  {
    assert t[0..] == t;
    hide Judge;
    JudgeQuote(t, 0, Top, Bare);
    JudgeBegin(t, 1, Double(Top), Weak);
  }

  // ---- escapes ----

  lemma EscapesInScope()
    ensures InScope("\"\\\"\"")
    ensures InScope("\"\\\"'\"")
    ensures InScope("\\\"'a'")
    ensures InScope("\\n")
  {
  }

  // "\"" is right: the code does not see that the quote is escaped, but nothing follows.
  lemma EscapedQuote()
    ensures Keeps("\"\\\"\"")
  {
    var t := "\"\\\"\"";
    hide *;
    EscapesInScope();
    Judged(t);
    NothingJudged(Top, Weak);
    assert t[0..] == t && t[4..] == [];
    JudgeQuote(t, 0, Top, Bare);
    JudgePair(t, 1, Double(Top), Weak);
    JudgeQuote(t, 3, Double(Top), Bare);
  }

  // With a single quote behind it, it is wrong: "\"'".
  lemma BackslashMisleads()
    ensures Loses("\"\\\"'\"")
  {
    var t := "\"\\\"'\"";
    hide *;
    EscapesInScope();
    Judged(t);
    assert t[0..] == t;
    JudgeQuote(t, 0, Top, Bare);
    JudgePair(t, 1, Double(Top), Weak);
    JudgeTick(t, 3, Double(Top), Bare);
  }

  // So it is outside quotes: \"'a'.
  lemma BackslashMisleadsOutside()
    ensures Loses("\\\"'a'")
  {
    var t := "\\\"'a'";
    hide *;
    EscapesInScope();
    Judged(t);
    assert t[0..] == t;
    JudgePair(t, 0, Top, Bare);
    JudgeTick(t, 2, Top, Weak);
  }

  // Outside quotes the shell reads \n as the letter.
  lemma LetterBecomesNewline()
    ensures Loses("\\n")
  {
    var t := "\\n";
    hide *;
    EscapesInScope();
    Judged(t);
    assert t[0..] == t;
    JudgePair(t, 0, Top, Bare);
  }

  // ---- quotes in substitutions ----

  lemma NestedInScope()
    ensures InScope("\"$(\"'\")\"")
  {
  }

  lemma WordInScope()
    ensures InScope("\"${x-\"'\"}\"")
  {
  }

  lemma LettersInScope()
    ensures InScope("\"$(\"i\")\"")
    ensures InScope("\"$('i')\"")
  {
  }

  lemma StrayInScope()
    ensures InScope("\"$('\"')\"")
    ensures '\\' !in "\"$('\"')\""
  {
  }

  // The code takes "$("'")" for a single quote between two pairs of double quotes.
  lemma NestedQuotes()
    ensures Loses("\"$(\"'\")\"")
  {
    var t, c := "\"$(\"'\")\"", Group(')', false, Double(Top));
    hide *;
    NestedInScope();
    Judged(t);
    JudgeCommand(t);
    JudgeQuote(t, 3, c, Weak);
    JudgeTick(t, 4, Double(c), Bare);
  }

  // And so for ${ }.
  lemma NestedInWord()
    ensures Loses("\"${x-\"'\"}\"")
  {
    var t, w := "\"${x-\"'\"}\"", Word(Double(Top));
    hide *;
    WordInScope();
    Judged(t);
    WordHere(t[1..], Double(Top));
    assert t[0..] == t;
    JudgeQuote(t, 0, Top, Bare);
    JudgeBegin(t, 1, Double(Top), Weak);
    JudgePlain(t, 3, w, Weak);
    JudgePlain(t, 4, w, Weak);
    JudgeQuote(t, 5, w, Weak);
    JudgeTick(t, 6, Double(w), Bare);
  }

  lemma WordHere(t: string, x: Context)
    requires |t| > 3 && t[0] == '$' && t[1] == '{' && t[2] == 'x' && t[3] == '-' && x.Double?
    ensures Begins(t) && Enter(t, x).ctx == Word(x)
  {
    assert t[2..][1..][0] == '-';
  }

  // Double quotes around a letter there are right, and so are single quotes, which are left to
  // the shell that the substitution is for.
  lemma NestedLetter()
    ensures Keeps("\"$(\"i\")\"")
  {
    var t, c := "\"$(\"i\")\"", Group(')', false, Double(Top));
    hide *;
    LettersInScope();
    Judged(t);
    NothingJudged(Top, Bare);
    JudgeCommand(t);
    JudgeQuote(t, 3, c, Weak);
    JudgePlain(t, 4, Double(c), Bare);
    JudgeQuote(t, 5, Double(c), Bare);
    JudgeEnd(t, 6, c, Weak);
    JudgeQuote(t, 7, Double(Top), Weak);
    assert t[8..] == [];
  }

  lemma LeftToTheShell()
    ensures Keeps("\"$('i')\"")
  {
    var t, c := "\"$('i')\"", Group(')', false, Double(Top));
    hide *;
    LettersInScope();
    Judged(t);
    NothingJudged(Top, Bare);
    JudgeCommand(t);
    JudgeTick(t, 3, c, Weak);
    JudgePlain(t, 4, Single(c), Weak);
    JudgeTick(t, 5, Single(c), Weak);
    JudgeEnd(t, 6, c, Weak);
    JudgeQuote(t, 7, Double(Top), Weak);
    assert t[8..] == [];
  }

  // ---- single quotes that go astray ----

  // A double quote between them is enough: "$('"')".
  lemma StrayQuote()
    ensures Loses("\"$('\"')\"")
  {
    var t, c := "\"$('\"')\"", Group(')', false, Double(Top));
    hide *;
    StrayInScope();
    Judged(t);
    JudgeCommand(t);
    JudgeTick(t, 3, c, Weak);
    JudgeQuote(t, 4, Single(c), Weak);
    JudgeTick(t, 5, Single(c), Bare);
  }

  lemma {:induction false} PiecesAreTame(ps: Pieces)
    ensures Tame(Text(ps))
  {
    if ps.Cons? {
      var t, c := Text(ps), Spelling(ps.head);
      PiecesAreTame(ps.tail);
      assert t[|c|..] == Text(ps.tail);
      if |c| == 2 {
        assert t[1..] == [c[1]] + Text(ps.tail) && t[1..][1..] == Text(ps.tail);
        assert c[1] != '$' && c[1] != '`';
        assert Tame(t[1..]);
      }
    }
  }

  // With backslashes the text put out can say the same all the same.
  lemma StrayByChance()
    ensures var t := Text(Part1()); Judge(t, Top, Bare) == Stray && Keeps(t)
  {
    var t, c := Text(Part1()), Group(')', false, Double(Top));
    Part1Agrees();
    assert Meaning(t, Top) == [] + Decode(Rewrite(t, Bare), Top) == Decode(Rewrite(t, Bare), Top);
    PiecesAreTame(Part1());
    TameIsReadable(t, Top);
    assert Keeps(t);
    Part1Begins();
    hide *;
    JudgeCommand(t);
    JudgeTick(t, 3, c, Weak);
    JudgeQuote(t, 4, Single(c), Weak);
    JudgeTick(t, 5, Single(c), Bare);
  }

  lemma Part1Begins()
    ensures var t := Text(Part1());
            |t| > 5 && t[0] == '"' && t[1] == '$' && t[2] == '(' && t[3] == '\'' && t[4] == '"' && t[5] == '\''
  {
    var ps := Part1().tail.tail;
    var t := Text(ps);
    assert t == "'" + Text(ps.tail) && Text(ps.tail) == "\"" + Text(ps.tail.tail);
    assert Text(ps.tail.tail) == "'" + Text(ps.tail.tail.tail);
    assert Text(Part1()) == "\"" + ("$(" + t);
  }
}
