/** Patterns whose conversion matches something else, each with a text that shows it. */
module GlobInputs {
  import opened Options
  import opened GlobText
  import opened RegexText
  import opened GlobConvert
  import opened GlobReading
  import opened GlobMeaning
  import opened GlobNewlines
  import opened GlobNested
  import opened GlobActive
  import opened GlobClosed

  // ---- reading the inputs ----

  lemma LitParses(c: char, t: string)
    requires Literal(c) && (t == "" || t[0] != '(') && ParseGlob(t).Some?
    ensures ParseGlob([c] + t) == Some(Cons(Lit(c, false), ParseGlob(t).value))
  {
    hide Literal, Alternatives;
    assert ([c] + t)[1..] == t;
    LiteralIsPlain(c);
  }

  lemma LiteralIsPlain(c: char)
    requires Literal(c)
    ensures c != '*' && c != '?' && c != '\\' && c != ')' && c != '|'
  {
  }

  lemma NothingParses()
    ensures ParseGlob("") == Some(Nil)
  {
  }

  lemma GroupParses(c: char, p: List<Glob>, inner: string, t: string)
    requires KindOf(c).Some? && Elements(inner + ")" + t, true) == Some(Read(p, ")" + t)) && ParseGlob(t).Some?
    ensures ParseGlob([c, '('] + (inner + ")" + t)) == Some(Cons(Group(KindOf(c).value, [p]), ParseGlob(t).value))
  {
    hide Elements;
    var rest := inner + ")" + t;
    assert ([c, '('] + rest)[2..] == rest;
    assert (")" + t)[1..] == t;
    assert Alternatives(rest) == Some(Read([p], t));
    ElementsGroup([c, '('] + rest);
  }

  lemma ElementsGroup(t: string)
    requires Opens(t) && KindOf(t[0]).Some?
    ensures Elements(t, false) == match Alternatives(t[2..])
                                  case None => None
                                  case Some(r) => Behind(Group(KindOf(t[0]).value, r.value), Elements(r.rest, false))
  {
    hide Alternatives;
  }

  // ---- active characters ----

  // A pattern without groups whose pieces can be read, and the text that tells them apart.
  lemma ApartAt(t: string, u: bool, l: List<Glob>, ps: List<Piece>)
    requires ParseGlob(t) == Some(l) && Flat(l) && Active(l) && Reading(l) == Some(ps) && AnchorsFirst(ps)
    ensures ParseRegex(Convert(t, '\0', u)) == Some(ps)
    ensures !GlobMatches(l, Least(ps)) && RegexMatches(ps, Least(ps), true)
  {
    hide GlobMatches, RegexMatches, Reading, Active, Least, Convert;
    ParsedFormed(t);
    FlatSurvives(l);
    FlatIsSteady(l);
    ConversionReads(t, u);
    ReadsSimple(l);
    TooShort(l, 0);
    assert Least(ps)[0..] == Least(ps);
    LeastMatches(ps, true);
  }

  // *.c does not match xc, and is converted to a regular expression that does.
  lemma DotMatchesAnything(u: bool)
    ensures var (g, r) := (ParseGlob("*.c"), ParseRegex(Convert("*.c", '\0', u)));
            g.Some? && r.Some? && !GlobMatches(g.value, "xc") && RegexMatches(r.value, "xc", true)
  {
    hide GlobMatches, RegexMatches, Convert, Elements;
    var rest := Cons(Lit('.', false), Cons(Lit('c', false), Nil));
    NothingParses();
    LitParses('c', "");
    assert ['c'] + "" == "c" && ['.'] + "c" == ".c";
    LitParses('.', "c");
    StarParses(".c");
    assert ['*'] + ".c" == "*.c";
    var ps := Cons(Piece(Dot, TimesOf(AnyNumber)), Cons(Piece(Dot, ONCE), Cons(Piece(Char('c'), ONCE), Nil)));
    assert Run(rest) == ['.'] + (['c'] + "") && Run(rest.tail) == ['c'] + "";
    assert Reading(rest.tail) == Some(ps.tail.tail);
    assert Reading(rest) == Some(ps.tail);
    assert Reading(Cons(AnyText, rest)) == Some(ps);
    assert Least(ps.tail.tail) == "c" && Least(ps.tail) == "xc" && Least(ps) == "xc" by { LeastOfThree(); }
    ApartAt("*.c", u, Cons(AnyText, rest), ps);
  }

  lemma StarParses(t: string)
    requires ParseGlob(t).Some? && (t == "" || t[0] != '(')
    ensures ParseGlob(['*'] + t) == Some(Cons(AnyText, ParseGlob(t).value))
  {
    hide Alternatives;
    assert (['*'] + t)[1..] == t;
  }

  lemma LeastOfThree()
    ensures var p := Cons(Piece(Char('c'), ONCE), Nil);
            && Least(p) == "c" && Least(Cons(Piece(Dot, ONCE), p)) == "xc"
            && Least(Cons(Piece(Dot, TimesOf(AnyNumber)), Cons(Piece(Dot, ONCE), p))) == "xc"
  {
    assert Copies("c", 1) == "c" + Copies("c", 0) && Copies("x", 1) == "x" + Copies("x", 0);
    assert Copies("x", 0) == "";
  }

  // a+ does not match a, and is converted to a regular expression that does.
  lemma PlusBecomesQuantifier(u: bool)
    ensures var (g, r) := (ParseGlob("a+"), ParseRegex(Convert("a+", '\0', u)));
            g.Some? && r.Some? && !GlobMatches(g.value, "a") && RegexMatches(r.value, "a", true)
  {
    hide GlobMatches, RegexMatches, Convert, Elements;
    var l := Cons(Lit('a', false), Cons(Lit('+', false), Nil));
    NothingParses();
    LitParses('+', "");
    assert ['+'] + "" == "+" && ['a'] + "+" == "a+";
    LitParses('a', "+");
    var ps := Cons(Piece(Char('a'), Times(1, None)), Nil);
    assert Run(l.tail) == ['+'] + "" && Run(l) == ['a'] + (['+'] + "");
    assert Drop(l.tail, 1) == Nil;
    assert Reading(l) == Some(ps);
    assert Copies("a", 1) == "a" + Copies("a", 0);
    assert Least(ps) == "a";
    ApartAt("a+", u, l, ps);
  }

  // ---- nested wildcards ----

  lemma OneGroupAt(t: string, u: bool, l: List<Glob>)
    requires ParseGlob(t) == Some(l) && !Active(l)
    ensures var r := ParseRegex(Convert(t, '\0', u));
            r.Some? && forall s :: '\n' !in s ==> (RegexMatches(r.value, s, true) <==> GlobMatches(Demote(l), s))
  {
    hide GlobMatches, RegexMatches, Active, Pieces, Demote, Convert;
    ConvertsPattern(t, u);
    forall s | '\n' !in s ensures RegexMatches(Pieces(Demote(l)), s, true) <==> GlobMatches(Demote(l), s) {
      SameLanguage(Demote(l), s, true);
    }
  }

  // *(a*) matches the empty text, and is converted to a regular expression that does not.
  lemma NestedStarLosesKind(u: bool)
    ensures var (g, r) := (ParseGlob("*(a*)"), ParseRegex(Convert("*(a*)", '\0', u)));
            g.Some? && r.Some? && GlobMatches(g.value, "") && !RegexMatches(r.value, "", true)
  {
    hide RegexMatches, Convert, GlobMatches, Elements, GroupMatches, OneMatches, Active;
    var p := Cons(Lit('a', false), Cons(AnyText, Nil));
    var l := Cons(Group(AnyNumber, [p]), Nil);
    StarGroup();
    Inactive(p, AnyNumber);
    OneGroupAt("*(a*)", u, l);
    GroupOnly(l, "");
    GroupOnly(Demote(l), "");
    NoWords(AnyNumber, [p]);
    assert [p][0] == p;
    assert Demote(l) == Cons(Group(ExactlyOne, [p]), Nil);
    OneIsGroup([p], "");
    OneAlternative(p, "");
    MatchesEmpty(p);
  }

  lemma StarGroup()
    ensures var p := Cons(Lit('a', false), Cons(AnyText, Nil));
            ParseGlob("*(a*)") == Some(Cons(Group(AnyNumber, [p]), Nil)) && !Active(p) && Wild(p)
  {
    var p := Cons(Lit('a', false), Cons(AnyText, Nil));
    assert "a*)"[1..] == "*)" && "*)"[1..] == ")" && "a*" + ")" + "" == "a*)" && ")" + "" == ")";
    assert Elements(")", true) == Some(Read(Nil, ")"));
    assert Elements("*)", true) == Some(Read(Cons(AnyText, Nil), ")"));
    assert Elements("a*)", true) == Some(Read(p, ")"));
    hide Elements;
    NothingParses();
    GroupParses('*', p, "a*", "");
    assert ['*', '('] + "a*)" == "*(a*)";
    assert Run(p) == ['a'] + "";
  }

  lemma Inactive(p: List<Glob>, kind: Kind)
    requires Flat(p) && !Active(p)
    ensures !Active(Cons(Group(kind, [p]), Nil))
  {
    var l := Cons(Group(kind, [p]), Nil);
    assert Run(l) == "" && !ActiveHere(l);
    assert forall i :: 0 <= i < |[p]| ==> [p][i] == p;
    hide QuantifierAt;
  }

  lemma GroupOnly(l: List<Glob>, s: string)
    requires l.Cons? && l.head.Group? && l.tail.Nil?
    ensures GlobMatches(l, s) <==> GroupMatches(l.head.kind, l.head.alts, s)
  {
    assert s + "" == s;
    GroupThenLiterals(l, s);
  }

  // +(?) matches ab, and is converted to a regular expression that does not.
  lemma NestedCharLosesKind(u: bool)
    ensures var (g, r) := (ParseGlob("+(?)"), ParseRegex(Convert("+(?)", '\0', u)));
            g.Some? && r.Some? && GlobMatches(g.value, "ab") && !RegexMatches(r.value, "ab", true)
  {
    hide RegexMatches, Convert, GlobMatches, Elements, GroupMatches, OneMatches, Active;
    var p := Cons(AnyChar, Nil);
    var l := Cons(Group(AtLeastOne, [p]), Nil);
    QuestionGroup("", Nil) by { NothingParses(); }
    assert "+(?)" + "" == "+(?)";
    OneCharMatches();
    Inactive(p, AtLeastOne);
    OneGroupAt("+(?)", u, l);
    GroupOnly(l, "ab");
    GroupOnly(Demote(l), "ab");
    assert [p][0] == p;
    assert Demote(l) == Cons(Group(ExactlyOne, [p]), Nil);
    OneAlternative(p, "a");
    OneAlternative(p, "b");
    OneAlternative(p, "ab");
    OneIsGroup([p], "ab");
    TwoWordsMatch(AtLeastOne, [p], "a", "b");
    assert "a" + "b" == "ab";
  }

  lemma OneCharMatches()
    ensures var p := Cons(AnyChar, Nil);
            GlobMatches(p, "a") && GlobMatches(p, "b") && !GlobMatches(p, "ab") && !Active(p) && Wild(p)
  {
    assert "a"[1..] == "" && "b"[1..] == "" && "ab"[1..] == "b";
  }

  lemma QuestionGroup(t: string, l: List<Glob>)
    requires ParseGlob(t) == Some(l)
    ensures ParseGlob("+(?)" + t) == Some(Cons(Group(AtLeastOne, [Cons(AnyChar, Nil)]), l))
  {
    var x := ")" + t;
    assert ("?" + x)[1..] == x && "?" + ")" + t == "?" + x;
    assert Elements(x, true) == Some(Read(Nil, x));
    assert Elements("?" + x, true) == Some(Read(Cons(AnyChar, Nil), x));
    GroupParses('+', Cons(AnyChar, Nil), "?", t);
    assert ['+', '('] + ("?" + x) == "+(?)" + t;
  }

  // What is behind a group can make up for its kind: +(?)* keeps its language although the
  // group in it does not.
  lemma ContextHelps(u: bool)
    ensures ParseGlob("+(?)*").Some? && KeepsLines("+(?)*", u)
    ensures !Survives(Group(AtLeastOne, [Cons(AnyChar, Nil)]))
  {
    var p := Cons(AnyChar, Nil);
    var star := Cons(AnyText, Nil);
    var l := Cons(Group(AtLeastOne, [p]), star);
    hide Convert, RegexMatches, GroupMatches, OneMatches, Closed;
    NothingParses();
    StarParses("");
    assert ['*'] + "" == "*";
    QuestionGroup("*", star);
    assert "+(?)" + "*" == "+(?)*";
    OneAlternativeSurvives(AtLeastOne, p);
    Inactive(p, AtLeastOne);
    assert !Active(l) by { assert !ActiveHere(star) && !Active(star); }
    OneGroupAt("+(?)*", u, l);
    assert Wild(p) && [p][0] == p;
    assert Demote(l) == Cons(Group(ExactlyOne, [p]), star);
    forall s | '\n' !in s ensures GlobMatches(l, s) <==> GlobMatches(Demote(l), s) {
      SomethingMatches(l, s);
      SomethingMatches(Demote(l), s);
    }
    hide GlobMatches, Demote;
  }

  lemma SomethingMatches(l: List<Glob>, s: string)
    requires l.Cons? && l.head.Group? && l.head.alts == [Cons(AnyChar, Nil)] && l.tail == Cons(AnyText, Nil)
    requires l.head.kind == AtLeastOne || l.head.kind == ExactlyOne
    ensures GlobMatches(l, s) <==> s != ""
  {
    var p := Cons(AnyChar, Nil);
    if s != "" {
      assert s[..1][1..] == "";
      assert GlobMatches(p, s[..1]);
      OneAlternative(p, s[..1]);
      OneWordMatches(l.head.kind, [p], s[..1]);
      assert s[1..][|s| - 1..] == "";
      assert GlobMatches(l.tail, s[1..]);
      GroupFirst(l, s, 1);
    } else if GlobMatches(l, s) {
      var k :| 0 <= k <= |s| && GroupMatches(l.head.kind, l.head.alts, s[..k]) && GlobMatches(l.tail, s[k..]);
      var words: seq<string> :| Counts(l.head.kind, |words|) && AllMatch([p], words) && Joined(words) == s[..k];
      assert OneMatches([p], words[0]) && words[0] == s[..k][..|words[0]|] == "";
      OneAlternative(p, words[0]);
    }
  }

  // ---- a brace quantifier behind a group ----

  // In a group: a character with a backslash, or without one.
  lemma InnerParses(c: char, escaped: bool, t: string, p: List<Glob>, rest: string)
    requires Elements(t, true) == Some(Read(p, rest)) && t != "" && t[0] != '('
    requires if escaped then Punctuation(c) else Literal(c)
    ensures Elements((if escaped then ['\\', c] else [c]) + t, true) == Some(Read(Cons(Lit(c, escaped), p), rest))
  {
    hide Literal, Alternatives, Punctuation;
    if escaped {
      assert (['\\', c] + t)[2..] == t;
      assert !Opens(['\\', c] + t);
    } else {
      assert ([c] + t)[1..] == t;
      LiteralIsPlain(c);
    }
  }

  // @(\{2\}){2}
  function Braced(): (l: List<Glob>) {
    var p := Cons(Lit('{', true), Cons(Lit('2', false), Cons(Lit('}', true), Nil)));
    Cons(Group(ExactlyOne, [p]), Cons(Lit('{', false), Cons(Lit('2', false), Cons(Lit('}', false), Nil))))
  }

  lemma BracedParses()
    ensures ParseGlob("@(\\{2\\}){2}") == Some(Braced())
  {
    var (p, inner) := (Braced().head.alts[0], "\\{2\\}");
    assert inner + ")" + "{2}" == "\\{2\\}){2}";
    BracedInside();
    BracedBehind();
    hide Elements;
    GroupParses('@', p, inner, "{2}");
    assert ['@', '('] + (inner + ")" + "{2}") == "@(\\{2\\}){2}";
  }

  lemma BracedInside()
    ensures Elements("\\{2\\}){2}", true) == Some(Read(Braced().head.alts[0], ")" + "{2}"))
  {
    var t := "){2}";
    assert t == ")" + "{2}";
    assert Elements(t, true) == Some(Read(Nil, t));
    var p := Braced().head.alts[0];
    assert Literal('2') && Punctuation('{') && Punctuation('}');
    hide Elements, Literal, Punctuation;
    InnerParses('}', true, t, Nil, t);
    InnerParses('2', false, ['\\', '}'] + t, p.tail.tail, t);
    InnerParses('{', true, ['2'] + (['\\', '}'] + t), p.tail, t);
    assert ['\\', '{'] + (['2'] + (['\\', '}'] + t)) == "\\{2\\}){2}";
  }

  lemma BracedBehind()
    ensures ParseGlob("{2}") == Some(Braced().tail)
  {
    assert Literal('2') && Literal('{') && Literal('}');
    hide Elements, Literal;
    NothingParses();
    LitParses('}', "");
    LitParses('2', ['}'] + "");
    LitParses('{', ['2'] + (['}'] + ""));
    assert ['{'] + (['2'] + (['}'] + "")) == "{2}";
  }

  lemma BracedReads()
    ensures Active(Braced()) && Reading(Demote(Braced())) ==
            Some(Cons(Piece(Choice(PiecesOf(Braced().head.alts)), Times(2, Some(2))), Nil))
  {
    var l := Braced();
    var behind := l.tail;
    assert Run(behind) == ['{'] + (['2'] + (['}'] + "")) == "{2}";
    assert !Wild(l.head.alts[0]) && !SomeWild(l.head.alts) && Demote(l) == l;
    TwoBraces();
    assert ActiveHere(behind);
    assert Drop(behind, 3) == Nil;
    BracedCalm();
    ReadsAll(l.head.alts);
    assert Run(l) == "";
    hide QuantifierAt, Run, Drop;
    ReadsNothing();
    ReadingStep(l);
  }

  lemma BracedCalm()
    ensures !SomeActive(Braced().head.alts)
  {
    var p := Braced().head.alts[0];
    assert Run(p) == "" && Run(p.tail) == ['2'] + "" && Run(p.tail.tail) == "";
    assert !Active(p.tail.tail) && !Active(p.tail) && !Active(p);
  }

  lemma TwoBraces()
    ensures QuantifierAt("{2}") == Quantifier(Times(2, Some(2)), 3)
  {
    var t := "{2}";
    assert DigitsEnd(t, 2) == 2 && DigitsEnd(t, 1) == 2;
    assert t[1..2] == "2" && "2"[..0] == "";
    assert NumberOf("2") == 2;
  }

  // Twice and no more.
  lemma TwiceIs(a: Atom, w: string, s: string)
    requires '\n' !in s && '\n' !in w && forall v, b :: '\n' !in v ==> (AtomMatches(a, v, b) <==> v == w)
    ensures Repeats(Piece(a, Times(2, Some(2))), s, true) <==> s == w + w
  {
    hide AtomMatches;
    var p, once := Piece(a, Times(2, Some(2))), Piece(a, ONCE);
    assert Piece(a, Fewer(p.times)) == once;
    if Repeats(p, s, true) {
      var k := RepeatsMore(p, s, true);
      OnceIs(a, s[k..], k == 0);
      assert s == s[..k] + s[k..];
    }
    if s == w + w {
      assert s[..|w|] == w && s[|w|..] == w;
      OnceIs(a, w, |w| == 0);
      assert OneMore(p, s, true, |w|);
    }
  }

  // @(\{2\}){2} matches {2}{2} and nothing else, and so does what it is converted to, although
  // the braces behind the group have become a quantifier.
  lemma BracesHelp(u: bool)
    ensures var g := ParseGlob("@(\\{2\\}){2}");
            g.Some? && Active(g.value) && AllSurvive(g.value) && KeepsLines("@(\\{2\\}){2}", u)
  {
    hide *;
    var t := "@(\\{2\\}){2}";
    BracedParses();
    BracedReads();
    BracedSurvives();
    ConversionReads(t, u);
    var r := ParseRegex(Convert(t, '\0', u));
    assert r == Reading(Demote(Braced()));
    forall s | '\n' !in s ensures GlobMatches(Braced(), s) <==> RegexMatches(r.value, s, true) {
      BracedGlob(s);
      BracedRegex(s);
    }
    AgreeOnLines(t, u);
  }

  lemma AgreeOnLines(t: string, u: bool)
    requires ParseGlob(t).Some? && ParseRegex(Convert(t, '\0', u)).Some?
    requires forall s :: '\n' !in s ==>
               (GlobMatches(ParseGlob(t).value, s) <==> RegexMatches(ParseRegex(Convert(t, '\0', u)).value, s, true))
    ensures KeepsLines(t, u)
  {
    hide ParseGlob, ParseRegex, Convert, GlobMatches, RegexMatches;
  }

  lemma BracedSurvives()
    ensures AllSurvive(Braced())
  {
    assert !Wild(Braced().head.alts[0]);
  }

  lemma BracedPlain()
    ensures var (l, p) := (Braced(), Braced().head.alts[0]);
            && l.Cons? && Literals(p) && Literals(l.tail) && Plain(p) == "{2}" && Plain(l.tail) == "{2}"
            && l.head == Group(ExactlyOne, [p])
  {
    assert Plain(Braced().tail) == ['{'] + (['2'] + (['}'] + ""));
    assert Plain(Braced().head.alts[0]) == ['{'] + (['2'] + (['}'] + ""));
  }

  lemma BracedGlob(s: string)
    ensures GlobMatches(Braced(), s) <==> s == "{2}{2}"
  {
    var (l, w) := (Braced(), "{2}");
    hide *;
    BracedPlain();
    BracedWord(w);
    GroupThenLiterals(l, w);
    assert w + w == "{2}{2}";
    if GlobMatches(l, s) {
      var k := GroupCut(l, s);
      LiteralsMatch(l.tail, s[k..]);
      BracedWord(s[..k]);
      assert s == s[..k] + s[k..];
    }
  }

  lemma BracedWord(v: string)
    ensures var g := Braced().head; GroupMatches(g.kind, g.alts, v) <==> v == "{2}"
  {
    var p := Braced().head.alts[0];
    hide *;
    BracedPlain();
    OneIsGroup([p], v);
    OneAlternative(p, v);
    LiteralsMatch(p, v);
  }

  lemma BracedRegex(s: string)
    requires '\n' !in s
    ensures RegexMatches(Cons(Piece(Choice(PiecesOf(Braced().head.alts)), Times(2, Some(2))), Nil), s, true) <==>
            s == "{2}{2}"
  {
    var alts := Braced().head.alts;
    var (p, a) := (alts[0], Choice(PiecesOf(alts)));
    BracedPlain();
    OnlyPiece(Piece(a, Times(2, Some(2))), s);
    AlikeChoice(alts);
    forall v, b | '\n' !in v ensures AtomMatches(a, v, b) <==> v == "{2}" {
      OneAlternative(p, v);
      LiteralsMatch(p, v);
    }
    hide AtomMatches, RegexMatches, Braced;
    TwiceIs(a, "{2}", s);
    assert "{2}" + "{2}" == "{2}{2}";
  }

  lemma OnlyPiece(p: Piece, s: string)
    ensures RegexMatches(Cons(p, Nil), s, true) <==> Repeats(p, s, true)
  {
    hide Repeats;
    assert s[..|s|] == s && s[|s|..] == "";
    if Repeats(p, s, true) {
      assert RegexMatches(Nil, s[|s|..], |s| == 0);
    }
  }
}
