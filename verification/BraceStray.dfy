/** Braces that mean nothing: those without a partner, without a separator, next to blanks, and
    those that quotes protect. */
module BraceStray {
  import opened Options
  import opened BraceText
  import opened BraceTree

  predicate Blank(c: char) { c == ' ' || c == '\t' || c == '\n' }

  // x stays as it is, and what follows is expanded by itself.
  predicate LeftAlone(x: string, t: Tree, st: SeqTerm) {
    BraceExpand(x + Print(t), st) == Prefixed(x, Expand(t, st))
  }

  // ---- the search for an open brace passes them ----

  lemma Beginning(text: string, x: string, y: string)
    requires text == x + y
    ensures Aside(text, 0) && Here(text, 0, x)
    ensures forall a, b :: x == a + b ==> Here(text, 0, a) && Here(text, |a|, b)
  {
    assert text[0..|x|] == x;
    forall a, b | x == a + b ensures Here(text, 0, a) && Here(text, |a|, b) {
      HereSplit(text, 0, a, b);
    }
  }

  // A character that is no open brace, no quote, no backslash and no dollar sign.
  lemma StepPlain(text: string, k: nat, satisfy: char, commas: nat)
    requires k < |text| && (satisfy == '{' || satisfy == '}') && (Blank(text[k]) || text[k] == '}')
    requires satisfy == '}' ==> commas == 0
    ensures Gobble(text, k, satisfy, 0, commas, '\0') == Gobble(text, k + 1, satisfy, 0, commas, '\0')
  {
  }

  lemma AsidePlain(text: string, k: nat)
    requires Aside(text, k) && k < |text| && (Blank(text[k]) || text[k] == '}')
    ensures Aside(text, k + 1)
  {
    StepPlain(text, k, '{', 1);
    hide Gobble, FindOpen;
    SameOpen(text, k, k + 1);
  }

  // An open brace that nothing closes, or that is left alone.
  lemma AsideOpen(text: string, k: nat)
    requires Aside(text, k) && k < |text| && text[k] == '{'
    requires PlainOpen(text, k) || Find(text, k + 1, '}') == |text|
    ensures Aside(text, k + 1)
  {
    if PlainOpen(text, k) {
      assert Gobble(text, k, '{', 0, 1, '\0') == Gobble(text, k + 1, '{', 0, 1, '\0');
      hide Gobble, FindOpen;
      SameOpen(text, k, k + 1);
    } else {
      OpensHere(text, k, 1);
      hide Gobble;
    }
  }

  // ---- braces without a partner ----

  // front{ and nothing that closes it.
  lemma Unclosed(front: string, t: Tree, st: SeqTerm)
    requires Inert(front) && Proper(t)
    ensures LeftAlone(front + "{", t, st)
  {
    hide Inert, BraceExpand, Expand, Print, Proper, Gobble, FindOpen, Find, Aside, Prefixed;
    var x := front + "{";
    var text := x + Print(t);
    Beginning(text, x, Print(t));
    AsideInert(text, 0, front);
    CharAt(text, |front|, '{');
    TreeBehind(text, x, t);
    NotClosed(text, |x|, t);
    AsideOpen(text, |front|);
    ExpandsBehind(x, t, st);
  }

  lemma TreeBehind(text: string, x: string, t: Tree)
    requires text == x + Print(t)
    ensures Here(text, |x|, Print(t)) && |text| == |x| + |Print(t)|
  {
    assert text[|x|..] == Print(t);
  }

  // The separators of a tree are within its groups, and their braces are closed.
  lemma NotClosed(text: string, k: nat, t: Tree)
    requires Proper(t) && Here(text, k, Print(t)) && |text| == k + |Print(t)|
    ensures Find(text, k, '}') == |text|
  {
    hide Proper, Print;
    var c := GobbleTree(text, k, t, '}', 0, 0);
  }

  // front} and nothing that opened it.
  lemma Unopened(front: string, t: Tree, st: SeqTerm)
    requires Inert(front) && Proper(t)
    ensures LeftAlone(front + "}", t, st)
  {
    hide Inert, BraceExpand, Expand, Print, Proper, Gobble, FindOpen, Find, Aside, Prefixed;
    var x := front + "}";
    var text := x + Print(t);
    Beginning(text, x, Print(t));
    AsideInert(text, 0, front);
    CharAt(text, |front|, '}');
    AsidePlain(text, |front|);
    ExpandsBehind(x, t, st);
  }

  // ---- braces without a separator ----

  lemma {:induction false} NoSeparator(text: string, i: nat, w: string, quoted: char)
    requires InertIn(w, quoted) && Here(text, i, w) && !Dotted(w, quoted)
    requires i + |w| < |text| && text[i + |w|] == '}'
    ensures Gobble(text, i, '}', 0, 0, quoted) == Gobble(text, i + |w|, '}', 0, 0, '\0')
    decreases |w|
  {
    hide Gobble, QuoteAfter;
    if w != "" {
      assert text[i] == w[0];
      if w[0] == '\\' && quoted != '\'' {
        HereSuffix(text, i, w, 2);
        StepEscaped(text, i, '}', 0, 0, quoted);
        NoSeparator(text, i + 2, w[2..], quoted);
      } else {
        HereSuffix(text, i, w, 1);
        StepInert(text, i, w, '}', 0, 0, quoted);
        NotCounted(text, i, w, quoted);
        NoSeparator(text, i + 1, w[1..], QuoteAfter(w[0], quoted));
      }
    }
  }

  lemma NotCounted(text: string, i: nat, w: string, quoted: char)
    requires w != "" && InertIn(w, quoted) && Here(text, i, w) && !Dotted(w, quoted)
    requires i + |w| < |text| && text[i + |w|] == '}' && !(w[0] == '\\' && quoted != '\'')
    ensures !Dotted(w[1..], QuoteAfter(w[0], quoted))
    ensures quoted == '\0' && !IsQuote(w[0]) ==> Commas(text, i, '}', 0, 0) == 0
  {
    assert text[i] == w[0];
    assert |w| > 1 ==> text[i + 1] == w[1];
    assert |w| > 2 ==> text[i + 2] == w[2];
    hide InertIn, Dotted;
    if quoted == '\0' && !IsQuote(w[0]) {
      UndottedHere(w);
    }
  }

  lemma UndottedHere(w: string)
    requires w != "" && InertIn(w, '\0') && !IsQuote(w[0]) && !Dotted(w, '\0')
    ensures w[0] != ',' || w[0] == '\\'
    ensures w[0] == '.' && |w| > 2 && w[1] == '.' ==> w[2] == '}'
  {
  }

  // front{s} where s holds neither a comma nor dots with something on their right.
  lemma NoAlternatives(front: string, s: string, t: Tree, st: SeqTerm)
    requires Inert(front) && Inert(s) && !Dotted(s, '\0') && Proper(t)
    ensures LeftAlone(front + ("{" + (s + "}")), t, st)
  {
    hide *;
    var x := front + ("{" + (s + "}"));
    var text := x + Print(t);
    var k := |front|;
    BracedAt(text, front, s, t);
    NeverClosed(text, k + 1, s, t);
    AsideStart(text);
    AsideInert(text, 0, front);
    AsideOpen(text, k);
    AsideInert(text, k + 1, s);
    AsidePlain(text, k + 1 + |s|);
    StaysAlone(x, t, st);
  }

  lemma StaysAlone(x: string, t: Tree, st: SeqTerm)
    requires Proper(t) && Aside(x + Print(t), |x|)
    ensures LeftAlone(x, t, st)
  {
    ExpandsBehind(x, t, st);
  }

  lemma BracedAt(text: string, front: string, s: string, t: Tree)
    requires text == front + ("{" + (s + "}")) + Print(t)
    ensures var k := |front| + 1 + |s|;
            && |text| == k + 1 + |Print(t)| && |front + ("{" + (s + "}"))| == k + 1
            && Here(text, 0, front) && text[|front|] == '{' && Here(text, |front| + 1, s) && text[k] == '}'
            && Here(text, k + 1, Print(t))
  {
    hide *;
    var x := front + ("{" + (s + "}"));
    InFront(text, x, Print(t));
    TreeBehind(text, x, t);
    HereSplit(text, 0, front, "{" + (s + "}"));
    HereSplit(text, |front|, "{", s + "}");
    HereSplit(text, |front| + 1, s, "}");
    CharAt(text, |front|, '{');
    CharAt(text, |front| + 1 + |s|, '}');
  }

  lemma InFront(text: string, x: string, y: string)
    requires text == x + y
    ensures Here(text, 0, x)
  {
    assert text[0..|x|] == x;
  }

  lemma NeverClosed(text: string, k: nat, s: string, t: Tree)
    requires Inert(s) && !Dotted(s, '\0') && Here(text, k, s) && k + |s| < |text| && text[k + |s|] == '}'
    requires Proper(t) && Here(text, k + |s| + 1, Print(t)) && |text| == k + |s| + 1 + |Print(t)|
    ensures Find(text, k, '}') == |text|
  {
    hide Proper, Print, Gobble, Dotted, InertIn;
    NoSeparator(text, k, s, '\0');
    StepPlain(text, k + |s|, '}', 0);
    NotClosed(text, k + |s| + 1, t);
  }

  // ---- braces next to blanks ----

  // At the beginning, an open brace before a blank, and {}.
  lemma BlankAtStart(c: char, t: Tree, st: SeqTerm)
    requires (Blank(c) || c == '}') && Proper(t)
    ensures LeftAlone("{" + [c], t, st)
  {
    hide *;
    var x := "{" + [c];
    var text := x + Print(t);
    assert text[0] == '{' && text[1] == c && |text| >= 2 && |x| == 2;
    OpensPlainly(text, 0);
    AsideStart(text);
    AsideOpen(text, 0);
    AsidePlain(text, 1);
    StaysAlone(x, t, st);
  }

  // And the same behind a blank.
  lemma NextToBlanks(front: string, b: char, c: char, t: Tree, st: SeqTerm)
    requires Inert(front) && Blank(b) && (Blank(c) || c == '}') && Proper(t)
    ensures LeftAlone(front + ([b] + ("{" + [c])), t, st)
  {
    hide *;
    var x := front + ([b] + ("{" + [c]));
    var text := x + Print(t);
    var k := |front|;
    BlanksAt(text, front, b, c, t);
    AsideStart(text);
    AsideInert(text, 0, front);
    AsidePlain(text, k);
    OpensPlainly(text, k + 1);
    AsideOpen(text, k + 1);
    AsidePlain(text, k + 2);
    StaysAlone(x, t, st);
  }

  lemma BlanksAt(text: string, front: string, b: char, c: char, t: Tree)
    requires text == front + ([b] + ("{" + [c])) + Print(t)
    ensures var k := |front|;
            && |text| >= k + 3 && |front + ([b] + ("{" + [c]))| == k + 3
            && Here(text, 0, front) && text[k] == b && text[k + 1] == '{' && text[k + 2] == c
  {
    hide Print;
    assert text[0..|front|] == front;
  }

  lemma OpensPlainly(text: string, i: nat)
    requires i + 1 < |text| && (Blank(text[i + 1]) || text[i + 1] == '}') && (i > 0 ==> Blank(text[i - 1]))
    ensures PlainOpen(text, i)
  {
  }

  // Behind anything else such a brace opens a group like others.
  lemma BlankWithin(front: string, c: char, v: string, w: string, st: SeqTerm)
    requires Inert(front) && front != "" && !Blank(front[|front| - 1]) && front[|front| - 1] != '\0'
    requires (Blank(c) || c == '}') && Inert(v) && Inert(w)
    ensures BraceExpand(front + ("{" + ([c] + v + ("," + w) + "}")), st) == [front + ([c] + v), front + w]
  {
    hide *;
    var amble := [c] + v + ("," + w);
    var text := front + ("{" + (amble + "}") + "");
    BlankOpens(text, front, c, v, w);
    BlankAmble(amble, c, v, w, st);
    GroupCase(text, front, amble, "", st);
    TwoWords(front, [c] + v, w);
    assert front + ("{" + (amble + "}") + "") == front + ("{" + (amble + "}"));
    assert "{" + (amble + "}") == "{" + ([c] + v + ("," + w) + "}");
  }

  lemma BlankOpens(text: string, front: string, c: char, v: string, w: string)
    requires Inert(front) && front != "" && !Blank(front[|front| - 1]) && front[|front| - 1] != '\0'
    requires (Blank(c) || c == '}') && Inert(v) && Inert(w)
    requires text == front + ("{" + ([c] + v + ("," + w) + "}") + "")
    ensures FindOpen(text, 0) == |front| && Find(text, |front| + 1, '}') == |front| + 1 + |[c] + v + ("," + w)|
  {
    hide *;
    WithinAt(text, front, c, v, w);
    BlankCloses(text, |front| + 1, v, w);
    AsideStart(text);
    AsideInert(text, 0, front);
    OpensAfter(text, |front|);
  }

  lemma WithinAt(text: string, front: string, c: char, v: string, w: string)
    requires text == front + ("{" + ([c] + v + ("," + w) + "}") + "") && front != ""
    ensures var k := |front| + 1;
            && |text| == k + |v| + |w| + 3 && |[c] + v + ("," + w)| == |v| + |w| + 2
            && Here(text, 0, front) && text[k - 2] == front[|front| - 1]
            && text[k - 1] == '{' && text[k] == c && Here(text, k + 1, v) && Here(text, k + 1 + |v|, ",")
            && Here(text, k + 2 + |v|, w) && Here(text, k + 2 + |v| + |w|, "}")
  {
    var amble, k := [c] + v + ("," + w), |front| + 1;
    GroupHere(text, front, amble + "}", "");
    HereSplit(text, k, amble, "}");
    HereSplit(text, k, [c] + v, "," + w);
    HereSplit(text, k, [c], v);
    HereSplit(text, k + 1 + |v|, ",", w);
    CharAt(text, k, c);
    CharAt(text, k - 1, '{');
    assert text[0..|front|] == front;
  }

  lemma AsideStart(text: string)
    ensures Aside(text, 0)
  {
  }

  lemma TwoWords(x: string, v: string, w: string)
    ensures Product([x], [v, w]) == [x + v, x + w]
  {
    ProductOne(x, [v, w]);
  }

  lemma OpensAfter(text: string, k: nat)
    requires Aside(text, k) && 0 < k < |text| && text[k] == '{' && Find(text, k + 1, '}') < |text|
    requires !Blank(text[k - 1]) && text[k - 1] != '\0'
    ensures FindOpen(text, 0) == k
  {
    OpensHere(text, k, 1);
    hide Gobble;
    FoundOpen(text, k);
  }

  lemma BlankCloses(text: string, k: nat, v: string, w: string)
    requires k < |text| && (Blank(text[k]) || text[k] == '}') && Inert(v) && Inert(w)
    requires Here(text, k + 1, v) && Here(text, k + 1 + |v|, ",") && Here(text, k + 2 + |v|, w)
    requires Here(text, k + 2 + |v| + |w|, "}")
    ensures Find(text, k, '}') == k + 2 + |v| + |w|
  {
    hide Inert, Gobble;
    StepPlain(text, k, '}', 0);
    var c1 := GobbleInert(text, k + 1, v, '}', 0, 0);
    CharAt(text, k + 1 + |v|, ',');
    StepComma(text, k + 1 + |v|, '}', 0, c1);
    var c2 := GobbleInert(text, k + 2 + |v|, w, '}', 0, c1 + 1);
    CharAt(text, k + 2 + |v| + |w|, '}');
    ClosesHere(text, k + 2 + |v| + |w|, c2);
  }

  lemma ClosesHere(text: string, i: nat, commas: nat)
    requires i < |text| && text[i] == '}' && commas > 0
    ensures Gobble(text, i, '}', 0, commas, '\0') == i
  {
  }

  lemma CommaHere(s: string, i: nat)
    requires i < |s|
    ensures HasComma(s, i) <==> if s[i] == '\\' then HasComma(s, i + 2) else s[i] == ',' || HasComma(s, i + 1)
  {
  }

  lemma BlankAmble(amble: string, c: char, v: string, w: string, st: SeqTerm)
    requires amble == [c] + v + ("," + w) && (Blank(c) || c == '}') && Inert(v) && Inert(w)
    ensures HasComma(amble, 0) && ExpandAmble(amble, 0, st) == [[c] + v, w]
  {
    assert c != '\\';
    hide *;
    var k := 1 + |v|;
    AmbleAt(amble, c, v, w);
    BlankComma(amble, v, w);
    AmbleStep(amble, 0, k, st);
    AmbleStep(amble, k + 1, |amble|, st);
    BlankWord(c, v, st);
    WordIs(w, st);
    assert [[c] + v] + ([w] + []) == [[c] + v, w];
    CommaHere(amble, k);
    InertIs(v);
    InertPaired(v, '\0');
    HasCommaPast(amble, 1, v);
    CommaHere(amble, 0);
  }

  lemma AmbleAt(amble: string, c: char, v: string, w: string)
    requires amble == [c] + v + ("," + w)
    ensures var k := 1 + |v|;
            && |amble| == |v| + |w| + 2 && amble[0] == c && amble[k] == ','
            && Here(amble, 1, v) && Here(amble, k + 1, w)
            && amble[0..k] == [c] + v && amble[k + 1..|amble|] == w
  {
  }

  lemma InertIs(v: string)
    requires Inert(v)
    ensures InertIn(v, '\0')
  {
  }

  lemma BlankComma(amble: string, v: string, w: string)
    requires |amble| == |v| + |w| + 2 && (Blank(amble[0]) || amble[0] == '}') && Inert(v) && Inert(w)
    requires Here(amble, 1, v) && amble[1 + |v|] == ',' && Here(amble, 2 + |v|, w)
    ensures Find(amble, 0, ',') == 1 + |v| && Find(amble, 2 + |v|, ',') == |amble|
  {
    assert Gobble(amble, 0, ',', 0, 1, '\0') == Gobble(amble, 1, ',', 0, 1, '\0');
    assert Gobble(amble, 1 + |v|, ',', 0, 1, '\0') == 1 + |v|;
    hide Inert, Gobble;
    var c := GobbleInert(amble, 1, v, ',', 0, 1);
    var c' := GobbleInert(amble, 2 + |v|, w, ',', 0, 1);
    GobbleEnd(amble, ',', 1);
  }

  lemma GobbleEnd(text: string, satisfy: char, commas: nat)
    ensures Gobble(text, |text|, satisfy, 0, commas, '\0') == |text|
  {
  }

  lemma BlankWord(c: char, v: string, st: SeqTerm)
    requires (Blank(c) || c == '}') && Inert(v)
    ensures BraceExpand([c] + v, st) == [[c] + v]
  {
    hide Inert, Gobble, FindOpen, Find, Aside;
    var text := [c] + v;
    assert Here(text, 1, v);
    AsideStart(text);
    AsidePlain(text, 0);
    AsideInert(text, 1, v);
    AsideEnd(text);
  }

  lemma WordIs(w: string, st: SeqTerm)
    requires Inert(w)
    ensures BraceExpand(w, st) == [w]
  {
    hide Inert, Gobble, FindOpen, Find, Aside;
    assert Here(w, 0, w);
    AsideStart(w);
    AsideInert(w, 0, w);
    AsideEnd(w);
  }

  // ---- what quotes and backslashes protect ----

  // Nothing between quotes matters.
  lemma QuotedIsInert(q: char, s: string)
    requires (q == '"' || q == '\'' || q == '`') && q !in s && (q == '\'' || ('\\' !in s && '$' !in s))
    ensures Inert([q] + s + [q])
  {
    QuotedRest(q, s);
    assert ([q] + s + [q])[1..] == s + [q];
  }

  lemma {:induction false} QuotedRest(q: char, s: string)
    requires (q == '"' || q == '\'' || q == '`') && q !in s && (q == '\'' || ('\\' !in s && '$' !in s))
    ensures InertIn(s + [q], q)
    decreases |s|
  {
    if s == "" {
      assert [q][1..] == "";
    } else {
      QuotedRest(q, s[1..]);
      assert (s + [q])[1..] == s[1..] + [q];
    }
  }

  // A comma makes alternatives unless a backslash is before it.
  lemma CommaMatters(a: string, b: string)
    requires ',' !in a && '\\' !in a
    ensures HasComma(a + ("," + b), 0)
    ensures HasComma(a + ("\\," + b), 0) <==> HasComma(b, 0)
  {
    hide HasComma;
    var s, u := a + ("," + b), a + ("\\," + b);
    NoCommaYet(s, a, 0);
    NoCommaYet(u, a, 0);
    assert s[|a|] == ',' && u[|a|] == '\\';
    CommaHere(s, |a|);
    CommaHere(u, |a|);
    assert u[|a| + 2..] == b;
    CommaLater(u, |a| + 2, b, 0);
  }

  lemma {:induction false} NoCommaYet(s: string, a: string, i: nat)
    requires i <= |a| <= |s| && s[..|a|] == a && ',' !in a && '\\' !in a
    ensures HasComma(s, i) == HasComma(s, |a|)
    decreases |a| - i
  {
    if i < |a| {
      assert s[i] == a[i];
      NoCommaYet(s, a, i + 1);
    }
  }

  lemma {:induction false} CommaLater(u: string, k: nat, b: string, i: nat)
    requires k <= |u| && u[k..] == b
    ensures HasComma(u, k + i) == HasComma(b, i)
    decreases |b| - i
  {
    if i < |b| {
      assert u[k + i] == b[i];
      CommaLater(u, k, b, i + 1);
      CommaLater(u, k, b, i + 2);
    }
  }
}
