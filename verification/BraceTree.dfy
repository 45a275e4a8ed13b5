/** Brace expressions as trees, how they are written, what they expand to, and the proof
    that brace_expand computes it. */
module BraceTree {
  import opened BraceText

  // A brace expression: literals, groups of alternatives, and sequence terms in braces, which
  // have two dots instead of separators, one after another.
  datatype Item = Lit(s: string) | Group(alts: seq<Tree>) | Term(s: string) | Param(s: string)
  datatype Tree = Nil | Cons(first: Item, rest: Tree)

  // Text whose quotes are closed, without characters outside quotes that the gobbler looks
  // at; a backslash protects any character but between single quotes.
  predicate Inert(s: string) { InertIn(s, '\0') }

  // The same with the quote `quoted` open in front of s, or none.
  predicate InertIn(s: string, quoted: char)
    decreases |s|
  {
    if s == "" then quoted == '\0'
    else if s[0] == '\\' && quoted != '\'' then |s| >= 2 && InertIn(s[2..], quoted)
    else if s[0] == '$' && quoted != '\'' && (|s| == 1 || s[1] == '{' || s[1] == '(') then false
    else if quoted != '\0' then InertIn(s[1..], if s[0] == quoted then '\0' else quoted)
    else if IsQuote(s[0]) then InertIn(s[1..], s[0])
    else s[0] !in "{},<>" && !BraceWhite(s[0]) && InertIn(s[1..], '\0')
  }

  // The quote open behind a character that no backslash protects.
  function QuoteAfter(c: char, quoted: char): char {
    if quoted != '\0' then if c == quoted then '\0' else quoted else if IsQuote(c) then c else '\0'
  }

  // No backslash is the last character, unless another one protects it.
  predicate Paired(s: string)
    decreases |s|
  {
    if s == "" then true else if s[0] == '\\' then |s| >= 2 && Paired(s[2..]) else Paired(s[1..])
  }

  // Outside quotes s has two dots with something behind them.
  predicate Dotted(s: string, quoted: char)
    decreases |s|
  {
    if s == "" then false
    else if s[0] == '\\' && quoted != '\'' then |s| >= 2 && Dotted(s[2..], quoted)
    else
      || (quoted == '\0' && |s| > 2 && s[0] == '.' && s[1] == '.' && s[2] != '}')
      || Dotted(s[1..], QuoteAfter(s[0], quoted))
  }

  lemma {:induction false} InertPaired(s: string, quoted: char)
    requires InertIn(s, quoted)
    ensures Paired(s)
    decreases |s|
  {
    if s == "" {
    } else if s[0] == '\\' {
      if quoted == '\'' {
        assert InertIn(s[1..], quoted) && s[1..][1..] == s[2..];
        InertPaired(s[2..], QuoteAfter(s[1], quoted));
      } else {
        InertPaired(s[2..], quoted);
      }
    } else {
      InertPaired(s[1..], QuoteAfter(s[0], quoted));
    }
  }

  predicate Proper(t: Tree)
    decreases t, 1
  {
    t.Nil? || (ProperItem(t.first) && Proper(t.rest))
  }

  predicate ProperItem(i: Item)
    decreases i, 0
  {
    match i
    case Lit(s) => Inert(s)
    case Group(alts) => |alts| >= 2 && ProperAlts(alts)
    case Term(s) => Inert(s) && !HasComma(s, 0) && Dotted(s, '\0')
    case Param(s) => Inert(s)
  }

  predicate ProperAlts(alts: seq<Tree>)
    decreases alts, 1
  {
    alts == [] || (Proper(alts[0]) && ProperAlts(alts[1..]))
  }

  function Print(t: Tree): string
    decreases t, 1
  {
    if t.Nil? then "" else PrintItem(t.first) + Print(t.rest)
  }

  function PrintItem(i: Item): string
    decreases i, 0
  {
    match i
    case Lit(s) => s
    case Group(alts) => "{" + PrintAlts(alts) + "}"
    case Term(s) => "{" + s + "}"
    case Param(s) => "${" + s + "}"
  }

  function PrintAlts(alts: seq<Tree>): string
    decreases alts, 1
  {
    if alts == [] then ""
    else if |alts| == 1 then Print(alts[0])
    else Print(alts[0]) + "," + PrintAlts(alts[1..])
  }

  // The meaning: all ways of choosing one alternative in each group, and one term in each
  // sequence, leftmost slowest; a sequence that is none stays as it is, and so does ${...}.
  function Expand(t: Tree, st: SeqTerm): seq<string>
    decreases t, 1
  {
    if t.Nil? then [""] else Product(ExpandItem(t.first, st), Expand(t.rest, st))
  }

  function ExpandItem(i: Item, st: SeqTerm): seq<string>
    decreases i, 0
  {
    match i
    case Lit(s) => [s]
    case Group(alts) => ExpandAlts(alts, st)
    case Term(s) => if st(s).Some? then st(s).value else ["{" + s + "}"]
    case Param(s) => ["${" + s + "}"]
  }

  function ExpandAlts(alts: seq<Tree>, st: SeqTerm): seq<string>
    decreases alts, 1
  {
    if alts == [] then [] else Expand(alts[0], st) + ExpandAlts(alts[1..], st)
  }

  lemma AltsOne(alts: seq<Tree>)
    requires |alts| == 1
    ensures PrintAlts(alts) == Print(alts[0]) && forall st :: ExpandAlts(alts, st) == Expand(alts[0], st)
  {
    assert alts[1..] == [];
  }

  lemma AltsMore(alts: seq<Tree>)
    requires |alts| >= 2
    ensures PrintAlts(alts) == (Print(alts[0]) + ",") + PrintAlts(alts[1..])
    ensures forall st :: ExpandAlts(alts, st) == Expand(alts[0], st) + ExpandAlts(alts[1..], st)
  {
  }

  // ---------- the gobbler on printed trees ----------

  // w is written at i in text.
  ghost predicate Here(text: string, i: nat, w: string) {
    i + |w| <= |text| && text[i..i + |w|] == w
  }

  lemma HereSplit(text: string, i: nat, a: string, b: string)
    ensures Here(text, i, a + b) <==> Here(text, i, a) && Here(text, i + |a|, b)
  {
    if Here(text, i, a + b) {
      assert text[i..i + |a|] == (a + b)[..|a|];
      assert text[i + |a|..i + |a| + |b|] == (a + b)[|a|..];
    }
    if Here(text, i, a) && Here(text, i + |a|, b) {
      assert text[i..i + |a + b|] == text[i..i + |a|] + text[i + |a|..i + |a| + |b|];
    }
  }

  lemma HereSuffix(text: string, i: nat, w: string, k: nat)
    requires Here(text, i, w) && k <= |w|
    ensures Here(text, i + k, w[k..])
  {
    assert w == w[..k] + w[k..];
    HereSplit(text, i, w[..k], w[k..]);
  }

  // The gobbler is past w: it goes on behind it at the same level, having counted at
  // least as many separators.
  ghost predicate Past(text: string, i: nat, w: string, satisfy: char, level: nat, commas: nat, commas': nat) {
    && i + |w| <= |text| && commas <= commas'
    && (satisfy != '}' || level > 0 ==> commas' == commas)
    && Gobble(text, i, satisfy, level, commas, '\0') == Gobble(text, i + |w|, satisfy, level, commas', '\0')
  }

  lemma PastBoth(text: string, i: nat, a: string, b: string, satisfy: char, level: nat, c0: nat, c1: nat, c2: nat)
    requires Past(text, i, a, satisfy, level, c0, c1) && Past(text, i + |a|, b, satisfy, level, c1, c2)
    ensures Past(text, i, a + b, satisfy, level, c0, c2)
  {
  }

  lemma StepComma(text: string, i: nat, satisfy: char, level: nat, commas: nat)
    requires i < |text| && text[i] == ',' && (satisfy == '}' || satisfy == ',') && (satisfy == ',' ==> level > 0)
    ensures Gobble(text, i, satisfy, level, commas, '\0') ==
            Gobble(text, i + 1, satisfy, level, if satisfy == '}' && level == 0 then commas + 1 else commas, '\0')
  {
  }

  lemma StepOpen(text: string, i: nat, satisfy: char, level: nat, commas: nat)
    requires i < |text| && text[i] == '{' && (satisfy == '}' || satisfy == ',')
    ensures Gobble(text, i, satisfy, level, commas, '\0') == Gobble(text, i + 1, satisfy, level + 1, commas, '\0')
  {
  }

  lemma StepClose(text: string, i: nat, satisfy: char, level: nat, commas: nat)
    requires i < |text| && text[i] == '}' && (satisfy == '{' || satisfy == '}' || satisfy == ',') && level > 0
    ensures Gobble(text, i, satisfy, level, commas, '\0') == Gobble(text, i + 1, satisfy, level - 1, commas, '\0')
  {
  }

  lemma CharAt(text: string, i: nat, c: char)
    requires Here(text, i, [c])
    ensures i < |text| && text[i] == c
  {
    assert text[i..i + 1][0] == c;
  }

  lemma GobbleInert(text: string, i: nat, w: string, satisfy: char, level: nat, commas: nat)
    returns (commas': nat)
    requires Inert(w) && Here(text, i, w) && satisfy in "{},"
    ensures Past(text, i, w, satisfy, level, commas, commas')
  {
    commas' := GobbleIn(text, i, w, satisfy, level, commas, '\0');
  }

  lemma StepEscaped(text: string, i: nat, satisfy: char, level: nat, commas: nat, quoted: char)
    requires i + 2 <= |text| && text[i] == '\\' && quoted != '\''
    ensures Gobble(text, i, satisfy, level, commas, quoted) == Gobble(text, i + 2, satisfy, level, commas, quoted)
  {
  }

  lemma StepInert(text: string, i: nat, w: string, satisfy: char, level: nat, commas: nat, quoted: char)
    requires InertIn(w, quoted) && w != "" && Here(text, i, w) && (satisfy == '{' || satisfy == '}' || satisfy == ',')
    requires w[0] != '\\' || quoted == '\''
    ensures InertIn(w[1..], QuoteAfter(w[0], quoted))
    ensures Gobble(text, i, satisfy, level, commas, quoted) == Gobble(text, i + 1, satisfy, level,
              if quoted == '\0' && !IsQuote(w[0]) then Commas(text, i, satisfy, level, commas) else commas,
              QuoteAfter(w[0], quoted))
  {
    assert text[i] == w[0];
    assert |w| > 1 ==> text[i + 1] == w[1];
    hide Commas;
  }

  // Where the dots are.
  lemma DottedStep(text: string, i: nat, w: string, quoted: char)
    requires Here(text, i, w)
    ensures w == "" ==> !Dotted(w, quoted)
    ensures w != "" && w[0] == '\\' && quoted != '\'' ==> Dotted(w, quoted) == (|w| >= 2 && Dotted(w[2..], quoted))
    ensures w != "" && !(w[0] == '\\' && quoted != '\'') && Dotted(w, quoted) ==>
              || Dotted(w[1..], QuoteAfter(w[0], quoted))
              || (quoted == '\0' && !IsQuote(w[0]) && forall c: nat :: Commas(text, i, '}', 0, c) == c + 1)
  {
    if |w| > 2 {
      assert text[i] == w[0] && text[i + 1] == w[1] && text[i + 2] == w[2];
    }
  }

  lemma {:induction false} GobbleIn(text: string, i: nat, w: string, satisfy: char, level: nat, commas: nat,
      quoted: char)
    returns (commas': nat)
    requires InertIn(w, quoted) && Here(text, i, w) && (satisfy == '{' || satisfy == '}' || satisfy == ',')
    ensures commas <= commas' && (satisfy != '}' || level > 0 ==> commas' == commas)
    ensures satisfy == '}' && level == 0 && Dotted(w, quoted) ==> commas < commas'
    ensures Gobble(text, i, satisfy, level, commas, quoted) == Gobble(text, i + |w|, satisfy, level, commas', '\0')
    decreases |w|
  {
    hide Gobble, QuoteAfter, Dotted;
    DottedStep(text, i, w, quoted);
    commas' := commas;
    if w != "" {
      if w[0] == '\\' && quoted != '\'' {
        HereSuffix(text, i, w, 2);
        assert text[i] == w[0];
        StepEscaped(text, i, satisfy, level, commas, quoted);
        commas' := GobbleIn(text, i + 2, w[2..], satisfy, level, commas, quoted);
      } else {
        HereSuffix(text, i, w, 1);
        StepInert(text, i, w, satisfy, level, commas, quoted);
        var next := if quoted == '\0' && !IsQuote(w[0]) then Commas(text, i, satisfy, level, commas) else commas;
        commas' := GobbleIn(text, i + 1, w[1..], satisfy, level, next, QuoteAfter(w[0], quoted));
      }
    }
  }

  lemma {:induction false} GobbleTree(text: string, i: nat, t: Tree, satisfy: char, level: nat, commas: nat)
    returns (commas': nat)
    requires Proper(t) && Here(text, i, Print(t)) && (satisfy == '}' || satisfy == ',')
    ensures Past(text, i, Print(t), satisfy, level, commas, commas')
    decreases t, 1
  {
    hide Gobble, Inert, PrintItem;
    commas' := commas;
    if t.Cons? {
      HereSplit(text, i, PrintItem(t.first), Print(t.rest));
      var mid := GobbleItem(text, i, t.first, satisfy, level, commas);
      commas' := GobbleTree(text, i + |PrintItem(t.first)|, t.rest, satisfy, level, mid);
    }
  }

  lemma {:induction false} GobbleItem(text: string, i: nat, item: Item, satisfy: char, level: nat, commas: nat)
    returns (commas': nat)
    requires ProperItem(item) && Here(text, i, PrintItem(item)) && (satisfy == '}' || satisfy == ',')
    ensures Past(text, i, PrintItem(item), satisfy, level, commas, commas')
    decreases item, 0
  {
    match item
    case Lit(s) => commas' := GobbleInert(text, i, s, satisfy, level, commas);
    case Group(alts) =>
      GobbleGroup(text, i, alts, satisfy, level, commas);
      commas' := commas;
    case Term(s) =>
      GobbleTerm(text, i, s, satisfy, level, commas);
      commas' := commas;
    case Param(s) =>
      GobbleParam(text, i, s, satisfy, level, commas);
      commas' := commas;
  }

  lemma StepDollar(text: string, i: nat, satisfy: char, level: nat, commas: nat)
    requires i + 1 < |text| && text[i] == '$' && text[i + 1] == '{'
    ensures Gobble(text, i, satisfy, level, commas, '\0') == Gobble(text, i + 2, satisfy, level + 1, commas, '\0')
  {
  }

  lemma GobbleParam(text: string, i: nat, s: string, satisfy: char, level: nat, commas: nat)
    requires Inert(s) && Here(text, i, "${" + s + "}") && (satisfy == '{' || satisfy == '}' || satisfy == ',')
    ensures Past(text, i, "${" + s + "}", satisfy, level, commas, commas)
  {
    hide Gobble, Inert;
    HereSplit(text, i, "${" + s, "}");
    HereSplit(text, i, "${", s);
    assert text[i] == text[i..i + 2][0] && text[i + 1] == text[i..i + 2][1];
    CharAt(text, i + 2 + |s|, '}');
    StepDollar(text, i, satisfy, level, commas);
    var c := GobbleInert(text, i + 2, s, satisfy, level + 1, commas);
    StepClose(text, i + 2 + |s|, satisfy, level + 1, commas);
  }

  lemma GobbleTerm(text: string, i: nat, s: string, satisfy: char, level: nat, commas: nat)
    requires Inert(s) && Here(text, i, "{" + s + "}") && (satisfy == '}' || satisfy == ',')
    ensures Past(text, i, "{" + s + "}", satisfy, level, commas, commas)
  {
    hide Gobble, Inert;
    HereSplit(text, i, "{" + s, "}");
    HereSplit(text, i, "{", s);
    CharAt(text, i, '{');
    CharAt(text, i + 1 + |s|, '}');
    StepOpen(text, i, satisfy, level, commas);
    var c := GobbleInert(text, i + 1, s, satisfy, level + 1, commas);
    StepClose(text, i + 1 + |s|, satisfy, level + 1, commas);
  }

  lemma {:induction false} GobbleGroup(text: string, i: nat, alts: seq<Tree>, satisfy: char, level: nat, commas: nat)
    requires ProperAlts(alts) && Here(text, i, "{" + PrintAlts(alts) + "}") && (satisfy == '}' || satisfy == ',')
    ensures Past(text, i, "{" + PrintAlts(alts) + "}", satisfy, level, commas, commas)
    decreases alts, 2
  {
    var w := PrintAlts(alts);
    hide PrintAlts, Gobble;
    HereSplit(text, i, "{" + w, "}");
    HereSplit(text, i, "{", w);
    CharAt(text, i, '{');
    CharAt(text, i + 1 + |w|, '}');
    StepOpen(text, i, satisfy, level, commas);
    GobbleInside(text, i + 1, alts, satisfy, level + 1, commas);
    StepClose(text, i + 1 + |w|, satisfy, level + 1, commas);
  }

  // Inside a group, separators and braces are none of the outer search's business.
  lemma {:induction false} GobbleInside(text: string, i: nat, alts: seq<Tree>, satisfy: char, level: nat, commas: nat)
    requires ProperAlts(alts) && Here(text, i, PrintAlts(alts)) && (satisfy == '}' || satisfy == ',') && level > 0
    ensures Past(text, i, PrintAlts(alts), satisfy, level, commas, commas)
    decreases alts, 1
  {
    hide Print, PrintAlts, Gobble, Inert, Proper, Past, Here;
    if alts == [] {
      PastNothing(text, i, alts, satisfy, level, commas);
    } else if |alts| == 1 {
      AltsOne(alts);
      var c := GobbleTree(text, i, alts[0], satisfy, level, commas);
      SameCommas(text, i, Print(alts[0]), satisfy, level, commas, c);
    } else {
      var w, more := Print(alts[0]), PrintAlts(alts[1..]);
      AltsMore(alts);
      HereSplit(text, i, w + ",", more);
      HereSplit(text, i, w, ",");
      var c := GobbleTree(text, i, alts[0], satisfy, level, commas);
      SameCommas(text, i, w, satisfy, level, commas, c);
      PastComma(text, i + |w|, satisfy, level, commas);
      PastBoth(text, i, w, ",", satisfy, level, commas, commas, commas);
      GobbleInside(text, i + |w| + 1, alts[1..], satisfy, level, commas);
      PastBoth(text, i, w + ",", more, satisfy, level, commas, commas, commas);
    }
  }

  lemma PastNothing(text: string, i: nat, alts: seq<Tree>, satisfy: char, level: nat, commas: nat)
    requires alts == [] && Here(text, i, PrintAlts(alts))
    ensures Past(text, i, PrintAlts(alts), satisfy, level, commas, commas)
  {
    hide Gobble;
  }

  lemma SameCommas(text: string, i: nat, w: string, satisfy: char, level: nat, commas: nat, commas': nat)
    requires level > 0 && Past(text, i, w, satisfy, level, commas, commas')
    ensures commas' == commas
  {
    hide Gobble;
  }

  lemma PastComma(text: string, i: nat, satisfy: char, level: nat, commas: nat)
    requires Here(text, i, ",") && (satisfy == '}' || satisfy == ',') && level > 0
    ensures Past(text, i, ",", satisfy, level, commas, commas)
  {
    hide Gobble;
    CharAt(text, i, ',');
    StepComma(text, i, satisfy, level, commas);
  }

  // The search for the closing brace passes the alternatives, counting their separators.
  lemma {:induction false} GobbleAlts(text: string, i: nat, alts: seq<Tree>, commas: nat) returns (commas': nat)
    requires ProperAlts(alts) && |alts| >= 1 && Here(text, i, PrintAlts(alts))
    ensures Past(text, i, PrintAlts(alts), '}', 0, commas, commas')
    ensures |alts| >= 2 ==> commas' > commas
    decreases |alts|
  {
    hide PrintAlts, Print, Gobble;
    if |alts| == 1 {
      AltsOne(alts);
      commas' := GobbleTree(text, i, alts[0], '}', 0, commas);
    } else {
      var w, more := Print(alts[0]), PrintAlts(alts[1..]);
      AltsMore(alts);
      HereSplit(text, i, w + ",", more);
      HereSplit(text, i, w, ",");
      var c := GobbleTree(text, i, alts[0], '}', 0, commas);
      CharAt(text, i + |w|, ',');
      StepComma(text, i + |w|, '}', 0, c);
      PastBoth(text, i, w, ",", '}', 0, commas, c, c + 1);
      commas' := GobbleAlts(text, i + |w| + 1, alts[1..], c + 1);
      PastBoth(text, i, w + ",", more, '}', 0, commas, c + 1, commas');
    }
  }

  // From behind an open brace, the search for the closing one ends at the group's own.
  lemma FindClose(text: string, i: nat, alts: seq<Tree>)
    requires ProperAlts(alts) && |alts| >= 2 && Here(text, i, PrintAlts(alts) + "}")
    ensures Find(text, i, '}') == i + |PrintAlts(alts)|
  {
    var w := PrintAlts(alts);
    HereSplit(text, i, w, "}");
    var commas := GobbleAlts(text, i, alts, 0);
    assert text[i + |w|] == text[i + |w|..i + |w| + 1][0] == '}';
  }

  lemma FindCloseTerm(text: string, i: nat, s: string)
    requires Inert(s) && Dotted(s, '\0') && Here(text, i, s + "}")
    ensures Find(text, i, '}') == i + |s|
  {
    HereSplit(text, i, s, "}");
    var commas := GobbleIn(text, i, s, '}', 0, 0, '\0');
    assert text[i + |s|] == text[i + |s|..i + |s| + 1][0] == '}';
  }

  // The separator that ends an alternative is the one after it.
  lemma FindComma(text: string, i: nat, t: Tree)
    requires Proper(t) && Here(text, i, Print(t))
    requires i + |Print(t)| < |text| ==> text[i + |Print(t)|] == ','
    ensures Find(text, i, ',') == i + |Print(t)|
  {
    var commas := GobbleTree(text, i, t, ',', 0, 1);
  }

  // ---------- products ----------

  lemma PrefixedNothing(ys: seq<string>)
    ensures Prefixed("", ys) == ys
  {
    forall j | 0 <= j < |ys|
      ensures Prefixed("", ys)[j] == ys[j]
    {
      assert "" + ys[j] == ys[j];
    }
  }

  lemma PrefixedTwice(x: string, y: string, zs: seq<string>)
    ensures Prefixed(x, Prefixed(y, zs)) == Prefixed(x + y, zs)
  {
    forall j | 0 <= j < |zs|
      ensures Prefixed(x, Prefixed(y, zs))[j] == Prefixed(x + y, zs)[j]
    {
      assert x + (y + zs[j]) == (x + y) + zs[j];
    }
  }

  lemma ProductOne(x: string, ys: seq<string>)
    ensures Product([x], ys) == Prefixed(x, ys)
  {
    assert [x][1..] == [];
    assert Product([], ys) == [];
  }

  lemma PrefixedConcat(x: string, ys: seq<string>, zs: seq<string>)
    ensures Prefixed(x, ys + zs) == Prefixed(x, ys) + Prefixed(x, zs)
  {
  }

  lemma {:induction false} ProductConcat(xs: seq<string>, ys: seq<string>, zs: seq<string>)
    ensures Product(xs + ys, zs) == Product(xs, zs) + Product(ys, zs)
    decreases |xs|
  {
    if xs == [] {
      assert xs + ys == ys;
    } else {
      ProductConcat(xs[1..], ys, zs);
      assert (xs + ys)[1..] == xs[1..] + ys;
    }
  }

  lemma {:induction false} ProductAssociative(xs: seq<string>, ys: seq<string>, zs: seq<string>)
    ensures Product(Product(xs, ys), zs) == Product(xs, Product(ys, zs))
    decreases |xs|
  {
    if xs == [] {
    } else {
      ProductAssociative(xs[1..], ys, zs);
      ProductConcat(Prefixed(xs[0], ys), Product(xs[1..], ys), zs);
      ProductPrefixed(xs[0], ys, zs);
    }
  }

  lemma {:induction false} ProductPrefixed(x: string, ys: seq<string>, zs: seq<string>)
    ensures Product(Prefixed(x, ys), zs) == Prefixed(x, Product(ys, zs))
    decreases |ys|
  {
    if ys == [] {
    } else {
      ProductPrefixed(x, ys[1..], zs);
      assert Prefixed(x, ys)[1..] == Prefixed(x, ys[1..]);
      PrefixedTwice(x, ys[0], zs);
      PrefixedConcat(x, Prefixed(ys[0], zs), Product(ys[1..], zs));
    }
  }

  // The shortcuts of array_concat: a single empty string is neutral on either side.
  lemma ProductNeutral(xs: seq<string>)
    ensures Product([""], xs) == xs && Product(xs, [""]) == xs
  {
    ProductOne("", xs);
    PrefixedNothing(xs);
    ProductEmptyRight(xs);
  }

  lemma {:induction false} ProductEmptyRight(xs: seq<string>)
    ensures Product(xs, [""]) == xs
    decreases |xs|
  {
    if xs != [] {
      ProductEmptyRight(xs[1..]);
      assert xs[0] + "" == xs[0];
      assert Prefixed(xs[0], [""]) == [xs[0]];
    }
  }

  // ---------- brace_expand on a printed tree ----------

  // Brace expressions are looked for from k on, as if nothing stood before.
  ghost predicate Aside(text: string, k: nat) {
    k <= |text| && FindOpen(text, 0) == FindOpen(text, k)
  }

  lemma SameOpen(text: string, i: nat, j: nat)
    requires i <= |text| && j <= |text| && Find(text, i, '{') == Find(text, j, '{')
    ensures FindOpen(text, i) == FindOpen(text, j)
  {
    hide Find;
  }

  // The search for an open brace passes what holds none of its own.
  lemma AsideOf(text: string, k: nat, w: string)
    requires Aside(text, k) && Past(text, k, w, '{', 0, 1, 1)
    ensures Aside(text, k + |w|)
  {
    hide FindOpen, Gobble;
    SameOpen(text, k, k + |w|);
  }

  lemma AsideInert(text: string, k: nat, w: string)
    requires Aside(text, k) && Here(text, k, w) && Inert(w)
    ensures Aside(text, k + |w|)
  {
    hide FindOpen, Gobble, Inert, Aside;
    var c := GobbleInert(text, k, w, '{', 0, 1);
    AsideOf(text, k, w);
  }

  lemma AsideEnd(x: string)
    requires Aside(x, |x|)
    ensures FindOpen(x, 0) == |x|
  {
    assert Gobble(x, |x|, '{', 0, 1, '\0') == |x|;
  }

  // The first group opens right behind what stands aside.
  lemma FindOpenGroup(text: string, front: string, alts: seq<Tree>, post: string)
    requires ProperAlts(alts) && |alts| >= 2
    requires text == front + ("{" + (PrintAlts(alts) + "}") + post) && Aside(text, |front|)
    ensures FindOpen(text, 0) == |front|
    ensures Find(text, |front| + 1, '}') == |front| + 1 + |PrintAlts(alts)|
  {
    var w := PrintAlts(alts) + "}";
    AltsStart(alts);
    hide PrintAlts, Gobble, Find, FindOpen;
    GroupHere(text, front, w, post);
    FindClose(text, |front| + 1, alts);
    OpensBehind(text, |front|);
  }

  lemma OpensBehind(text: string, k: nat)
    requires Aside(text, k) && Here(text, k, "{") && Find(text, k + 1, '}') < |text|
    requires !BraceWhite(At(text, k + 1)) && At(text, k + 1) != '}'
    ensures FindOpen(text, 0) == k
  {
    CharAt(text, k, '{');
    OpensHere(text, k, 1);
    hide Gobble;
    FoundOpen(text, k);
  }

  lemma FoundOpen(text: string, o: nat)
    requires o < |text| && Find(text, o, '{') == o && Find(text, o + 1, '}') < |text|
    ensures FindOpen(text, o) == o
  {
    hide Find;
  }

  lemma GroupHere(text: string, front: string, w: string, post: string)
    requires text == front + ("{" + w + post) && w != ""
    ensures Here(text, |front|, "{") && Here(text, |front| + 1, w)
    ensures At(text, |front| + 1) == w[0]
  {
    var tail := "{" + w + post;
    assert Here(text, |front|, tail);
    assert tail == ("{" + w) + post;
    HereSplit(text, |front|, "{" + w, post);
    HereSplit(text, |front|, "{", w);
    assert text[|front| + 1..|front| + 1 + |w|][0] == w[0];
  }

  lemma OpensHere(text: string, i: nat, commas: nat)
    requires i < |text| && text[i] == '{' && !PlainOpen(text, i) && commas > 0
    ensures Gobble(text, i, '{', 0, commas, '\0') == i
  {
  }

  // Alternatives do not begin with a blank or a closing brace, so their group is no plain {}.
  lemma AltsStart(alts: seq<Tree>)
    requires ProperAlts(alts) && |alts| >= 2
    ensures PrintAlts(alts) != "" && !BraceWhite(PrintAlts(alts)[0]) && PrintAlts(alts)[0] != '}'
  {
    TreeStart(alts[0]);
  }

  lemma {:induction false} TreeStart(t: Tree)
    requires Proper(t)
    ensures Print(t) != "" ==> !BraceWhite(Print(t)[0]) && Print(t)[0] != '}'
    decreases t
  {
    if t.Cons? {
      TreeStart(t.rest);
    }
  }

  lemma {:induction false} HasCommaTree(text: string, i: nat, t: Tree)
    requires Proper(t) && Here(text, i, Print(t)) && HasComma(text, i + |Print(t)|)
    ensures HasComma(text, i)
    decreases t, 1
  {
    hide HasComma, PrintItem, ProperItem;
    if t.Cons? {
      HereSplit(text, i, PrintItem(t.first), Print(t.rest));
      HasCommaTree(text, i + |PrintItem(t.first)|, t.rest);
      HasCommaItem(text, i, t.first);
    }
  }

  lemma {:induction false} HasCommaItem(text: string, i: nat, item: Item)
    requires ProperItem(item) && Here(text, i, PrintItem(item)) && HasComma(text, i + |PrintItem(item)|)
    ensures HasComma(text, i)
    decreases item, 0
  {
    hide HasComma, InertIn, PrintAlts, ProperAlts;
    match item
    case Lit(s) =>
      InertPaired(s, '\0');
      HasCommaPast(text, i, s);
    case Group(alts) =>
      var w := PrintAlts(alts);
      HereSplit(text, i, "{" + w, "}");
      HereSplit(text, i, "{", w);
      CharAt(text, i, '{');
      HasCommaAlts(text, i + 1, alts);
      HasCommaNext(text, i);
    case Term(s) =>
      HasCommaWithin(text, i, "{", s);
    case Param(s) =>
      HasCommaWithin(text, i, "${", s);
  }

  lemma HasCommaNext(text: string, i: nat)
    requires i < |text| && text[i] != '\\' && HasComma(text, i + 1)
    ensures HasComma(text, i)
  {
  }

  lemma HasCommaWithin(text: string, i: nat, open: string, s: string)
    requires (open == "{" || open == "${") && Inert(s) && Here(text, i, open + s + "}")
    requires HasComma(text, i + |open| + |s| + 1)
    ensures HasComma(text, i)
  {
    hide HasComma, InertIn;
    InertPaired(s, '\0');
    HereSplit(text, i, open + s, "}");
    HereSplit(text, i, open, s);
    CharAt(text, i + |open| + |s|, '}');
    HasCommaNext(text, i + |open| + |s|);
    HasCommaPast(text, i + |open|, s);
    assert text[i] == text[i..i + |open|][0] && text[i + |open| - 1] == text[i..i + |open|][|open| - 1];
    HasCommaNext(text, i + |open| - 1);
    if |open| == 2 {
      HasCommaNext(text, i);
    }
  }

  lemma {:induction false} HasCommaPast(text: string, i: nat, w: string)
    requires Paired(w) && Here(text, i, w) && HasComma(text, i + |w|)
    ensures HasComma(text, i)
    decreases |w|
  {
    if w != "" {
      assert text[i] == w[0];
      if w[0] == '\\' {
        HereSuffix(text, i, w, 2);
        HasCommaPast(text, i + 2, w[2..]);
      } else {
        HereSuffix(text, i, w, 1);
        HasCommaPast(text, i + 1, w[1..]);
      }
    }
  }

  lemma {:induction false} HasCommaAlts(text: string, i: nat, alts: seq<Tree>)
    requires ProperAlts(alts) && |alts| >= 2 && Here(text, i, PrintAlts(alts))
    ensures HasComma(text, i)
    decreases alts, 1
  {
    var w := Print(alts[0]);
    HereSplit(text, i, w + ",", PrintAlts(alts[1..]));
    HereSplit(text, i, w, ",");
    assert text[i + |w|..i + |w| + 1][0] == ',';
    HasCommaTree(text, i, alts[0]);
  }

  // For every proper tree, brace_expand of its print is its meaning.
  lemma {:induction false} ExpandsPrintedTree(t: Tree, st: SeqTerm)
    requires Proper(t)
    ensures BraceExpand(Print(t), st) == Expand(t, st)
    decreases t, 2
  {
    hide BraceExpand, Print, Expand, Prefixed, Proper, FindOpen;
    assert "" + Print(t) == Print(t);
    ExpandsBehind("", t, st);
    PrefixedNothing(Expand(t, st));
  }

  // It is expanded behind any text that stands aside.
  lemma {:induction false} ExpandsBehind(x: string, t: Tree, st: SeqTerm)
    requires Proper(t) && Aside(x + Print(t), |x|)
    ensures BraceExpand(x + Print(t), st) == Prefixed(x, Expand(t, st))
    decreases t, 1
  {
    hide FindOpen, Product, Aside;
    var text := x + Print(t);
    if t.Nil? {
      assert text == x;
      AsideEnd(x);
      assert Prefixed(x, [""]) == [x] by { assert x + "" == x; }
    } else if t.first.Group? {
      ExpandsGroup(x, t, st);
    } else if t.first.Term? {
      ExpandsTerm(x, t, st);
    } else {
      var w := PrintItem(t.first);
      assert text == (x + w) + Print(t.rest);
      ItemAside(x, t, text);
      ExpandsBehind(x + w, t.rest, st);
      ProductOne(w, Expand(t.rest, st));
      PrefixedTwice(x, w, Expand(t.rest, st));
    }
  }

  lemma ItemAside(x: string, t: Tree, text: string)
    requires t.Cons? && ProperItem(t.first) && (t.first.Lit? || t.first.Param?)
    requires text == x + Print(t) && Aside(text, |x|)
    ensures Aside(text, |x| + |PrintItem(t.first)|)
  {
    hide FindOpen, Aside, Gobble, Inert;
    var w := PrintItem(t.first);
    assert text[|x|..|x| + |w|] == w;
    if t.first.Lit? {
      AsideInert(text, |x|, w);
    } else {
      GobbleParam(text, |x|, t.first.s, '{', 0, 1);
      AsideOf(text, |x|, w);
    }
  }

  lemma {:induction false} ExpandsGroup(front: string, rest: Tree, st: SeqTerm)
    requires rest.Cons? && rest.first.Group? && Proper(rest) && Aside(front + Print(rest), |front|)
    ensures BraceExpand(front + Print(rest), st) == Prefixed(front, Expand(rest, st))
    decreases rest, 0
  {
    var alts, post := rest.first.alts, Print(rest.rest);
    var w := PrintAlts(alts);
    var text := front + Print(rest);
    PrintGroup(rest);
    ExpandsPrintedTree(rest.rest, st);
    assert Here(w, 0, w) && w[0..] == w;
    HasCommaAlts(w, 0, alts);
    ExpandsAlts(w, 0, alts, st);
    FindOpenGroup(text, front, alts, post);
    hide BraceExpand, Print, PrintAlts, Product, HasComma, FindOpen, Find, Expand, ExpandAlts;
    GroupCase(text, front, w, post, st);
    var head := Product([front], ExpandAlts(alts, st));
    if post == "" {
      PrintsNothing(rest.rest, st);
      ProductNeutral(head);
    }
    assert BraceExpand(text, st) == Product(head, Expand(rest.rest, st));
    ProductOne(front, ExpandAlts(alts, st));
    ProductPrefixed(front, ExpandAlts(alts, st), Expand(rest.rest, st));
    ExpandCons(rest, st);
  }

  // A sequence term in braces: its terms, or itself if it has none, and the rest behind it.
  lemma {:induction false} ExpandsTerm(front: string, rest: Tree, st: SeqTerm)
    requires rest.Cons? && rest.first.Term? && Proper(rest) && Aside(front + Print(rest), |front|)
    ensures BraceExpand(front + Print(rest), st) == Prefixed(front, Expand(rest, st))
    decreases rest, 0
  {
    var s, post := rest.first.s, Print(rest.rest);
    var text := front + Print(rest);
    ExpandsPrintedTree(rest.rest, st);
    assert Print(rest) == "{" + (s + "}") + post by { assert "{" + s + "}" == "{" + (s + "}"); }
    TermStart(s);
    FindOpenTerm(text, front, s, post);
    var terms := ExpandItem(rest.first, st);
    hide BraceExpand, Print, Product, HasComma, FindOpen, Find, Expand, Inert, Dotted;
    TermCase(text, front, s, post, st);
    var head := Product([front], terms);
    assert BraceExpand(text, st) == if post == "" then head else Product(head, BraceExpand(post, st));
    if post == "" {
      PrintsNothing(rest.rest, st);
      ProductNeutral(head);
    }
    assert BraceExpand(text, st) == Product(head, Expand(rest.rest, st));
    ProductOne(front, terms);
    ProductPrefixed(front, terms, Expand(rest.rest, st));
    ExpandTermCons(rest, st);
  }

  lemma ExpandTermCons(t: Tree, st: SeqTerm)
    requires t.Cons? && t.first.Term?
    ensures Expand(t, st) == Product(ExpandItem(t.first, st), Expand(t.rest, st))
  {
  }

  lemma TermStart(s: string)
    requires Inert(s) && Dotted(s, '\0')
    ensures s != "" && !BraceWhite(s[0]) && s[0] != '}'
  {
  }

  lemma FindOpenTerm(text: string, front: string, s: string, post: string)
    requires Inert(s) && Dotted(s, '\0') && s != "" && !BraceWhite(s[0]) && s[0] != '}'
    requires text == front + ("{" + (s + "}") + post) && Aside(text, |front|)
    ensures FindOpen(text, 0) == |front| && Find(text, |front| + 1, '}') == |front| + 1 + |s|
  {
    hide Gobble, Find, FindOpen, Inert, Dotted;
    GroupHere(text, front, s + "}", post);
    assert (s + "}")[0] == s[0];
    FindCloseTerm(text, |front| + 1, s);
    OpensBehind(text, |front|);
  }

  // brace_expand on a text whose first brace expression encloses s, without a separator.
  lemma TermCase(text: string, front: string, s: string, post: string, st: SeqTerm)
    requires text == front + ("{" + (s + "}") + post)
    requires FindOpen(text, 0) == |front| && Find(text, |front| + 1, '}') == |front| + 1 + |s|
    requires !HasComma(s, 0)
    ensures BraceExpand(text, st) == TermThen(front, s, post, st)
  {
    hide *;
    Slices(text, front, s, post);
    Braced(text, front, s, post);
    TermUnfold(text, |front|, |front| + 1 + |s|, s, post, st);
    TermAlone(front, s, st);
  }

  // What becomes of front{s}post.
  function TermThen(front: string, s: string, post: string, st: SeqTerm): seq<string> {
    var head := Product([front], if st(s).Some? then st(s).value else ["{" + s + "}"]);
    if post == "" then head else Product(head, BraceExpand(post, st))
  }

  lemma TermAlone(front: string, s: string, st: SeqTerm)
    ensures st(s).None? ==> TermThen(front, s, "", st) == [front + ("{" + s + "}")]
  {
    ProductOne(front, ["{" + s + "}"]);
  }

  lemma Braced(text: string, front: string, s: string, post: string)
    requires text == front + ("{" + (s + "}") + post)
    ensures |text| >= |front| + |s| + 2 && text[|front|..|front| + 1 + |s| + 1] == "{" + s + "}"
    ensures post == "" ==> text == front + ("{" + s + "}")
  {
    assert "{" + (s + "}") == "{" + s + "}";
    var tail := "{" + s + "}";
    assert text[|front|..|front| + |tail|] == tail;
  }

  lemma TermUnfold(text: string, open: nat, close: nat, s: string, post: string, st: SeqTerm)
    requires FindOpen(text, 0) == open < |text| && Find(text, open + 1, '}') == close < |text|
    requires s == text[open + 1..close] && post == text[close + 1..] && !HasComma(s, 0)
    requires text[open..close + 1] == "{" + s + "}"
    ensures BraceExpand(text, st) ==
            if st(s).None? && post == "" then [text] else TermThen(text[..open], s, post, st)
  {
    hide HasComma, FindOpen, Find, Product, ExpandAmble;
  }

  lemma PrintGroup(t: Tree)
    requires t.Cons? && t.first.Group?
    ensures Print(t) == "{" + (PrintAlts(t.first.alts) + "}") + Print(t.rest)
  {
    var w := PrintAlts(t.first.alts);
    assert "{" + w + "}" == "{" + (w + "}");
  }

  lemma ExpandCons(t: Tree, st: SeqTerm)
    requires t.Cons? && t.first.Group?
    ensures Expand(t, st) == Product(ExpandAlts(t.first.alts, st), Expand(t.rest, st))
  {
  }

  // brace_expand on a text whose first brace expression encloses w and has a separator.
  lemma GroupCase(text: string, front: string, w: string, post: string, st: SeqTerm)
    requires text == front + ("{" + (w + "}") + post)
    requires FindOpen(text, 0) == |front| && Find(text, |front| + 1, '}') == |front| + 1 + |w|
    requires HasComma(w, 0)
    ensures BraceExpand(text, st) ==
            var head := Product([front], ExpandAmble(w, 0, st));
            if post == "" then head else Product(head, BraceExpand(post, st))
  {
    hide HasComma, FindOpen, Find, Product, ExpandAmble, BraceExpand;
    Slices(text, front, w, post);
    GroupUnfold(text, |front|, |front| + 1 + |w|, w, post, st);
  }

  lemma GroupUnfold(text: string, open: nat, close: nat, amble: string, post: string, st: SeqTerm)
    requires FindOpen(text, 0) == open < |text| && Find(text, open + 1, '}') == close < |text|
    requires amble == text[open + 1..close] && post == text[close + 1..] && HasComma(amble, 0)
    ensures BraceExpand(text, st) ==
            var head := Product([text[..open]], ExpandAmble(amble, 0, st));
            if post == "" then head else Product(head, BraceExpand(post, st))
  {
    hide HasComma, FindOpen, Find, Product, ExpandAmble;
  }

  lemma Slices(text: string, front: string, w: string, post: string)
    requires text == front + ("{" + (w + "}") + post)
    ensures |text| == |front| + |w| + |post| + 2
    ensures text[..|front|] == front
    ensures text[|front| + 1..|front| + 1 + |w|] == w
    ensures text[|front| + 1 + |w| + 1..] == post
  {
  }

  // A tree that prints as nothing expands to one empty word.
  lemma PrintsNothing(t: Tree, st: SeqTerm)
    requires Print(t) == "" && BraceExpand(Print(t), st) == Expand(t, st)
    ensures Expand(t, st) == [""]
  {
    assert FindOpen("", 0) == 0;
  }

  lemma AmbleStep(text: string, i: nat, k: nat, st: SeqTerm)
    requires i <= |text| && Find(text, i, ',') == k
    ensures ExpandAmble(text, i, st) ==
            BraceExpand(text[i..k], st) + (if k < |text| then ExpandAmble(text, k + 1, st) else [])
  {
    hide Find, BraceExpand;
  }

  lemma {:induction false} ExpandsAlts(text: string, i: nat, alts: seq<Tree>, st: SeqTerm)
    requires ProperAlts(alts) && |alts| >= 1 && i <= |text| && text[i..] == PrintAlts(alts)
    ensures ExpandAmble(text, i, st) == ExpandAlts(alts, st)
    decreases alts, 1
  {
    hide Print, PrintAlts, BraceExpand, Find, Expand, ExpandAmble, ExpandAlts;
    var w := Print(alts[0]);
    ExpandsPrintedTree(alts[0], st);
    if |alts| == 1 {
      AltsOne(alts);
      assert text[i..i + |w|] == text[i..];
      FindComma(text, i, alts[0]);
      AmbleStep(text, i, |text|, st);
    } else {
      AltsMore(alts);
      PieceHere(text, i, w, PrintAlts(alts[1..]));
      FindComma(text, i, alts[0]);
      AmbleStep(text, i, i + |w|, st);
      ExpandsAlts(text, i + |w| + 1, alts[1..], st);
    }
  }

  lemma PieceHere(text: string, i: nat, w: string, more: string)
    requires i <= |text| && text[i..] == (w + ",") + more
    ensures Here(text, i, w) && i + |w| < |text| && text[i + |w|] == ','
    ensures text[i + |w| + 1..] == more
  {
    var u := text[i..];
    assert text[i..i + |w|] == u[..|w|];
    assert text[i + |w|] == u[|w|];
    assert text[i + |w| + 1..] == u[|w| + 1..];
  }
}
