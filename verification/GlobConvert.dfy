/** The conversion of shell patterns to Python regular expressions in substitute() of
    fix_string.c, and what the converted text is. */
module GlobConvert {
  import opened Options
  import opened GlobText
  import opened RegexText
  import N = Numerals

  // What is put out behind a character that closes a glob of type g.
  function Extra(g: char, ungreedy: bool): string {
    (if g == '!' then "?" else "") + [g] + (if (g == '+' || g == '*') && ungreedy then "?" else "")
  }

  // What is put out for the first characters of a text, how many they are, and the glob type
  // afterwards.
  datatype Out = Out(text: string, used: nat, g: char)

  function Emit(t: string, g: char, ungreedy: bool): (o: Out)
    requires t != []
    ensures 0 < o.used <= |t|
  {
    var c, group := t[0], |t| > 1 && t[1] == '(';
    match c
    case '+' => if group then Out("(", 2, c) else Out([c], 1, g)
    case '!' => if group then Out("(" + Extra(c, ungreedy), 2, '\0') else Out([c], 1, g)
    case '@' => if group then Out("(", 2, g) else Out([c], 1, g)
    case ')' => if g != '\0' then Out(")" + Extra(g, ungreedy), 1, '\0') else Out([c], 1, g)
    case '*' => if group then Out("(", 2, c) else Out("." + Extra(c, ungreedy), 1, '\0')
    case '?' => if group then Out("(", 2, c) else Out(".", 1, '\0')
    case '\\' => if |t| > 1 then Out(['\\', t[1]], 2, g) else Out([c], 1, g)
    case _ => Out([c], 1, g)
  }

  // The text put out for pattern text t, where g is the glob type in force, or 0.
  function Convert(t: string, g: char, ungreedy: bool): string
    decreases |t|
  {
    if t == [] then ""
    else
      var o := Emit(t, g, ungreedy);
      o.text + Convert(t[o.used..], o.g, ungreedy)
  }

  lemma ConvertStep(t: string, g: char, u: bool)
    requires t != []
    ensures var o := Emit(t, g, u); Convert(t, g, u) == o.text + Convert(t[o.used..], o.g, u)
  {
    hide Emit;
  }

  // ---- what a converted pattern looks like ----

  // Wildcards, outside groups.
  predicate Wild(l: List<Glob>) {
    l.Cons? && (l.head.AnyChar? || l.head.AnyText? || Wild(l.tail))
  }

  predicate SomeWild(alts: seq<List<Glob>>) {
    exists i :: 0 <= i < |alts| && Wild(alts[i])
  }

  // A wildcard in a group sets the glob type back, and the group loses its kind.
  function DemoteOne(g: Glob): Glob {
    if g.Group? && SomeWild(g.alts) then Group(ExactlyOne, g.alts) else g
  }

  function Demote(l: List<Glob>): List<Glob> {
    if l.Nil? then Nil else Cons(DemoteOne(l.head), Demote(l.tail))
  }

  function Suffix(kind: Kind, u: bool): string {
    match kind
    case ExactlyOne => ""
    case AnyNumber => Extra('*', u)
    case AtLeastOne => Extra('+', u)
    case AtMostOne => Extra('?', u)
  }

  function PrintOne(g: Glob, u: bool): string
    decreases g, 1
  {
    match g
    case Lit(c, escaped) => if escaped then ['\\', c] else [c]
    case AnyChar => "."
    case AnyText => "." + Extra('*', u)
    case Group(kind, alts) => "(" + PrintAlts(alts, u) + ")" + Suffix(kind, u)
  }

  function Print(l: List<Glob>, u: bool): string
    decreases l, 0
  {
    if l.Nil? then "" else PrintOne(l.head, u) + Print(l.tail, u)
  }

  function PrintAlts(alts: seq<List<Glob>>, u: bool): string
    decreases alts, 0
  {
    if alts == [] then ""
    else if |alts| == 1 then Print(alts[0], u)
    else Print(alts[0], u) + "|" + PrintAlts(alts[1..], u)
  }

  // ---- the code puts that out ----

  // What is put out behind the alternatives of a group of type g, or 0.
  function Closing(g: char, u: bool): string {
    if g == '\0' then "" else Extra(g, u)
  }

  lemma EmitsPlain(t: string, g: char, u: bool)
    requires t != [] && (Literal(t[0]) || t[0] == '|') && !Opens(t)
    ensures Emit(t, g, u) == Out([t[0]], 1, g)
  {
  }

  lemma EmitsClosing(t: string, g: char, u: bool)
    requires t != [] && t[0] == ')'
    ensures Emit(t, g, u) == Out(")" + Closing(g, u), 1, '\0')
  {
    assert ")" + "" == ")";
  }

  lemma PrintMore(g: Glob, l: List<Glob>, u: bool, z: string)
    ensures Print(Cons(g, l), u) + z == PrintOne(g, u) + (Print(l, u) + z)
  {
    assert PrintOne(g, u) + Print(l, u) + z == PrintOne(g, u) + (Print(l, u) + z);
  }

  // Elements that are no groups, one after the other: a wildcard resets the glob type.
  lemma {:induction false} ConvertsFlat(t: string, g: char, u: bool)
    requires Elements(t, true).Some?
    ensures var r := Elements(t, true).value;
            Convert(t, g, u) == Print(r.value, u) + Convert(r.rest, if Wild(r.value) then '\0' else g, u)
    decreases |t|
  {
    hide Convert, Extra, Literal, Punctuation, PrintOne, Emit;
    var r := Elements(t, true).value;
    if t == [] || t[0] == '|' || t[0] == ')' {
      assert "" + Convert(t, g, u) == Convert(t, g, u);
    } else {
      ConvertStep(t, g, u);
      FlatStep(t, g, u);
      var o := Emit(t, g, u);
      ConvertsFlat(t[o.used..], o.g, u);
      var rest := Elements(t[o.used..], true).value;
      PrintMore(r.value.head, rest.value, u, Convert(rest.rest, if Wild(rest.value) then '\0' else o.g, u));
    }
  }

  lemma FlatStep(t: string, g: char, u: bool)
    requires Elements(t, true).Some? && t != [] && t[0] != '|' && t[0] != ')'
    ensures var (r, o) := (Elements(t, true).value, Emit(t, g, u));
            && r.value.Cons? && o.text == PrintOne(r.value.head, u)
            && Elements(t[o.used..], true) == Some(Read(r.value.tail, r.rest))
            && !r.value.head.Group? && o.g == if r.value.head.Lit? then g else '\0'
  {
    hide Extra;
    if Literal(t[0]) {
      EmitsPlain(t, g, u);
    }
  }

  lemma {:induction false} ConvertsAlternatives(t: string, g: char, u: bool)
    requires Alternatives(t).Some?
    ensures var r := Alternatives(t).value;
            var g' := if SomeWild(r.value) then '\0' else g;
            Convert(t, g, u) == PrintAlts(r.value, u) + ")" + Closing(g', u) + Convert(r.rest, '\0', u)
    decreases |t|
  {
    hide Convert, Emit, Print, Wild, SomeWild, Extra, Closing, Elements;
    ConvertsFlat(t, g, u);
    ElementsFormed(t, true);
    var first := Elements(t, true).value;
    var g' := if Wild(first.value) then '\0' else g;
    var r := Alternatives(t).value;
    ConvertStep(first.rest, g', u);
    if first.rest[0] == ')' {
      EmitsClosing(first.rest, g', u);
      WildOne(first.value);
      LastAlternative(Print(first.value, u), Closing(g', u), Convert(first.rest[1..], '\0', u));
    } else {
      EmitsPlain(first.rest, g', u);
      ConvertsAlternatives(first.rest[1..], g', u);
      var more := Alternatives(first.rest[1..]).value;
      WildMore(first.value, more.value);
      MoreAlternatives(first.value, more.value, u);
      Bar(Print(first.value, u), PrintAlts(more.value, u),
          Closing(if SomeWild(more.value) then '\0' else g', u), Convert(more.rest, '\0', u));
    }
  }

  lemma WildOne(l: List<Glob>)
    ensures SomeWild([l]) <==> Wild(l)
  {
    assert [l][0] == l;
  }

  lemma WildMore(l: List<Glob>, alts: seq<List<Glob>>)
    ensures SomeWild([l] + alts) <==> Wild(l) || SomeWild(alts)
  {
    var all := [l] + alts;
    assert all[0] == l;
    if SomeWild(alts) {
      var i :| 0 <= i < |alts| && Wild(alts[i]);
      assert all[i + 1] == alts[i];
    }
    if SomeWild(all) {
      var i :| 0 <= i < |all| && Wild(all[i]);
      assert i > 0 ==> Wild(alts[i - 1]);
    }
  }

  lemma MoreAlternatives(l: List<Glob>, alts: seq<List<Glob>>, u: bool)
    requires alts != []
    ensures PrintAlts([l] + alts, u) == Print(l, u) + "|" + PrintAlts(alts, u)
  {
    assert ([l] + alts)[1..] == alts;
  }

  lemma LastAlternative(a: string, c: string, z: string)
    ensures a + (")" + c + z) == a + ")" + c + z
  {
  }

  lemma Bar(a: string, b: string, c: string, z: string)
    ensures a + ("|" + (b + ")" + c + z)) == a + "|" + b + ")" + c + z
  {
  }

  // The whole pattern.
  lemma {:induction false} ConvertsTo(t: string, u: bool)
    requires ParseGlob(t).Some?
    ensures Convert(t, '\0', u) == Print(Demote(ParseGlob(t).value), u)
    decreases |t|
  {
    hide Convert, Emit, Extra, Literal, Punctuation, PrintOne, DemoteOne;
    if t == [] {
      EndOf(t, '\0', u);
    } else {
      ConvertStep(t, '\0', u);
      TopStep(t, u);
      var l := ParseGlob(t).value;
      if Opens(t) {
        var r := Alternatives(t[2..]).value;
        ConvertsTo(r.rest, u);
        ConvertsGroup(t, u);
      } else {
        var o := Emit(t, '\0', u);
        ConvertsTo(t[o.used..], u);
      }
    }
  }

  lemma TopStep(t: string, u: bool)
    requires ParseGlob(t).Some? && t != []
    ensures ParseGlob(t).value.Cons?
    ensures var (l, o) := (ParseGlob(t).value, Emit(t, '\0', u));
            if Opens(t) then
              && KindOf(t[0]).Some? && Alternatives(t[2..]).Some?
              && var r := Alternatives(t[2..]).value;
                 l.head == Group(KindOf(t[0]).value, r.value) && ParseGlob(r.rest) == Some(l.tail)
            else
              && o.text == PrintOne(DemoteOne(l.head), u) && ParseGlob(t[o.used..]) == Some(l.tail) && o.g == '\0'
  {
    hide Extra, Alternatives;
    if Literal(t[0]) && !Opens(t) {
      EmitsPlain(t, '\0', u);
    }
  }

  lemma ConvertsGroup(t: string, u: bool)
    requires Opens(t) && KindOf(t[0]).Some? && Alternatives(t[2..]).Some?
    ensures var r := Alternatives(t[2..]).value;
            Convert(t, '\0', u) == PrintOne(DemoteOne(Group(KindOf(t[0]).value, r.value)), u) + Convert(r.rest, '\0', u)
  {
    hide Convert, Extra, PrintAlts, SomeWild, Alternatives, Literal;
    var r := Alternatives(t[2..]).value;
    var g := if t[0] == '@' then '\0' else t[0];
    var z := Convert(r.rest, '\0', u);
    ConvertStep(t, '\0', u);
    assert Emit(t, '\0', u) == Out("(", 2, g);
    hide Emit;
    ConvertsAlternatives(t[2..], g, u);
    var g' := if SomeWild(r.value) then '\0' else g;
    var kind := DemoteOne(Group(KindOf(t[0]).value, r.value)).kind;
    assert Closing(g', u) == Suffix(kind, u);
    Bracketed(PrintAlts(r.value, u), Closing(g', u), z);
  }

  lemma Bracketed(a: string, c: string, z: string)
    ensures "(" + (a + ")" + c + z) == "(" + a + ")" + c + z
  {
  }

  // An open parenthesis behind @ leaves the type in force, one behind *, + or ? sets it, and one
  // behind ! begins a negative look-ahead, whatever is in the group.
  lemma GroupOpens(c: char, t: string, g: char, u: bool)
    requires c in "@*+?!"
    ensures Convert([c] + ("(" + t), g, u) ==
            if c == '@' then "(" + Convert(t, g, u) else if c == '!' then "(?!" + Convert(t, '\0', u)
            else "(" + Convert(t, c, u)
  {
    hide Convert;
    var text := [c] + ("(" + t);
    assert text[0] == c && text[1] == '(' && text[2..] == t;
    ConvertStep(text, g, u);
    assert "(" + Extra('!', u) == "(?!";
  }

  // ---- the code ----

  // The loop over the characters of a pattern, glob_type being 0 at first.
  method ConvertPattern(pattern: string, ungreedy: bool) returns (out: string)
    ensures out == Convert(pattern, '\0', ungreedy)
  {
    hide Convert, Extra;
    out := "";
    var p: nat := 0;
    var globType := '\0';
    assert pattern[0..] == pattern;
    while p < |pattern|
      invariant p <= |pattern|
      invariant Convert(pattern, '\0', ungreedy) == out + Convert(pattern[p..], globType, ungreedy)
      decreases |pattern| - p
    {
      ConvertStep(pattern[p..], globType, ungreedy);
      ghost var o := Emit(pattern[p..], globType, ungreedy);
      var before, n, g := ConvertChar(pattern, p, globType, ungreedy);
      assert pattern[p..][n..] == pattern[p + n..];
      out := out + before;
      p, globType := p + n, g;
    }
    EndOf(pattern[p..], globType, ungreedy);
  }

  lemma EndOf(t: string, g: char, u: bool)
    requires t == ""
    ensures Convert(t, g, u) == ""
  {
  }

  // One round of it.
  method ConvertChar(pattern: string, p: nat, globType: char, ungreedy: bool) returns (text: string, used: nat, g: char)
    requires p < |pattern|
    ensures Emit(pattern[p..], globType, ungreedy) == Out(text, used, g)
  {
    var c, outputC, extra := pattern[p], pattern[p], false;
    g, used, text := globType, 1, "";
    var group := p + 1 < |pattern| && pattern[p + 1] == '(';
    match c {
      case '+' =>
        if group {
          g, outputC, used := c, '(', 2;
        }
      case '!' =>
        if group {
          extra, g, outputC, used := true, c, '(', 2;
        }
      case '@' =>
        if group {
          outputC, used := '(', 2;
        }
      case ')' =>
        if g != '\0' {
          extra := true;
        }
      case '*' =>
        if group {
          g, outputC, used := c, '(', 2;
        } else {
          g, outputC, extra := c, '.', true;
        }
      case '?' =>
        if group {
          g, outputC, used := c, '(', 2;
        } else {
          g, outputC := '\0', '.';
        }
      case _ =>
    }
    if c == '\\' && p + 1 < |pattern| {
      text := "\\";
      outputC, used := pattern[p + 1], 2;
    }
    text := text + [outputC];
    if extra {
      if g == '!' {
        text := text + "?";
      }
      text := text + [g];
      if (g == '+' || g == '*') && ungreedy {
        text := text + "?";
      }
      g := '\0';
    }
  }
}
