/** Shell patterns: how they are written and what they match. */
module GlobText {
  import opened Options
  import N = Numerals

  datatype List<T> = Nil | Cons(head: T, tail: List<T>)

  datatype Kind = ExactlyOne | AnyNumber | AtLeastOne | AtMostOne      // @( *( +( ?(

  // escaped says that a backslash stood before the character, which means nothing to the shell.
  datatype Glob =
    | Lit(c: char, escaped: bool)
    | AnyChar
    | AnyText
    | Group(kind: Kind, alts: seq<List<Glob>>)

  // What was read, and the text behind it.
  datatype Read<T> = Read(value: T, rest: string)

  // Characters that stand for themselves in a shell pattern, and that the translator takes for
  // nothing else; before an open parenthesis some of them begin a group.
  predicate Literal(c: char) {
    && c > 31 as char
    && c != '*' && c != '?' && c != '[' && c != ']' && c != '(' && c != ')' && c != '|' && c != '\\'
    && c != '"' && c != '~' && c != '$' && c != '`'
  }

  // Characters that a backslash makes literal in a regular expression too.
  predicate Punctuation(c: char) { c > 31 as char && !N.IsAlnum(c) }

  function KindOf(c: char): Option<Kind> {
    match c
    case '@' => Some(ExactlyOne)
    case '*' => Some(AnyNumber)
    case '+' => Some(AtLeastOne)
    case '?' => Some(AtMostOne)
    case _ => None
  }

  // Does a group begin?
  predicate Opens(t: string) {
    |t| > 1 && t[1] == '(' && (KindOf(t[0]).Some? || t[0] == '!')
  }

  // A pattern up to the end, or within a group up to what ends the alternative.
  function Elements(t: string, inGroup: bool): (r: Option<Read<List<Glob>>>)
    ensures r.Some? ==> |r.value.rest| <= |t|
    decreases |t|, 0
  {
    if t == [] || (inGroup && (t[0] == '|' || t[0] == ')')) then Some(Read(Nil, t))
    else if Opens(t) then
      if inGroup || t[0] == '!' then None
      else
        match Alternatives(t[2..])
        case None => None
        case Some(r) => Behind(Group(KindOf(t[0]).value, r.value), Elements(r.rest, inGroup))
    else if t[0] == '*' then Behind(AnyText, Elements(t[1..], inGroup))
    else if t[0] == '?' then Behind(AnyChar, Elements(t[1..], inGroup))
    else if t[0] == '\\' then
      if |t| > 1 && Punctuation(t[1]) then Behind(Lit(t[1], true), Elements(t[2..], inGroup)) else None
    else if Literal(t[0]) then Behind(Lit(t[0], false), Elements(t[1..], inGroup))
    else None
  }

  // The alternatives of a group up to its closing parenthesis.
  function Alternatives(t: string): (r: Option<Read<seq<List<Glob>>>>)
    ensures r.Some? ==> |r.value.rest| < |t| && r.value.value != []
    decreases |t|, 1
  {
    match Elements(t, true)
    case None => None
    case Some(first) =>
      if first.rest == [] then None
      else if first.rest[0] == ')' then Some(Read([first.value], first.rest[1..]))
      else
        match Alternatives(first.rest[1..])
        case None => None
        case Some(more) => Some(Read([first.value] + more.value, more.rest))
  }

  function Behind<T>(x: T, r: Option<Read<List<T>>>): (r': Option<Read<List<T>>>)
    ensures r'.Some? <==> r.Some?
    ensures r.Some? ==> r'.value == Read(Cons(x, r.value.value), r.value.rest)
  {
    match r
    case None => None
    case Some(l) => Some(Read(Cons(x, l.value), l.rest))
  }

  // The pattern that a text is, if it has no nested groups, brackets and !( ).
  function ParseGlob(t: string): Option<List<Glob>> {
    match Elements(t, false)
    case None => None
    case Some(r) => Some(r.value)
  }

  // ---- what a pattern matches ----

  function Joined(words: seq<string>): string {
    if words == [] then "" else words[0] + Joined(words[1..])
  }

  predicate Counts(kind: Kind, n: nat) {
    match kind
    case ExactlyOne => n == 1
    case AnyNumber => true
    case AtLeastOne => n >= 1
    case AtMostOne => n <= 1
  }

  ghost predicate GlobMatches(l: List<Glob>, s: string)
    decreases l, 0
  {
    match l
    case Nil => s == []
    case Cons(Lit(c, _), rest) => s != [] && s[0] == c && GlobMatches(rest, s[1..])
    case Cons(AnyChar, rest) => s != [] && GlobMatches(rest, s[1..])
    case Cons(AnyText, rest) => exists k :: 0 <= k <= |s| && GlobMatches(rest, s[k..])
    case Cons(Group(kind, alts), rest) =>
      exists k :: 0 <= k <= |s| && GroupMatches(kind, alts, s[..k]) && GlobMatches(rest, s[k..])
  }

  // s is made of words that match alternatives, as many as the kind of group allows.
  ghost predicate GroupMatches(kind: Kind, alts: seq<List<Glob>>, s: string)
    decreases alts, 2
  {
    exists words: seq<string> :: Counts(kind, |words|) && AllMatch(alts, words) && Joined(words) == s
  }

  ghost predicate AllMatch(alts: seq<List<Glob>>, words: seq<string>)
    decreases alts, 1
  {
    forall i {:trigger words[i]} :: 0 <= i < |words| ==> OneMatches(alts, words[i])
  }

  ghost predicate OneMatches(alts: seq<List<Glob>>, w: string)
    decreases alts, 0
  {
    exists i :: 0 <= i < |alts| && GlobMatches(alts[i], w)
  }

  // An element that is no group, matched by the first j characters.
  lemma StepMatches(l: List<Glob>, s: string, j: nat)
    requires l.Cons? && !l.head.Group? && j <= |s| && GlobMatches(l.tail, s[j..])
    requires l.head.AnyText? || (j == 1 && (l.head.Lit? ==> s[0] == l.head.c))
    ensures GlobMatches(l, s)
  {
  }

  lemma StepCut(l: List<Glob>, s: string) returns (j: nat)
    requires l.Cons? && !l.head.Group? && GlobMatches(l, s)
    ensures j <= |s| && GlobMatches(l.tail, s[j..])
    ensures l.head.AnyText? || (j == 1 && (l.head.Lit? ==> s[0] == l.head.c))
  {
    j := 1;
    if l.head.AnyText? {
      j :| 0 <= j <= |s| && GlobMatches(l.tail, s[j..]);
    }
  }

  // ---- what the parser yields ----

  // Groups have alternatives without groups, and all characters are printable.
  predicate Formed(l: List<Glob>)
    decreases l, 0
  {
    l.Cons? ==> FormedOne(l.head) && Formed(l.tail)
  }

  predicate FormedOne(g: Glob)
    decreases g, 2
  {
    match g
    case Lit(c, escaped) => if escaped then Punctuation(c) else Literal(c)
    case Group(_, alts) => alts != [] && FormedAlts(alts)
    case _ => true
  }

  predicate FormedAlts(alts: seq<List<Glob>>)
    decreases alts, 1
  {
    forall i :: 0 <= i < |alts| ==> Formed(alts[i]) && Flat(alts[i])
  }

  predicate Flat(l: List<Glob>) {
    l.Cons? ==> !l.head.Group? && Flat(l.tail)
  }

  lemma {:induction false} ElementsFormed(t: string, inGroup: bool)
    ensures var r := Elements(t, inGroup);
            r.Some? ==>
              && Formed(r.value.value) && (inGroup ==> Flat(r.value.value))
              && (r.value.rest != [] ==> inGroup && (r.value.rest[0] == '|' || r.value.rest[0] == ')'))
    decreases |t|, 0
  {
    hide FormedAlts, Literal, Punctuation;
    if t == [] || (inGroup && (t[0] == '|' || t[0] == ')')) {
    } else if Opens(t) {
      if !inGroup && t[0] != '!' {
        AlternativesFormed(t[2..]);
        if Alternatives(t[2..]).Some? {
          ElementsFormed(Alternatives(t[2..]).value.rest, inGroup);
        }
      }
    } else if t[0] == '\\' {
      if |t| > 1 {
        ElementsFormed(t[2..], inGroup);
      }
    } else {
      ElementsFormed(t[1..], inGroup);
    }
  }

  lemma {:induction false} AlternativesFormed(t: string)
    ensures var r := Alternatives(t);
            r.Some? ==> FormedAlts(r.value.value)
    decreases |t|, 1
  {
    hide Formed, Flat;
    ElementsFormed(t, true);
    var first := Elements(t, true);
    if first.Some? && first.value.rest != [] && first.value.rest[0] != ')' {
      AlternativesFormed(first.value.rest[1..]);
    }
  }

  lemma ParsedFormed(t: string)
    requires ParseGlob(t).Some?
    ensures Formed(ParseGlob(t).value)
  {
    ElementsFormed(t, false);
  }
}
