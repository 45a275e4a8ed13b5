/** Python regular expressions, as far as patterns are converted to them: how they are read
    (by Python before 3.11, which has no possessive quantifiers) and what they match. */
module RegexText {
  import opened Options
  import opened GlobText
  import N = Numerals

  // At least lo times, and at most hi times if there is a bound.
  datatype Times = Times(lo: nat, hi: Option<nat>)

  datatype Atom = Dot | Start | Char(c: char) | Choice(alts: seq<List<Piece>>)

  datatype Piece = Piece(atom: Atom, times: Times)

  const ONCE := Times(1, Some(1))

  function TimesOf(kind: Kind): Times {
    match kind
    case ExactlyOne => ONCE
    case AnyNumber => Times(0, None)
    case AtLeastOne => Times(1, None)
    case AtMostOne => Times(0, Some(1))
  }

  // ---- quantifiers ----

  // A quantifier of size characters; a bad one asks for fewer at most than at least.
  datatype Quantifier = NoQuantifier | BadQuantifier | Quantifier(times: Times, size: nat)

  function DigitsEnd(t: string, i: nat): (j: nat)
    requires i <= |t|
    ensures i <= j <= |t|
    ensures forall k :: i <= k < j ==> N.IsDigit(t[k])
    ensures j < |t| ==> !N.IsDigit(t[j])
    decreases |t| - i
  {
    if i < |t| && N.IsDigit(t[i]) then DigitsEnd(t, i + 1) else i
  }

  function NumberOf(s: string): nat
    requires forall k :: 0 <= k < |s| ==> N.IsDigit(s[k])
  {
    if s == [] then 0
    else
      assert N.IsDigit(s[|s| - 1]);
      10 * NumberOf(s[..|s| - 1]) + (s[|s| - 1] as int - '0' as int)
  }

  // {n}, {lo,hi}, where lo, hi or both may be missing; any other open brace is a character.
  function Braces(t: string): (q: Quantifier)
    requires t != [] && t[0] == '{'
    ensures q.Quantifier? ==> 0 < q.size <= |t|
  {
    var i := DigitsEnd(t, 1);
    if i < |t| && t[i] == ',' then
      var j := DigitsEnd(t, i + 1);
      if j < |t| && t[j] == '}' then
        var lo, hi := NumberOf(t[1..i]), NumberOf(t[i + 1..j]);
        if j == i + 1 then Quantifier(Times(lo, None), j + 1)
        else if hi < lo then BadQuantifier
        else Quantifier(Times(lo, Some(hi)), j + 1)
      else NoQuantifier
    else if 1 < i < |t| && t[i] == '}' then Quantifier(Times(NumberOf(t[1..i]), Some(NumberOf(t[1..i]))), i + 1)
    else NoQuantifier
  }

  // The quantifier that a text begins with.
  function QuantifierAt(t: string): (q: Quantifier)
    ensures q.Quantifier? ==> 0 < q.size <= |t|
  {
    if t == [] then NoQuantifier
    else if t[0] == '*' then Quantifier(Times(0, None), 1)
    else if t[0] == '+' then Quantifier(Times(1, None), 1)
    else if t[0] == '?' then Quantifier(Times(0, Some(1)), 1)
    else if t[0] == '{' then Braces(t)
    else NoQuantifier
  }

  // What is left behind a question mark that makes a quantifier lazy.
  function Lazy(t: string): (r: string)
    ensures |r| <= |t|
  {
    if t != [] && t[0] == '?' then t[1..] else t
  }

  // ---- reading ----

  // A sequence of pieces up to the end, or within a group up to what ends the branch.  A
  // quantifier where an atom is wanted is an error: there is nothing to repeat, or there are
  // two in a row.  So is one behind an anchor.
  function Sequence(t: string, inGroup: bool): (r: Option<Read<List<Piece>>>)
    ensures r.Some? ==> |r.value.rest| <= |t|
    decreases |t|, 0
  {
    if t == [] || (inGroup && (t[0] == '|' || t[0] == ')')) then Some(Read(Nil, t))
    else if QuantifierAt(t) != NoQuantifier then None
    else
      match AtomAt(t, inGroup)
      case None => None
      case Some(a) =>
        match QuantifierAt(a.rest)
        case NoQuantifier => Behind(Piece(a.value, ONCE), Sequence(a.rest, inGroup))
        case BadQuantifier => None
        case Quantifier(times, size) =>
          if a.value == Start then None
          else Behind(Piece(a.value, times), Sequence(Lazy(a.rest[size..]), inGroup))
  }

  // The atom that a text begins with.
  function AtomAt(t: string, inGroup: bool): (r: Option<Read<Atom>>)
    requires t != []
    ensures r.Some? ==> |r.value.rest| < |t|
    decreases |t| - 1, 2
  {
    if t[0] == '.' then Some(Read(Dot, t[1..]))
    else if t[0] == '^' then Some(Read(Start, t[1..]))
    else if t[0] == '(' then
      if inGroup then None
      else
        match Branches(t[1..])
        case None => None
        case Some(r) => Some(Read(Choice(r.value), r.rest))
    else if t[0] == '\\' then
      if |t| > 1 && Punctuation(t[1]) then Some(Read(Char(t[1]), t[2..])) else None
    else if Literal(t[0]) then Some(Read(Char(t[0]), t[1..]))
    else None
  }

  function Branches(t: string): (r: Option<Read<seq<List<Piece>>>>)
    ensures r.Some? ==> |r.value.rest| < |t|
    decreases |t|, 1
  {
    match Sequence(t, true)
    case None => None
    case Some(first) =>
      if first.rest == [] then None
      else if first.rest[0] == ')' then Some(Read([first.value], first.rest[1..]))
      else
        match Branches(first.rest[1..])
        case None => None
        case Some(more) => Some(Read([first.value] + more.value, more.rest))
  }

  // The regular expression that a text is, unless Python refuses it.
  function ParseRegex(t: string): Option<List<Piece>> {
    match Sequence(t, false)
    case None => None
    case Some(r) => Some(r.value)
  }

  // ---- what a regular expression matches in full; start says that nothing is before s ----

  ghost predicate AtomMatches(a: Atom, s: string, start: bool)
    decreases a, 0, 0
  {
    match a
    case Dot => |s| == 1 && s[0] != '\n'
    case Start => s == [] && start
    case Char(c) => s == [c]
    case Choice(alts) => exists i :: 0 <= i < |alts| && RegexMatches(alts[i], s, start)
  }

  function Fewer(times: Times): Times {
    Times(if times.lo > 0 then times.lo - 1 else 0,
          if times.hi.Some? && times.hi.value > 0 then Some(times.hi.value - 1) else times.hi)
  }

  // The atom again and again; a copy may be empty only as long as more are wanted.
  ghost predicate Repeats(p: Piece, s: string, start: bool)
    decreases p.atom, 1, |s| + p.times.lo
  {
    || (s == [] && p.times.lo == 0)
    || (p.times.hi != Some(0) && exists k :: 0 <= k <= |s| && OneMore(p, s, start, k))
  }

  ghost predicate OneMore(p: Piece, s: string, start: bool, k: nat)
    requires k <= |s|
    decreases p.atom, 1, |s| + p.times.lo, 0
  {
    && (k > 0 || p.times.lo > 0) && AtomMatches(p.atom, s[..k], start)
    && Repeats(Piece(p.atom, Fewer(p.times)), s[k..], start && k == 0)
  }

  ghost predicate RegexMatches(l: List<Piece>, s: string, start: bool)
    decreases l, 2, 0
  {
    match l
    case Nil => s == []
    case Cons(p, rest) =>
      exists k :: 0 <= k <= |s| && Repeats(p, s[..k], start) && RegexMatches(rest, s[k..], start && k == 0)
  }
}
