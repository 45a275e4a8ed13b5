/** How Python reads a converted pattern: element by element, but for the characters of the
    pattern that are no literals there. */
module GlobReading {
  import opened Options
  import opened GlobText
  import opened RegexText
  import opened GlobConvert
  import N = Numerals

  // The text of the characters that l begins with and that no backslash protects.
  function Run(l: List<Glob>): string {
    if l.Cons? && l.head.Lit? && !l.head.escaped then [l.head.c] + Run(l.tail) else ""
  }

  function Drop(l: List<Glob>, n: nat): (r: List<Glob>)
    ensures r == l || r < l
  {
    if n == 0 || l.Nil? then l else Drop(l.tail, n - 1)
  }

  function Put(p: Piece, r: Option<List<Piece>>): Option<List<Piece>> {
    match r
    case None => None
    case Some(ps) => Some(Cons(p, ps))
  }

  // The pieces that Python sees: a plus sign or a brace quantifier goes to the atom before it.
  function Reading(l: List<Glob>): Option<List<Piece>>
    decreases l, 0
  {
    if l.Nil? then Some(Nil)
    else if QuantifierAt(Run(l)) != NoQuantifier || AtomFor(l.head).None? then None
    else if l.head.AnyText? || (l.head.Group? && l.head.kind != ExactlyOne) then
      Put(Piece(AtomFor(l.head).value, TimesOf(if l.head.Group? then l.head.kind else AnyNumber)), Reading(l.tail))
    else
      match QuantifierAt(Run(l.tail))
      case NoQuantifier => Put(Piece(AtomFor(l.head).value, ONCE), Reading(l.tail))
      case BadQuantifier => None
      case Quantifier(times, size) =>
        if AtomFor(l.head).value == Start then None
        else Put(Piece(AtomFor(l.head).value, times), Reading(Drop(l.tail, size)))
  }

  function AtomFor(g: Glob): Option<Atom>
    decreases g, 1
  {
    match g
    case Lit(c, escaped) => if escaped then Some(Char(c)) else Some(AtomOf(c))
    case AnyChar => Some(Dot)
    case AnyText => Some(Dot)
    case Group(_, alts) => if ReadAll(alts).None? then None else Some(Choice(ReadAll(alts).value))
  }

  // A character that no backslash protects.
  function AtomOf(c: char): Atom {
    if c == '.' then Dot else if c == '^' then Start else Char(c)
  }

  function ReadAll(alts: seq<List<Glob>>): (r: Option<seq<List<Piece>>>)
    ensures r.Some? ==> |r.value| == |alts|
    decreases alts, 0
  {
    if alts == [] then Some([])
    else if Reading(alts[0]).None? || ReadAll(alts[1..]).None? then None
    else Some([Reading(alts[0]).value] + ReadAll(alts[1..]).value)
  }

  // ---- quantifiers ----

  // Nothing of a quantifier comes behind the unprotected characters.
  predicate Stops(y: string) {
    y == "" || y[0] == '\\' || y[0] == '.' || y[0] == '(' || y[0] == '|' || y[0] == ')'
  }

  // What may follow a sequence of pieces.
  predicate Ends(z: string, inGroup: bool) {
    z == "" || (inGroup && (z[0] == '|' || z[0] == ')'))
  }

  lemma {:induction false} RunPrints(l: List<Glob>, u: bool, z: string, inGroup: bool) returns (y: string)
    requires Ends(z, inGroup)
    ensures Print(l, u) + z == Run(l) + y && Stops(y)
    decreases l
  {
    y := Print(l, u) + z;
    if l.Cons? {
      PrintMore(l.head, l.tail, u, z);
      if l.head.Lit? && !l.head.escaped {
        y := RunPrints(l.tail, u, z, inGroup);
        assert [l.head.c] + (Run(l.tail) + y) == [l.head.c] + Run(l.tail) + y;
      }
    }
  }

  lemma {:induction false} DigitsPrefix(a: string, y: string, i: nat)
    requires i <= |a| && Stops(y)
    ensures DigitsEnd(a + y, i) == DigitsEnd(a, i)
    decreases |a| - i
  {
    if i < |a| && N.IsDigit(a[i]) {
      DigitsPrefix(a, y, i + 1);
    }
  }

  lemma BracesPrefix(a: string, y: string)
    requires a != [] && a[0] == '{' && Stops(y)
    ensures Braces(a + y) == Braces(a)
  {
    hide DigitsEnd, NumberOf;
    var i := DigitsEnd(a, 1);
    DigitsPrefix(a, y, 1);
    assert (a + y)[1..i] == a[1..i];
    if i < |a| && a[i] == ',' {
      var j := DigitsEnd(a, i + 1);
      DigitsPrefix(a, y, i + 1);
      assert (a + y)[i + 1..j] == a[i + 1..j];
    }
  }

  lemma QuantifierPrints(l: List<Glob>, u: bool, z: string, inGroup: bool)
    requires Formed(l) && Ends(z, inGroup)
    ensures QuantifierAt(Print(l, u) + z) == QuantifierAt(Run(l))
  {
    hide Print, Braces;
    var y := RunPrints(l, u, z, inGroup);
    if Run(l) == "" {
      assert "" + y == y;
    } else if Run(l)[0] == '{' {
      BracesPrefix(Run(l), y);
    }
  }

  lemma {:induction false} DropPrints(l: List<Glob>, n: nat, u: bool, z: string)
    requires n <= |Run(l)|
    ensures n <= |Print(l, u) + z| && (Print(l, u) + z)[n..] == Print(Drop(l, n), u) + z
    decreases n
  {
    if n > 0 {
      PrintMore(l.head, l.tail, u, z);
      DropPrints(l.tail, n - 1, u, z);
      var t := Print(l.tail, u) + z;
      assert ([l.head.c] + t)[1..] == t && ([l.head.c] + t)[n..] == t[n - 1..];
    }
  }

  lemma {:induction false} DropFormed(l: List<Glob>, n: nat)
    requires Formed(l)
    ensures Formed(Drop(l, n)) && (Flat(l) ==> Flat(Drop(l, n)))
    decreases n
  {
    if n > 0 && l.Cons? {
      DropFormed(l.tail, n - 1);
    }
  }

  lemma NoQuestion(l: List<Glob>, u: bool, z: string, inGroup: bool)
    requires Formed(l) && Ends(z, inGroup)
    ensures Lazy(Print(l, u) + z) == Print(l, u) + z
  {
    if l.Cons? {
      PrintMore(l.head, l.tail, u, z);
    }
  }

  // ---- reading what was printed ----

  function Parsed<T>(r: Option<T>, z: string): Option<Read<T>> {
    match r
    case None => None
    case Some(x) => Some(Read(x, z))
  }

  lemma {:induction false} SequencePrints(l: List<Glob>, u: bool, z: string, inGroup: bool)
    requires Formed(l) && (inGroup ==> Flat(l)) && Ends(z, inGroup)
    ensures Sequence(Print(l, u) + z, inGroup) == Parsed(Reading(l), z)
    decreases l, 1
  {
    hide Print, Sequence, AtomAt, Run, QuantifierAt, Reading, AtomFor, FormedOne;
    if l.Nil? {
      NothingReads(u, z, inGroup);
    } else {
      StartsElement(l, u, z);
      QuantifierPrints(l, u, z, inGroup);
      SequenceStep(Print(l, u) + z, inGroup);
      ReadingStep(l);
      if QuantifierAt(Run(l)) == NoQuantifier {
        AtomPrints(l, u, z, inGroup);
        if AtomFor(l.head).Some? {
          BehindAtom(l, u, z, inGroup);
        }
      }
    }
  }

  predicate Quantified(g: Glob) { g.AnyText? || (g.Group? && g.kind != ExactlyOne) }

  function OwnSuffix(g: Glob, u: bool): string {
    if g.Group? then Suffix(g.kind, u) else if g.AnyText? then Suffix(AnyNumber, u) else ""
  }

  // What the atom comes to, in front of the rest of the text.
  function Continued(a: Atom, rest: string, inGroup: bool): Option<Read<List<Piece>>> {
    var q := QuantifierAt(rest);
    if q.NoQuantifier? then Behind(Piece(a, ONCE), Sequence(rest, inGroup))
    else if q.BadQuantifier? || a == Start then None
    else Behind(Piece(a, q.times), Sequence(Lazy(rest[q.size..]), inGroup))
  }

  function ReadOn(l: List<Glob>, a: Atom): Option<List<Piece>>
    requires l.Cons?
  {
    if Quantified(l.head) then
      Put(Piece(a, TimesOf(if l.head.Group? then l.head.kind else AnyNumber)), Reading(l.tail))
    else
      var q := QuantifierAt(Run(l.tail));
      if q.NoQuantifier? then Put(Piece(a, ONCE), Reading(l.tail))
      else if q.BadQuantifier? || a == Start then None
      else Put(Piece(a, q.times), Reading(Drop(l.tail, q.size)))
  }

  lemma ReadingStep(l: List<Glob>)
    requires l.Cons?
    ensures Reading(l) ==
            if QuantifierAt(Run(l)) != NoQuantifier || AtomFor(l.head).None? then None
            else ReadOn(l, AtomFor(l.head).value)
  {
    hide QuantifierAt, AtomFor, Run;
  }

  lemma {:induction false} BehindAtom(l: List<Glob>, u: bool, z: string, inGroup: bool)
    requires l.Cons? && Formed(l) && (inGroup ==> Flat(l)) && Ends(z, inGroup) && AtomFor(l.head).Some?
    ensures Continued(AtomFor(l.head).value, OwnSuffix(l.head, u) + (Print(l.tail, u) + z), inGroup) ==
            Parsed(ReadOn(l, AtomFor(l.head).value), z)
    decreases l, 0
  {
    hide Print, Sequence, Run, Drop, QuantifierAt, Reading, AtomFor, FormedOne, Ends, Lazy, Suffix, TimesOf;
    var behind := Print(l.tail, u) + z;
    if Quantified(l.head) {
      NoQuestion(l.tail, u, z, inGroup);
      NotAnchor(l.head);
      SuffixReads(if l.head.Group? then l.head.kind else AnyNumber, u, behind);
      SequencePrints(l.tail, u, z, inGroup);
    } else {
      PlainSuffix(l.head, u, behind);
      QuantifierPrints(l.tail, u, z, inGroup);
      var q := QuantifierAt(Run(l.tail));
      if q.Quantifier? {
        DropPrints(l.tail, q.size, u, z);
        DropFormed(l.tail, q.size);
        NoQuestion(Drop(l.tail, q.size), u, z, inGroup);
        SequencePrints(Drop(l.tail, q.size), u, z, inGroup);
      } else if q.NoQuantifier? {
        SequencePrints(l.tail, u, z, inGroup);
      }
    }
  }

  lemma NotAnchor(g: Glob)
    requires Quantified(g) && AtomFor(g).Some?
    ensures AtomFor(g).value != Start
  {
  }

  lemma PlainSuffix(g: Glob, u: bool, behind: string)
    requires !Quantified(g)
    ensures OwnSuffix(g, u) + behind == behind
  {
    assert "" + behind == behind;
  }

  lemma NothingReads(u: bool, z: string, inGroup: bool)
    requires Ends(z, inGroup)
    ensures Sequence(Print(Nil, u) + z, inGroup) == Parsed(Reading(Nil), z)
  {
    assert Print(Nil, u) + z == z;
  }

  lemma StartsElement(l: List<Glob>, u: bool, z: string)
    requires l.Cons? && Formed(l)
    ensures var t := Print(l, u) + z; t != [] && t[0] != '|' && t[0] != ')'
  {
    PrintMore(l.head, l.tail, u, z);
  }

  lemma SequenceStep(t: string, inGroup: bool)
    requires t != [] && t[0] != '|' && t[0] != ')'
    ensures Sequence(t, inGroup) ==
            if QuantifierAt(t) != NoQuantifier || AtomAt(t, inGroup).None? then None
            else Continued(AtomAt(t, inGroup).value.value, AtomAt(t, inGroup).value.rest, inGroup)
  {
    hide QuantifierAt, AtomAt;
  }

  lemma {:induction false} AtomPrints(l: List<Glob>, u: bool, z: string, inGroup: bool)
    requires l.Cons? && Formed(l) && (inGroup ==> Flat(l))
    ensures Print(l, u) + z != []
    ensures AtomAt(Print(l, u) + z, inGroup) ==
            Parsed(AtomFor(l.head), OwnSuffix(l.head, u) + (Print(l.tail, u) + z))
    decreases l.head, 3
  {
    hide AtomAt, AtomFor, Print, Suffix;
    if l.head.Group? {
      GroupPrints(l, u, z);
    } else {
      CharPrints(l, u, z, inGroup);
    }
  }

  // The atom of an element that is no group.
  lemma CharPrints(l: List<Glob>, u: bool, z: string, inGroup: bool)
    requires l.Cons? && Formed(l) && !l.head.Group?
    ensures Print(l, u) + z != []
    ensures AtomAt(Print(l, u) + z, inGroup) ==
            Parsed(AtomFor(l.head), OwnSuffix(l.head, u) + (Print(l.tail, u) + z))
  {
    hide Extra;
    var behind := Print(l.tail, u) + z;
    PrintMore(l.head, l.tail, u, z);
    var t := PrintOne(l.head, u) + behind;
    assert "" + behind == behind;
    match l.head
    case Lit(c, escaped) =>
      if escaped {
        assert t[2..] == behind;
      } else {
        assert t[1..] == behind;
      }
    case AnyChar => assert t[1..] == behind;
    case AnyText => assert t[1..] == Extra('*', u) + behind;
  }

  // The quantifier of a star or a group.
  lemma SuffixReads(kind: Kind, u: bool, behind: string)
    requires kind != ExactlyOne && Lazy(behind) == behind
    ensures var q := QuantifierAt(Suffix(kind, u) + behind);
            q == Quantifier(TimesOf(kind), 1) && Lazy((Suffix(kind, u) + behind)[1..]) == behind
  {
    var t := Suffix(kind, u) + behind;
    if |Suffix(kind, u)| == 1 {
      assert t[1..] == behind;
    } else {
      assert t[1..] == "?" + behind;
      assert ("?" + behind)[1..] == behind;
    }
  }

  lemma {:induction false} GroupPrints(l: List<Glob>, u: bool, z: string)
    requires l.Cons? && Formed(l) && l.head.Group?
    ensures Print(l, u) + z != []
    ensures AtomAt(Print(l, u) + z, false) ==
            Parsed(AtomFor(l.head), Suffix(l.head.kind, u) + (Print(l.tail, u) + z))
    decreases l.head, 2
  {
    hide Extra, Branches, PrintAlts, ReadAll, Print;
    var behind := Suffix(l.head.kind, u) + (Print(l.tail, u) + z);
    PrintMore(l.head, l.tail, u, z);
    var t := "(" + (PrintAlts(l.head.alts, u) + ")" + behind);
    assert Print(l, u) + z == t;
    assert t[1..] == PrintAlts(l.head.alts, u) + ")" + behind;
    BranchesPrint(l.head.alts, u, behind);
  }

  lemma {:induction false} BranchesPrint(alts: seq<List<Glob>>, u: bool, z: string)
    requires alts != [] && FormedAlts(alts)
    ensures Branches(PrintAlts(alts, u) + ")" + z) == Parsed(ReadAll(alts), z)
    decreases alts, 1
  {
    hide Print, Sequence, Reading, Formed, Flat;
    if |alts| == 1 {
      var y := ")" + z;
      assert PrintAlts(alts, u) + ")" + z == Print(alts[0], u) + y;
      assert y[1..] == z && alts[1..] == [];
      SequencePrints(alts[0], u, y, true);
      if Reading(alts[0]).Some? {
        assert [Reading(alts[0]).value] + [] == [Reading(alts[0]).value];
      }
    } else {
      var more := PrintAlts(alts[1..], u) + ")" + z;
      var y := "|" + more;
      assert PrintAlts(alts, u) + ")" + z == Print(alts[0], u) + y;
      assert y[1..] == more;
      SequencePrints(alts[0], u, y, true);
      BranchesPrint(alts[1..], u, z);
    }
  }

  // A converted pattern is read so, or refused.
  lemma ConversionReads(t: string, u: bool)
    requires ParseGlob(t).Some?
    ensures ParseRegex(Convert(t, '\0', u)) == Reading(Demote(ParseGlob(t).value))
  {
    hide Print, Sequence, Reading, Demote, Convert;
    var l := ParseGlob(t).value;
    ParsedFormed(t);
    DemoteFormed(l);
    ConvertsTo(t, u);
    SequencePrints(Demote(l), u, "", false);
    assert Print(Demote(l), u) + "" == Print(Demote(l), u);
  }

  lemma {:induction false} DemoteFormed(l: List<Glob>)
    requires Formed(l)
    ensures Formed(Demote(l))
    decreases l
  {
    if l.Cons? {
      DemoteFormed(l.tail);
    }
  }
}
