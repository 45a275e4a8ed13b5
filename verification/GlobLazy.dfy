/** Greedy and ungreedy: which quantifiers of a converted pattern Python takes to be lazy. */
module GlobLazy {
  import opened Options
  import opened GlobText
  import opened RegexText
  import opened GlobConvert
  import opened GlobReading

  // A quantifier, and whether a question mark behind it makes it lazy.
  datatype Mark = Mark(times: Times, lazy: bool)

  predicate Questioned(t: string) { t != [] && t[0] == '?' }

  // ---- the quantifiers that Python reads in a text ----

  // In the order of the atoms they belong to, those within a group before the one behind it.
  function Marks(t: string, inGroup: bool): seq<Mark>
    decreases |t|, 0
  {
    if Sequence(t, inGroup).None? || t == [] || (inGroup && (t[0] == '|' || t[0] == ')')) then []
    else if AtomAt(t, inGroup).None? then []
    else
      var rest := AtomAt(t, inGroup).value.rest;
      (if t[0] == '(' then BranchMarks(t[1..]) else []) + MarksBehind(rest, inGroup)
  }

  // Those of an atom and of what follows, in the text behind the atom.
  function MarksBehind(rest: string, inGroup: bool): seq<Mark>
    decreases |rest|, 1
  {
    var q := QuantifierAt(rest);
    if q.Quantifier? then
      [Mark(q.times, Questioned(rest[q.size..]))] + Marks(Lazy(rest[q.size..]), inGroup)
    else Marks(rest, inGroup)
  }

  function BranchMarks(t: string): seq<Mark>
    decreases |t|, 1
  {
    if Sequence(t, true).None? then []
    else
      var rest := Sequence(t, true).value.rest;
      Marks(t, true) + if rest != [] && rest[0] == '|' then BranchMarks(rest[1..]) else []
  }

  // ---- they are those of the pieces ----

  function Counted(times: Times): seq<Times> { if times == ONCE then [] else [times] }

  function MarkedTimes(ms: seq<Mark>): seq<Times> {
    if ms == [] then [] else Counted(ms[0].times) + MarkedTimes(ms[1..])
  }

  // How often the atoms of l are wanted, where that is not once.
  function TimesIn(l: List<Piece>): seq<Times>
    decreases l, 0
  {
    if l.Nil? then [] else TimesWithin(l.head.atom) + Counted(l.head.times) + TimesIn(l.tail)
  }

  function TimesWithin(a: Atom): seq<Times>
    decreases a, 2
  {
    if a.Choice? then TimesAll(a.alts) else []
  }

  function TimesAll(alts: seq<List<Piece>>): seq<Times>
    decreases alts, 1
  {
    if alts == [] then [] else TimesIn(alts[0]) + TimesAll(alts[1..])
  }

  lemma Three<T>(a: seq<T>, b: seq<T>, c: seq<T>)
    ensures a + (b + c) == a + b + c && [] + c == c
  {
  }

  lemma {:induction false} MarkedTimesAdd(a: seq<Mark>, b: seq<Mark>)
    ensures MarkedTimes(a + b) == MarkedTimes(a) + MarkedTimes(b)
  {
    hide Counted;
    if a == [] {
      assert a + b == b;
    } else {
      assert (a + b)[0] == a[0] && (a + b)[1..] == a[1..] + b;
      MarkedTimesAdd(a[1..], b);
      Three(Counted(a[0].times), MarkedTimes(a[1..]), MarkedTimes(b));
    }
  }

  // The reader of pieces and that of quantifiers agree.
  lemma {:induction false} MarksAreRead(t: string, inGroup: bool)
    requires Sequence(t, inGroup).Some?
    ensures MarkedTimes(Marks(t, inGroup)) == TimesIn(Sequence(t, inGroup).value.value)
    decreases |t|, 0
  {
    hide QuantifierAt, Lazy, Literal, Punctuation, Counted, Branches, BranchMarks;
    if t != [] && !(inGroup && (t[0] == '|' || t[0] == ')')) {
      var a := AtomAt(t, inGroup).value;
      var inner := if t[0] == '(' then BranchMarks(t[1..]) else [];
      if t[0] == '(' {
        BranchMarksAreRead(t[1..]);
      }
      assert MarkedTimes(inner) == TimesWithin(a.value);
      hide AtomAt;
      var q := QuantifierAt(a.rest);
      MarkedTimesAdd(inner, MarksBehind(a.rest, inGroup));
      if q.Quantifier? {
        var next := Lazy(a.rest[q.size..]);
        MarksAreRead(next, inGroup);
        var m := Mark(q.times, Questioned(a.rest[q.size..]));
        assert ([m] + Marks(next, inGroup))[1..] == Marks(next, inGroup);
        Three(MarkedTimes(inner), Counted(q.times), TimesIn(Sequence(next, inGroup).value.value));
      } else {
        MarksAreRead(a.rest, inGroup);
        OnceIsNotCounted();
        Three(MarkedTimes(inner), [], TimesIn(Sequence(a.rest, inGroup).value.value));
      }
    }
  }

  lemma OnceIsNotCounted()
    ensures Counted(ONCE) == []
  {
  }

  lemma {:induction false} BranchMarksAreRead(t: string)
    requires Branches(t).Some?
    ensures MarkedTimes(BranchMarks(t)) == TimesAll(Branches(t).value.value)
    decreases |t|, 1
  {
    hide Sequence, Marks, TimesIn;
    MarksAreRead(t, true);
    var first := Sequence(t, true).value;
    if first.rest[0] == '|' {
      BranchMarksAreRead(first.rest[1..]);
      MarkedTimesAdd(Marks(t, true), BranchMarks(first.rest[1..]));
      var more := Branches(first.rest[1..]).value.value;
      assert ([first.value] + more)[1..] == more;
    } else {
      BranchEnd(t);
      assert [first.value][1..] == [];
      assert Marks(t, true) + [] == Marks(t, true);
    }
  }

  lemma {:induction false} BranchEnd(t: string)
    requires Sequence(t, true).Some?
    ensures var rest := Sequence(t, true).value.rest; rest == [] || rest[0] == '|' || rest[0] == ')'
    decreases |t|
  {
    hide QuantifierAt, AtomAt, Lazy;
    if t != [] && t[0] != '|' && t[0] != ')' {
      var a := AtomAt(t, true).value;
      var q := QuantifierAt(a.rest);
      BranchEnd(if q.Quantifier? then Lazy(a.rest[q.size..]) else a.rest);
    }
  }

  // ---- and what they are in a converted pattern ----

  // Stars and groups *( ) and +( ) are lazy in ungreedy mode, and nothing else ever is: not
  // ?( ), and not what Python takes for a quantifier among the characters of the pattern.
  function Wanted(l: List<Glob>, u: bool): seq<Mark>
    decreases l, 0
  {
    if l.Nil? then []
    else
      WantedWithin(l.head, u) +
      match l.head
      case AnyText => [Mark(Times(0, None), u)] + Wanted(l.tail, u)
      case Group(AnyNumber, _) => [Mark(Times(0, None), u)] + Wanted(l.tail, u)
      case Group(AtLeastOne, _) => [Mark(Times(1, None), u)] + Wanted(l.tail, u)
      case Group(AtMostOne, _) => [Mark(Times(0, Some(1)), false)] + Wanted(l.tail, u)
      case _ =>
        var q := QuantifierAt(Run(l.tail));
        if q.Quantifier? then [Mark(q.times, false)] + Wanted(Drop(l.tail, q.size), u) else Wanted(l.tail, u)
  }

  function WantedWithin(g: Glob, u: bool): seq<Mark>
    decreases g, 2
  {
    if g.Group? then WantedAll(g.alts, u) else []
  }

  function WantedAll(alts: seq<List<Glob>>, u: bool): seq<Mark>
    decreases alts, 1
  {
    if alts == [] then [] else Wanted(alts[0], u) + WantedAll(alts[1..], u)
  }

  // Every quantifier that Python reads in a converted pattern, and whether it is lazy.
  lemma ConversionIsLazy(t: string, u: bool)
    requires ParseGlob(t).Some? && ParseRegex(Convert(t, '\0', u)).Some?
    ensures Marks(Convert(t, '\0', u), false) == Wanted(Demote(ParseGlob(t).value), u)
  {
    hide Print, Sequence, Reading, Demote, Convert, Marks, Wanted;
    var l := ParseGlob(t).value;
    ParsedFormed(t);
    DemoteFormed(l);
    ConvertsTo(t, u);
    ConversionReads(t, u);
    MarksPrint(Demote(l), u, "", false);
    assert Print(Demote(l), u) + "" == Print(Demote(l), u);
  }

  lemma {:induction false} MarksPrint(l: List<Glob>, u: bool, z: string, inGroup: bool)
    requires Formed(l) && (inGroup ==> Flat(l)) && Ends(z, inGroup) && Reading(l).Some?
    ensures Marks(Print(l, u) + z, inGroup) == Wanted(l, u)
    decreases l, 1
  {
    hide Print, Sequence, AtomAt, Run, QuantifierAt, Reading, AtomFor, FormedOne, Wanted, WantedWithin, MarksBehind;
    if l.Nil? {
      assert Print(l, u) + z == z by { PrintNil(u); }
      WantedNil(u);
    } else {
      var t := Print(l, u) + z;
      StartsElement(l, u, z);
      ReadingStep(l);
      SequencePrints(l, u, z, inGroup);
      AtomPrints(l, u, z, inGroup);
      WithinPrints(l, u, z);
      BehindPrints(l, u, z, inGroup);
    }
  }

  lemma PrintNil(u: bool)
    ensures Print(Nil, u) == ""
  {
  }

  lemma WantedNil(u: bool)
    ensures Wanted(Nil, u) == []
  {
  }

  // The quantifiers within the first element.
  lemma {:induction false} WithinPrints(l: List<Glob>, u: bool, z: string)
    requires l.Cons? && Formed(l) && AtomFor(l.head).Some?
    ensures var t := Print(l, u) + z;
            && t != [] && (l.head.Group? <==> t[0] == '(')
            && (l.head.Group? ==> BranchMarks(t[1..]) == WantedWithin(l.head, u))
            && (!l.head.Group? ==> WantedWithin(l.head, u) == [])
    decreases l.head, 2
  {
    hide Extra, Suffix, PrintAlts, ReadAll, Print, BranchMarks, WantedAll;
    PrintMore(l.head, l.tail, u, z);
    if l.head.Group? {
      var behind := Suffix(l.head.kind, u) + (Print(l.tail, u) + z);
      var t := "(" + (PrintAlts(l.head.alts, u) + ")" + behind);
      assert Print(l, u) + z == t;
      assert t[1..] == PrintAlts(l.head.alts, u) + ")" + behind;
      BranchesMark(l.head.alts, u, behind);
    }
  }

  lemma {:induction false} BranchesMark(alts: seq<List<Glob>>, u: bool, z: string)
    requires alts != [] && FormedAlts(alts) && ReadAll(alts).Some?
    ensures BranchMarks(PrintAlts(alts, u) + ")" + z) == WantedAll(alts, u)
    decreases alts, 1
  {
    hide Print, Sequence, Reading, Formed, Flat, Marks, Wanted;
    if |alts| == 1 {
      var y := ")" + z;
      assert PrintAlts(alts, u) + ")" + z == Print(alts[0], u) + y;
      assert alts[1..] == [];
      SequencePrints(alts[0], u, y, true);
      MarksPrint(alts[0], u, y, true);
    } else {
      var more := PrintAlts(alts[1..], u) + ")" + z;
      var y := "|" + more;
      assert PrintAlts(alts, u) + ")" + z == Print(alts[0], u) + y;
      assert y[1..] == more;
      SequencePrints(alts[0], u, y, true);
      MarksPrint(alts[0], u, y, true);
      BranchesMark(alts[1..], u, z);
    }
  }

  // The quantifier of the first element, and all behind it.
  lemma {:induction false} BehindPrints(l: List<Glob>, u: bool, z: string, inGroup: bool)
    requires l.Cons? && Formed(l) && (inGroup ==> Flat(l)) && Ends(z, inGroup)
    requires AtomFor(l.head).Some? && ReadOn(l, AtomFor(l.head).value).Some?
    ensures Wanted(l, u) ==
            WantedWithin(l.head, u) + MarksBehind(OwnSuffix(l.head, u) + (Print(l.tail, u) + z), inGroup)
    decreases l, 0
  {
    hide Print, Marks, Run, Drop, QuantifierAt, Reading, AtomFor, FormedOne, Ends, Lazy, Suffix, TimesOf, WantedWithin;
    var behind := Print(l.tail, u) + z;
    var text := OwnSuffix(l.head, u) + behind;
    if Quantified(l.head) {
      var kind := if l.head.Group? then l.head.kind else AnyNumber;
      NoQuestion(l.tail, u, z, inGroup);
      SuffixReads(kind, u, behind);
      SuffixQuestions(kind, u, behind);
      MarksPrint(l.tail, u, z, inGroup);
    } else {
      PlainSuffix(l.head, u, behind);
      QuantifierPrints(l.tail, u, z, inGroup);
      var q := QuantifierAt(Run(l.tail));
      if q.Quantifier? {
        DropPrints(l.tail, q.size, u, z);
        DropFormed(l.tail, q.size);
        NoQuestion(Drop(l.tail, q.size), u, z, inGroup);
        NotQuestioned(behind[q.size..]);
        MarksPrint(Drop(l.tail, q.size), u, z, inGroup);
      } else {
        MarksPrint(l.tail, u, z, inGroup);
      }
    }
  }

  lemma NotQuestioned(t: string)
    ensures Lazy(t) == t <==> !Questioned(t)
  {
  }

  // The question mark behind the quantifier of a star or a group.
  lemma SuffixQuestions(kind: Kind, u: bool, behind: string)
    requires kind != ExactlyOne && Lazy(behind) == behind
    ensures Questioned((Suffix(kind, u) + behind)[1..]) <==> u && kind != AtMostOne
    ensures TimesOf(AnyNumber) == Times(0, None) && TimesOf(AtLeastOne) == Times(1, None)
    ensures TimesOf(AtMostOne) == Times(0, Some(1))
  {
    var t := Suffix(kind, u) + behind;
    if |Suffix(kind, u)| == 1 {
      assert t[1..] == behind;
    } else {
      assert t[1..] == "?" + behind;
    }
  }
}
