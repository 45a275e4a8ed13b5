/** Characters that are literals in a shell pattern but not in a regular expression: a pattern
    keeps its language exactly if it has none that are not protected, if its groups hold none,
    survive, and are followed by no brace quantifier. */
module GlobActive {
  import opened Options
  import opened GlobText
  import opened RegexText
  import opened GlobConvert
  import opened GlobReading
  import opened GlobMeaning
  import opened GlobNewlines
  import opened GlobNested

  // ---- the shortest text that pieces match, x for every dot ----

  function SampleOf(a: Atom): string
    decreases a, 0
  {
    match a
    case Dot => "x"
    case Char(c) => [c]
    case Start => ""
    case Choice(alts) => Shortest(alts)
  }

  function Shortest(alts: seq<List<Piece>>): string
    decreases alts, 0
  {
    if alts == [] then "" else
      var w, v := Least(alts[0]), Shortest(alts[1..]);
      if |alts| == 1 || |w| <= |v| then w else v
  }

  function Copies(w: string, n: nat): string {
    if n == 0 then "" else w + Copies(w, n - 1)
  }

  function Least(ps: List<Piece>): string
    decreases ps, 1
  {
    if ps.Nil? then "" else Copies(SampleOf(ps.head.atom), ps.head.times.lo) + Least(ps.tail)
  }

  lemma OneCopy(w: string)
    ensures Copies(w, 1) == w && Copies(w, 0) == ""
  {
    assert Copies(w, 1) == w + Copies(w, 0);
  }

  lemma {:induction false} CopiesOf(c: char, n: nat)
    ensures |Copies([c], n)| == n && forall i :: 0 <= i < n ==> Copies([c], n)[i] == c
  {
    if n > 0 {
      CopiesOf(c, n - 1);
    }
  }

  lemma {:induction false} CopiesOfNothing(n: nat)
    ensures Copies("", n) == ""
  {
    if n > 0 {
      CopiesOfNothing(n - 1);
    }
  }

  // ---- groups ----

  // For an alternative it is a shortest text that the pattern matches, too.
  lemma {:induction false} LeastFits(l: List<Glob>)
    requires Flat(l) && Formed(l)
    ensures var w := Least(Pieces(l));
            GlobMatches(l, w) && '\n' !in w && forall s :: GlobMatches(l, s) ==> |s| >= |w|
  {
    if l.Cons? {
      LeastFits(l.tail);
      var w, rest := Least(Pieces(l)), Least(Pieces(l.tail));
      OneCopy(SampleOf(PieceOf(l.head).atom));
      StepMatches(l, w, if l.head.AnyText? then 0 else 1) by { assert w[if l.head.AnyText? then 0 else 1..] == rest; }
      forall s | GlobMatches(l, s) ensures |s| >= |w| {
        var j := StepCut(l, s);
        assert |s[j..]| >= |rest|;
      }
    }
  }

  lemma {:induction false} ShortestFits(alts: seq<List<Glob>>)
    requires alts != [] && FormedAlts(alts)
    ensures var w := Shortest(PiecesOf(alts));
            OneMatches(alts, w) && '\n' !in w && forall s :: OneMatches(alts, s) ==> |s| >= |w|
    decreases |alts|
  {
    hide GlobMatches, Pieces, Least, Formed, Flat;
    var rs, w := PiecesOf(alts), Least(Pieces(alts[0]));
    assert rs[0] == Pieces(alts[0]) && rs[1..] == PiecesOf(alts[1..]);
    AltFormed(alts, 0);
    LeastFits(alts[0]);
    MatchesOne(alts, 0, w);
    if |alts| == 1 {
      forall s | OneMatches(alts, s) ensures |s| >= |w| {
      }
    } else {
      var v, more := Shortest(rs[1..]), alts[1..];
      assert FormedAlts(more) by {
        forall i | 0 <= i < |more| ensures Formed(more[i]) && Flat(more[i]) { AltFormed(alts, i + 1); }
      }
      ShortestFits(more);
      var j :| 0 <= j < |more| && GlobMatches(more[j], v);
      MatchesOne(alts, j + 1, v);
      forall s | OneMatches(alts, s) ensures |s| >= |w| || |s| >= |v| {
        var i :| 0 <= i < |alts| && GlobMatches(alts[i], s);
        if i > 0 {
          MatchesOne(more, i - 1, s);
        }
      }
    }
  }

  // A group whose alternatives have nothing active is matched by nothing shorter.
  lemma GroupSize(kind: Kind, alts: seq<List<Glob>>, s: string)
    requires alts != [] && FormedAlts(alts) && GroupMatches(kind, alts, s)
    ensures |s| >= |Copies(Shortest(PiecesOf(alts)), TimesOf(kind).lo)|
  {
    hide OneMatches, Shortest;
    ShortestFits(alts);
    OneCopy(Shortest(PiecesOf(alts)));
    var words: seq<string> :| Counts(kind, |words|) && AllMatch(alts, words) && Joined(words) == s;
    if words != [] {
      assert OneMatches(alts, words[0]);
    }
  }

  // The text of a choice is matched by it, and if it is not empty, the empty one is not.
  ghost predicate Sampled(a: Atom) {
    a.Choice? ==>
      && '\n' !in SampleOf(a) && (forall b :: AtomMatches(a, SampleOf(a), b))
      && (SampleOf(a) != "" ==> forall b :: !AtomMatches(a, "", b))
  }

  lemma ChoiceSampled(alts: seq<List<Glob>>)
    requires alts != [] && FormedAlts(alts)
    ensures Sampled(Choice(PiecesOf(alts)))
  {
    AlikeChoice(alts);
    ShortestFits(alts);
    var a := Choice(PiecesOf(alts));
    assert SampleOf(a) == Shortest(PiecesOf(alts));
    hide AtomMatches, OneMatches, Shortest, SampleOf;
    forall b ensures AtomMatches(a, SampleOf(a), b) {
    }
    if SampleOf(a) != "" {
      forall b ensures !AtomMatches(a, "", b) {
      }
    }
  }

  // Groups have nothing active in them, and no quantifier with braces behind them.
  predicate Steady(l: List<Glob>) {
    l.Cons? ==> (l.head.Group? ==> SteadyGroup(l)) && Steady(l.tail)
  }

  predicate SteadyGroup(l: List<Glob>)
    requires l.Cons? && l.head.Group?
  {
    !SomeActive(l.head.alts) && (QuantifierAt(Run(l.tail)).Quantifier? ==> Run(l.tail)[0] == '+')
  }

  lemma {:induction false} FlatIsSteady(l: List<Glob>)
    requires Flat(l)
    ensures Steady(l)
  {
    if l.Cons? {
      FlatIsSteady(l.tail);
    }
  }

  lemma {:induction false} DropSteady(l: List<Glob>, n: nat)
    requires Steady(l)
    ensures Steady(Drop(l, n))
    decreases n
  {
    if n > 0 && l.Cons? {
      DropSteady(l.tail, n - 1);
    }
  }

  lemma {:induction false} DemoteSteady(l: List<Glob>)
    requires Steady(l)
    ensures Steady(Demote(l))
  {
    hide QuantifierAt;
    if l.Cons? {
      DemoteSteady(l.tail);
      DemoteActive(l.tail);
    }
  }

  // ---- the pieces that are read ----

  ghost predicate Simple(ps: List<Piece>) {
    ps.Cons? ==>
      && Sampled(ps.head.atom) && (ps.head.times.hi.Some? ==> ps.head.times.lo <= ps.head.times.hi.value)
      && (ps.head.atom.Start? ==> ps.head.times == ONCE)
      && (ps.head.atom.Char? ==> ps.head.atom.c != '\n')
      && Simple(ps.tail)
  }

  lemma AtomSimple(l: List<Glob>)
    requires l.Cons? && Formed(l) && Steady(l) && AtomFor(l.head).Some?
    ensures Sampled(AtomFor(l.head).value)
    ensures l.head.Group? ==> AtomFor(l.head).value == Choice(PiecesOf(l.head.alts))
  {
    if l.head.Group? {
      ReadsAll(l.head.alts);
      ChoiceSampled(l.head.alts);
    }
  }

  lemma {:induction false} ReadsSimple(l: List<Glob>)
    requires Formed(l) && Steady(l) && Reading(l).Some?
    ensures Simple(Reading(l).value)
    decreases l
  {
    hide Run, Drop, Reading, QuantifierAt, Sampled, SteadyGroup;
    if l.Nil? {
      ReadsNothing();
    } else {
      ReadingStep(l);
      AtomSimple(l);
      var q := QuantifierAt(Run(l.tail));
      if !Quantified(l.head) && q.Quantifier? {
        DropFormed(l.tail, q.size);
        DropSteady(l.tail, q.size);
        QuantifierSensible(Run(l.tail));
        ReadsSimple(Drop(l.tail, q.size));
      } else {
        ReadsSimple(l.tail);
      }
    }
  }

  lemma QuantifierSensible(t: string)
    ensures var q := QuantifierAt(t); q.Quantifier? && q.times.hi.Some? ==> q.times.lo <= q.times.hi.value
  {
  }

  lemma {:induction false} CopiesNoNewline(w: string, n: nat)
    requires '\n' !in w
    ensures '\n' !in Copies(w, n)
  {
    if n > 0 {
      CopiesNoNewline(w, n - 1);
    }
  }

  lemma {:induction false} LeastNoNewline(ps: List<Piece>)
    requires Simple(ps)
    ensures '\n' !in Least(ps)
  {
    if ps.Cons? {
      LeastNoNewline(ps.tail);
      if ps.head.atom.Char? {
        CopiesOf(ps.head.atom.c, ps.head.times.lo);
      } else if ps.head.atom.Dot? {
        CopiesOf('x', ps.head.times.lo);
      } else {
        CopiesNoNewline(SampleOf(ps.head.atom), ps.head.times.lo);
      }
    }
  }

  // ---- the pattern does not match it ----

  // A pattern that matches s matches the characters it begins with, and the rest behind them.
  lemma {:induction false} RunMatches(l: List<Glob>, n: nat, s: string)
    requires n <= |Run(l)| && GlobMatches(l, s)
    ensures n <= |s| && s[..n] == Run(l)[..n] && GlobMatches(Drop(l, n), s[n..])
    decreases n
  {
    if n == 0 {
      assert s[0..] == s;
    } else {
      RunMatches(l.tail, n - 1, s[1..]);
      assert s[..n] == [s[0]] + s[1..][..n - 1];
      assert Run(l)[..n] == [l.head.c] + Run(l.tail)[..n - 1];
      assert s[1..][n - 1..] == s[n..];
    }
  }

  // What a quantifier in a pattern consists of.
  lemma QuantifierText(l: List<Glob>)
    requires Formed(l) && QuantifierAt(Run(l)).Quantifier?
    ensures var (q, t) := (QuantifierAt(Run(l)), Run(l));
            if t[0] == '{' then q.size >= 3 && t[q.size - 1] == '}' else q.size == 1 && q.times.lo == 1
  {
  }

  // With something active behind it, or with a beginning cut off, the text is too short.
  lemma {:induction false} TooShort(l: List<Glob>, i: nat)
    requires Formed(l) && Steady(l) && Reading(l).Some?
    requires i <= |Least(Reading(l).value)| && (i > 0 || Active(l))
    ensures !GlobMatches(l, Least(Reading(l).value)[i..])
    decreases l, 1
  {
    hide GlobMatches, Run, Drop, Reading, QuantifierAt, Active, Least;
    if l.Nil? {
      ReadsNothing();
      LeastStep(Nil);
      NilInactive();
    } else if l.head.Group? {
      GroupTooShort(l, i);
    } else {
      ReadingStep(l);
      ActiveStep(l);
      var ps := Reading(l).value;
      LeastStep(ps);
      if l.head.AnyText? {
        StarTooShort(l, i);
      } else if QuantifierAt(Run(l.tail)).NoQuantifier? {
        CharTooShort(l, i);
      } else {
        QuantifiedTooShort(l, i);
      }
    }
  }

  lemma GroupCut(l: List<Glob>, s: string) returns (k: nat)
    requires l.Cons? && l.head.Group? && GlobMatches(l, s)
    ensures k <= |s| && GroupMatches(l.head.kind, l.head.alts, s[..k]) && GlobMatches(l.tail, s[k..])
  {
    k :| 0 <= k <= |s| && GroupMatches(l.head.kind, l.head.alts, s[..k]) && GlobMatches(l.tail, s[k..]);
  }

  lemma GroupActive(l: List<Glob>)
    requires l.Cons? && l.head.Group? && SteadyGroup(l)
    ensures Active(l) <==> Active(l.tail)
  {
    assert Run(l) == "";
  }

  lemma PlusBehind(l: List<Glob>)
    requires l.Cons? && l.head.Group? && SteadyGroup(l) && QuantifierAt(Run(l.tail)).Quantifier?
    ensures Run(l.tail) != "" && QuantifierAt(Run(l.tail)) == Quantifier(Times(1, None), 1)
  {
  }

  // What a group is read as, and the least text then.
  lemma GroupReading(l: List<Glob>) returns (times: Times, behind: List<Glob>, plus: bool)
    requires Formed(l) && Steady(l) && l.Cons? && l.head.Group? && Reading(l).Some?
    ensures Reading(behind).Some? && Formed(behind) && Steady(behind) && behind < l
    ensures times.lo == TimesOf(l.head.kind).lo
    ensures Least(Reading(l).value) ==
            Copies(Shortest(PiecesOf(l.head.alts)), times.lo) + Least(Reading(behind).value)
    ensures if plus then Run(l.tail) != "" && behind == Drop(l.tail, 1) else behind == l.tail
  {
    hide GlobMatches, Run, Drop, Reading, QuantifierAt, Least, Shortest, Sampled;
    ReadingStep(l);
    AtomSimple(l);
    LeastStep(Reading(l).value);
    var q := QuantifierAt(Run(l.tail));
    plus := !Quantified(l.head) && q.Quantifier?;
    if plus {
      PlusBehind(l);
      DropFormed(l.tail, 1);
      DropSteady(l.tail, 1);
      times, behind := q.times, Drop(l.tail, 1);
    } else {
      times, behind := TimesOf(l.head.kind), l.tail;
    }
  }

  lemma {:induction false} GroupTooShort(l: List<Glob>, i: nat)
    requires Formed(l) && Steady(l) && l.Cons? && l.head.Group? && Reading(l).Some?
    requires i <= |Least(Reading(l).value)| && (i > 0 || Active(l))
    ensures !GlobMatches(l, Least(Reading(l).value)[i..])
    decreases l, 0
  {
    hide GlobMatches, GroupMatches, Run, Drop, Reading, Active, Least, Shortest, Copies;
    var x := Least(Reading(l).value);
    var times, behind, plus := GroupReading(l);
    var n, rest := |Copies(Shortest(PiecesOf(l.head.alts)), times.lo)|, Least(Reading(behind).value);
    GroupActive(l);
    if GlobMatches(l, x[i..]) {
      var k := GroupCut(l, x[i..]);
      AltsFormed(l);
      GroupSize(l.head.kind, l.head.alts, x[i..][..k]);
      assert x[i..][k..] == x[i + k..];
      if plus {
        RunMatches(l.tail, 1, x[i + k..]);
        assert x[i + k..][1..] == x[i + k + 1..] == rest[i + k + 1 - n..];
        TooShort(behind, i + k + 1 - n);
      } else {
        assert x[i + k..] == rest[i + k - n..];
        TooShort(behind, i + k - n);
      }
    }
  }

  lemma NilInactive()
    ensures !Active(Nil)
  {
  }

  lemma LeastStep(ps: List<Piece>)
    ensures ps.Nil? ==> Least(ps) == ""
    ensures ps.Cons? ==> Least(ps) == Copies(SampleOf(ps.head.atom), ps.head.times.lo) + Least(ps.tail)
  {
  }

  lemma ActiveStep(l: List<Glob>)
    requires l.Cons? && !l.head.Group?
    ensures Active(l) <==> ActiveHere(l) || Active(l.tail)
  {
    hide QuantifierAt, Run;
  }

  lemma {:induction false} StarTooShort(l: List<Glob>, i: nat)
    requires Formed(l) && Steady(l) && l.Cons? && l.head.AnyText? && Reading(l).Some? && Reading(l.tail).Some?
    requires Least(Reading(l).value) == Least(Reading(l.tail).value)
    requires i <= |Least(Reading(l).value)| && (i > 0 || Active(l.tail))
    ensures !GlobMatches(l, Least(Reading(l).value)[i..])
    decreases l, 0
  {
    var x := Least(Reading(l.tail).value);
    forall k | 0 <= k <= |x| - i ensures !GlobMatches(l.tail, x[i..][k..]) {
      TooShort(l.tail, i + k);
      assert x[i..][k..] == x[i + k..];
    }
    hide Reading, Least, Active;
  }

  lemma {:induction false} CharTooShort(l: List<Glob>, i: nat)
    requires Formed(l) && Steady(l) && l.Cons? && !l.head.AnyText? && !l.head.Group?
    requires Reading(l).Some? && Reading(l.tail).Some?
    requires Least(Reading(l).value) == Copies(SampleOf(AtomFor(l.head).value), 1) + Least(Reading(l.tail).value)
    requires QuantifierAt(Run(l)) == NoQuantifier
    requires i <= |Least(Reading(l).value)| && (i > 0 || Active(l.tail) || ActiveHere(l))
    ensures !GlobMatches(l, Least(Reading(l).value)[i..])
    decreases l, 0
  {
    hide GlobMatches, Run, Reading, QuantifierAt, Active, Least;
    var x, rest := Least(Reading(l).value), Least(Reading(l.tail).value);
    var w := SampleOf(AtomFor(l.head).value);
    assert Copies(w, 1) == w + Copies(w, 0) == w;
    if GlobMatches(l, x[i..]) {
      var _ := StepCut(l, x[i..]);
      var j := i + 1 - |w|;
      assert x[i..][1..] == rest[j..];
      if i > 0 || |w| == 0 || Active(l.tail) {
        TooShort(l.tail, j);
      }
    }
  }

  lemma {:induction false} QuantifiedTooShort(l: List<Glob>, i: nat)
    requires Formed(l) && Steady(l) && l.Cons? && !l.head.AnyText? && !l.head.Group? && Reading(l).Some?
    requires var q := QuantifierAt(Run(l.tail));
             && q.Quantifier? && AtomFor(l.head).value != Start && Reading(Drop(l.tail, q.size)).Some?
             && Least(Reading(l).value) == Copies(SampleOf(AtomFor(l.head).value), q.times.lo) +
                Least(Reading(Drop(l.tail, q.size)).value)
    requires i <= |Least(Reading(l).value)|
    ensures !GlobMatches(l, Least(Reading(l).value)[i..])
    decreases l, 0
  {
    hide GlobMatches, Run, Drop, Reading, QuantifierAt, Active, Least, Copies, Formed, AtomFor, SampleOf;
    var q := QuantifierAt(Run(l.tail));
    var behind := Drop(l.tail, q.size);
    var x, rest := Least(Reading(l).value), Least(Reading(behind).value);
    var c := OneSample(l.head);
    CopiesOf(c, q.times.lo);
    if GlobMatches(l, x[i..]) {
      QuantifiedMatches(l, x[i..]);
      Shifted(x, i, 1 + q.size, q.size);
      Beyond(x, rest, c, q.times.lo, i, q.size, Run(l.tail));
      TooShort(behind, i + 1 + q.size - q.times.lo);
    }
  }

  lemma OneSample(g: Glob) returns (c: char)
    requires !g.AnyText? && !g.Group? && AtomFor(g).value != Start
    ensures SampleOf(AtomFor(g).value) == [c]
  {
    c := SampleOf(AtomFor(g).value)[0];
  }

  lemma Shifted(x: string, i: nat, n: nat, size: nat)
    requires i <= |x| && n <= |x[i..]| && n == 1 + size
    ensures x[i..][n..] == x[i + n..] && x[i..][1..n] == x[i + 1..i + 1 + size]
  {
  }

  lemma QuantifiedMatches(l: List<Glob>, s: string)
    requires Formed(l) && Steady(l) && l.Cons? && !l.head.AnyText? && !l.head.Group? && GlobMatches(l, s)
    requires QuantifierAt(Run(l.tail)).Quantifier?
    ensures var (q, run) := (QuantifierAt(Run(l.tail)), Run(l.tail));
            && 1 + q.size <= |s| && s[1..1 + q.size] == run[..q.size] &&
               GlobMatches(Drop(l.tail, q.size), s[1 + q.size..])
            && Formed(Drop(l.tail, q.size)) && Steady(Drop(l.tail, q.size))
            && if run[0] == '{' then q.size >= 3 && run[q.size - 1] == '}' else q.size == 1 && q.times.lo == 1
  {
    hide GlobMatches, Run, Drop, QuantifierAt;
    var q := QuantifierAt(Run(l.tail));
    var _ := StepCut(l, s);
    QuantifierText(l.tail);
    RunMatches(l.tail, q.size, s[1..]);
    DropFormed(l.tail, q.size);
    DropSteady(l.tail, q.size);
    assert s[1..][..q.size] == s[1..1 + q.size] && s[1..][q.size..] == s[1 + q.size..];
  }

  // The characters of a quantifier are not all the same, so they reach beyond the copies.
  lemma Beyond(x: string, rest: string, c: char, lo: nat, i: nat, size: nat, run: string)
    requires |x| == lo + |rest| && (forall k :: 0 <= k < lo ==> x[k] == c) && x[lo..] == rest
    requires 0 < size <= |run| && i + 1 + size <= |x| && x[i + 1..i + 1 + size] == run[..size]
    requires if run[0] == '{' then size >= 3 && run[size - 1] == '}' else size == 1 && lo == 1
    ensures i + 1 + size > lo
    ensures x[i + 1 + size..] == rest[i + 1 + size - lo..]
  {
    if run[0] == '{' {
      assert x[i + 1..i + 1 + size][0] == run[..size][0] && x[i + 1..i + 1 + size][size - 1] == run[..size][size - 1];
      assert x[i + 1] == '{' && x[i + size] == '}';
    }
    assert x == x[..lo] + rest;
  }

  // ---- the regular expression does, or it matches nothing at all ----

  predicate NoAnchor(ps: List<Piece>) {
    ps.Cons? ==> !ps.head.atom.Start? && NoAnchor(ps.tail)
  }

  // No anchor stands behind a piece that cannot be empty.
  predicate AnchorsFirst(ps: List<Piece>) {
    ps.Cons? ==>
      if SampleOf(ps.head.atom) == "" || ps.head.times.lo == 0 then AnchorsFirst(ps.tail) else NoAnchor(ps.tail)
  }

  lemma {:induction false} CopiesRepeat(p: Piece, w: string, start: bool)
    requires (p.times.hi.Some? ==> p.times.lo <= p.times.hi.value)
    requires forall b :: AtomMatches(p.atom, w, b)
    ensures Repeats(p, Copies(w, p.times.lo), start)
    decreases p.times.lo
  {
    var s := Copies(w, p.times.lo);
    if p.times.lo > 0 {
      var p' := Piece(p.atom, Fewer(p.times));
      CopiesRepeat(p', w, start && |w| == 0);
      assert s[..|w|] == w && s[|w|..] == Copies(w, p.times.lo - 1);
      hide AtomMatches;
      assert OneMore(p, s, start, |w|);
    }
  }

  lemma {:induction false} LeastMatches(ps: List<Piece>, start: bool)
    requires Simple(ps) && (NoAnchor(ps) || (start && AnchorsFirst(ps)))
    ensures RegexMatches(ps, Least(ps), start)
    decreases ps
  {
    if ps.Cons? {
      var p := ps.head;
      var w := Copies(SampleOf(p.atom), p.times.lo);
      var s := Least(ps);
      assert s[..|w|] == w && s[|w|..] == Least(ps.tail);
      if p.atom.Start? {
        CopiesOfNothing(1);
        OnceIs(Start, w, start);
      } else {
        if SampleOf(p.atom) == "" {
          CopiesOfNothing(p.times.lo);
        }
        CopiesRepeat(p, SampleOf(p.atom), start);
      }
      LeastMatches(ps.tail, start && |w| == 0);
      hide Repeats;
      PieceFirst(ps, s, |w|, start);
    }
  }

  lemma PieceFirst(ps: List<Piece>, s: string, k: nat, start: bool)
    requires ps.Cons? && k <= |s| && Repeats(ps.head, s[..k], start) && RegexMatches(ps.tail, s[k..], start && k == 0)
    ensures RegexMatches(ps, s, start)
  {
    hide Repeats;
  }

  lemma PieceCut(ps: List<Piece>, s: string, start: bool) returns (k: nat)
    requires ps.Cons? && RegexMatches(ps, s, start)
    ensures k <= |s| && Repeats(ps.head, s[..k], start) && RegexMatches(ps.tail, s[k..], start && k == 0)
  {
    k :| 0 <= k <= |s| && Repeats(ps.head, s[..k], start) && RegexMatches(ps.tail, s[k..], start && k == 0);
  }

  // An anchor that is not at the start of the text matches nothing.
  lemma {:induction false} AnchorBlocks(ps: List<Piece>, s: string)
    requires Simple(ps) && !NoAnchor(ps)
    ensures !RegexMatches(ps, s, false)
    decreases ps
  {
    if RegexMatches(ps, s, false) {
      var k := PieceCut(ps, s, false);
      if ps.head.atom.Start? {
        OnceIs(Start, s[..k], false);
      } else {
        AnchorBlocks(ps.tail, s[k..]);
      }
    }
  }

  lemma {:induction false} AnchorsBlock(ps: List<Piece>, s: string)
    requires Simple(ps) && !AnchorsFirst(ps)
    ensures !RegexMatches(ps, s, true)
    decreases ps
  {
    hide Repeats, RegexMatches, AtomMatches;
    if RegexMatches(ps, s, true) {
      var k := PieceCut(ps, s, true);
      PieceSize(ps.head, s[..k]);
      if k == 0 {
        AnchorsBlock(ps.tail, s[k..]);
      } else {
        NotFirst(ps.tail);
        AnchorBlocks(ps.tail, s[k..]);
      }
    }
  }

  lemma PieceSize(p: Piece, s: string)
    requires Sampled(p.atom) && Repeats(p, s, true) && (p.atom.Start? ==> p.times == ONCE)
    ensures p.atom.Start? ==> s == []
    ensures SampleOf(p.atom) != "" && p.times.lo > 0 ==> s != []
  {
    if p.atom.Start? {
      OnceIs(Start, s, true);
    } else if p.times.lo > 0 {
      var k := RepeatsMore(p, s, true);
    }
  }

  lemma {:induction false} NotFirst(ps: List<Piece>)
    ensures NoAnchor(ps) ==> AnchorsFirst(ps)
  {
    if ps.Cons? {
      NotFirst(ps.tail);
    }
  }

  // ---- the theorem ----

  lemma {:induction false} FlatSurvives(l: List<Glob>)
    requires Flat(l)
    ensures AllSurvive(l) && Demote(l) == l
  {
    if l.Cons? {
      FlatSurvives(l.tail);
    }
  }

  // Such a pattern is converted to a regular expression that matches the same texts without
  // newlines exactly if it has no unprotected dot, caret, plus sign or brace quantifier.
  lemma ActiveExact(t: string, u: bool)
    requires ParseGlob(t).Some? && Steady(ParseGlob(t).value) && AllSurvive(ParseGlob(t).value)
    ensures KeepsLines(t, u) <==> !Active(ParseGlob(t).value)
  {
    hide GlobMatches, RegexMatches, Reading, Active, Convert, AllSurvive, Demote;
    var l := ParseGlob(t).value;
    ParsedFormed(t);
    if !Active(l) {
      ConversionKeepsLanguage(t, u);
    } else {
      ConversionReads(t, u);
      var m := Demote(l);
      DemoteFormed(l);
      DemoteSteady(l);
      DemoteActive(l);
      if Reading(m).None? {
        assert !Agrees(t, u, "");
      } else {
        var s := Distinguished(m);
        DemotedAlike(l, s);
        assert !Agrees(t, u, s);
      }
    }
  }

  // A pattern without groups is one.
  lemma FlatExact(t: string, u: bool)
    requires ParseGlob(t).Some? && Flat(ParseGlob(t).value)
    ensures KeepsLines(t, u) <==> !Active(ParseGlob(t).value)
  {
    hide KeepsLines, Active;
    FlatIsSteady(ParseGlob(t).value);
    FlatSurvives(ParseGlob(t).value);
    ActiveExact(t, u);
  }

  // A text without newlines that the pattern matches, with groups, too.
  function Whole(l: List<Glob>): string
    requires Formed(l)
  {
    if l.Nil? then "" else
      assert FormedOne(l.head);
      (if l.head.Group? then Plain(l.head.alts[0]) else Plain(Cons(l.head, Nil))) + Whole(l.tail)
  }

  lemma {:induction false} WholeMatches(l: List<Glob>)
    requires Formed(l)
    ensures GlobMatches(l, Whole(l)) && '\n' !in Whole(l)
  {
    if l.Cons? {
      WholeMatches(l.tail);
      var s, rest := Whole(l), Whole(l.tail);
      if l.head.Group? {
        var alts := l.head.alts;
        AltFormed(alts, 0);
        PlainMatches(alts[0]);
        var w := Plain(alts[0]);
        assert s[..|w|] == w && s[|w|..] == rest;
        hide GlobMatches, GroupMatches, OneMatches;
        MatchesOne(alts, 0, w);
        OneWordMatches(l.head.kind, alts, w);
        GroupFirst(l, s, |w|);
      } else {
        assert Plain(Cons(l.head, Nil)) == Plain(Cons(l.head, Nil))[..1] + Plain(Nil) && Plain(Nil) == "";
        assert s[1..] == rest && s[0] == Plain(Cons(l.head, Nil))[0];
        PlainMatches(Cons(l.head, Nil));
      }
    }
  }

  // A text on which an active pattern and its regular expression differ.
  lemma Distinguished(l: List<Glob>) returns (s: string)
    requires Formed(l) && Steady(l) && Active(l) && Reading(l).Some?
    ensures '\n' !in s && (GlobMatches(l, s) <==> !RegexMatches(Reading(l).value, s, true))
  {
    hide GlobMatches, RegexMatches, Reading, Active, Least;
    var ps := Reading(l).value;
    ReadsSimple(l);
    if AnchorsFirst(ps) {
      s := Least(ps);
      LeastNoNewline(ps);
      TooShort(l, 0);
      assert s[0..] == s;
      LeastMatches(ps, true);
    } else {
      s := Whole(l);
      WholeMatches(l);
      AnchorsBlock(ps, s);
    }
  }
}
