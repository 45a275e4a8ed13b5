/** How often a loop goes round, and how it ends: its rounds, said of the runs of its parts. */
module ShellLoops {
  import opened ShellSemantics
  import opened ShellMachine
  import opened ShellBranches

  // A body that came out so is followed by the next round: a continue for this loop is over.
  predicate GoesOn(o: Outcome) { o == Normal || o == Continue(1) }

  // A break or continue for n loops is one for the n - 1 around them, once a loop is left.
  predicate OneLoopLess(o: Outcome, o': Outcome) {
    match o
    case Break(n) => if n == 1 then o' == Normal else o'.Break? && o'.n == n - 1
    case Continue(n) => if n == 1 then o' == Normal else o'.Continue? && o'.n == n - 1
    case _ => o' == o
  }

  // The loop is left with r, by what came out as b.
  predicate LeftBy(b: Res, r: Res) {
    if b.o == Exit || b.o == Unfinished then r == b
    else OneLoopLess(b.o, r.o) && r.level == b.level - 1 && r.trace == b.trace && r.status == b.status
  }

  // The loop is over, with the status of the last body.
  predicate Finished(s: Res, t: Trace, status: int, r: Res) {
    r.o == Normal && r.status == status && r.trace == t && r.level == s.level - 1
  }

  // ---- for name in words ----

  // The k-th round of n takes s to s'.
  predicate ForRound(w: World, id: nat, action: Command, ex: bool, fuel: nat, n: nat, k: nat, s: Res, s': Res) {
    && k < n
    && var b := Sem(w, action, ex, s.trace + [Bound(id, k)], s.level, fuel);
       GoesOn(b.o) && s' == b.(o := Normal)
  }

  // There is no k-th round, or it is the last one, and the loop ends with r.
  predicate ForEnds(w: World, id: nat, action: Command, ex: bool, fuel: nat, n: nat, k: nat, s: Res, r: Res) {
    if k == n then Finished(s, s.trace, s.status, r)
    else
      var b := Sem(w, action, ex, s.trace + [Bound(id, k)], s.level, fuel);
      !GoesOn(b.o) && LeftBy(b, r)
  }

  predicate ForPath(w: World, id: nat, action: Command, ex: bool, fuel: nat, n: nat, k: nat, ss: seq<Res>, r: Res)
    decreases |ss|
  {
    && |ss| > 0
    && if |ss| == 1 then ForEnds(w, id, action, ex, fuel, n, k, ss[0], r)
       else
         && ForRound(w, id, action, ex, fuel, n, k, ss[0], ss[1])
         && ForPath(w, id, action, ex, fuel, n, k + 1, ss[1..], r)
  }

  // The words are expanded once; then the body is run for each, in order, until it does not go on.
  lemma ForRuns(w: World, id: nat, invert: bool, action: Command, exempt: bool, t: Trace, level: nat, fuel: nat)
    returns (ss: seq<Res>, r: Res)
    ensures var n := w.words(t, id);
            && ForPath(w, id, action, exempt || (w.errexit && invert), fuel, n, 0, ss, r)
            && ss[0] == Res(Normal, 0, t + [Words(id, n)], level + 1)
    ensures Like(Sem(w, For(id, invert, action), exempt, t, level, fuel), r, invert)
  {
    hide Sem, ForFrom;
    var ex, n := exempt || (w.errexit && invert), w.words(t, id);
    SemIs(w, For(id, invert, action), exempt, t, level, fuel);
    var s := Res(Normal, 0, t + [Words(id, n)], level + 1);
    r := ForFrom(w, id, action, 0, n, ex, s, fuel);
    ss := ForPathFrom(w, id, action, 0, n, ex, s, fuel);
  }

  lemma {:induction false} ForPathFrom(w: World, id: nat, action: Command, k: nat, n: nat, ex: bool, s: Res, fuel: nat)
    returns (ss: seq<Res>)
    requires k <= n && s.level > 0 && s.o == Normal
    ensures ForPath(w, id, action, ex, fuel, n, k, ss, ForFrom(w, id, action, k, n, ex, s, fuel)) && ss[0] == s
    decreases n - k
  {
    hide Sem;
    ss := [s];
    if k < n {
      var b := Sem(w, action, ex, s.trace + [Bound(id, k)], s.level, fuel);
      if GoesOn(b.o) {
        var rest := ForPathFrom(w, id, action, k + 1, n, ex, b.(o := Normal), fuel);
        ss := [s] + rest;
        assert ss[1..] == rest;
        assert ForRound(w, id, action, ex, fuel, n, k, s, rest[0]);
      }
    }
  }

  // ---- for ((init; test; update)) ----

  function TestedAt(w: World, id: nat, s: Res): Trace {
    s.trace + [Eval(id, Test, w.arith(s.trace, id, Test).0, w.arith(s.trace, id, Test).1)]
  }

  function UpdatedAt(w: World, id: nat, b: Res): Trace {
    b.trace + [Eval(id, Update, w.arith(b.trace, id, Update).0, w.arith(b.trace, id, Update).1)]
  }

  // The test is good and not 0, the body goes on, and the update is good.
  predicate ArithRound(w: World, id: nat, action: Command, ex: bool, fuel: nat, s: Res, s': Res) {
    && fuel > 0 && w.arith(s.trace, id, Test).0 && w.arith(s.trace, id, Test).1 != 0
    && var b := Sem(w, action, ex, TestedAt(w, id, s), s.level, fuel - 1);
       && GoesOn(b.o) && w.arith(b.trace, id, Update).0
       && s' == b.(o := Normal, trace := UpdatedAt(w, id, b))
  }

  // The test is bad or 0, or the body does not go on, or the update is bad; a bad expression fails.
  predicate ArithEnds(w: World, id: nat, action: Command, ex: bool, fuel: nat, s: Res, r: Res) {
    if fuel == 0 then r == s.(o := Unfinished)
    else if !w.arith(s.trace, id, Test).0 then Finished(s, TestedAt(w, id, s), 1, r)
    else if w.arith(s.trace, id, Test).1 == 0 then Finished(s, TestedAt(w, id, s), s.status, r)
    else
      var b := Sem(w, action, ex, TestedAt(w, id, s), s.level, fuel - 1);
      if GoesOn(b.o) then !w.arith(b.trace, id, Update).0 && Finished(b, UpdatedAt(w, id, b), 1, r)
      else LeftBy(b, r)
  }

  predicate ArithPath(w: World, id: nat, action: Command, ex: bool, fuel: nat, ss: seq<Res>, r: Res)
    decreases |ss|
  {
    && |ss| > 0
    && if |ss| == 1 then ArithEnds(w, id, action, ex, fuel, ss[0], r)
       else
         && ArithRound(w, id, action, ex, fuel, ss[0], ss[1])
         && ArithPath(w, id, action, ex, fuel - 1, ss[1..], r)
  }

  // A bad first expression ends the command at once, one loop deeper than it began.
  lemma ArithForRuns(w: World, id: nat, invert: bool, action: Command, exempt: bool, t: Trace, level: nat, fuel: nat)
    returns (ss: seq<Res>, r: Res)
    ensures var (ok, v) := w.arith(t, id, Init);
            if ok then
              && ArithPath(w, id, action, exempt || (w.errexit && invert), fuel, ss, r)
              && ss[0] == Res(Normal, 0, t + [Eval(id, Init, ok, v)], level + 1)
            else r == Res(Normal, 1, t + [Eval(id, Init, ok, v)], level + 1)
    ensures Like(Sem(w, ArithFor(id, invert, action), exempt, t, level, fuel), r, invert)
  {
    hide Sem, ArithFrom, ArithPath;
    var ex := exempt || (w.errexit && invert);
    SemIs(w, ArithFor(id, invert, action), exempt, t, level, fuel);
    var (ok, v) := w.arith(t, id, Init);
    var s := Res(Normal, 0, t + [Eval(id, Init, ok, v)], level + 1);
    ss := [s];
    if ok {
      r := ArithFrom(w, id, action, ex, s, fuel);
      ss := ArithPathFrom(w, id, action, ex, s, fuel);
    } else {
      r := s.(status := 1);
    }
  }

  lemma {:induction false} ArithPathFrom(w: World, id: nat, action: Command, ex: bool, s: Res, fuel: nat)
    returns (ss: seq<Res>)
    requires s.level > 0 && s.o == Normal
    ensures ArithPath(w, id, action, ex, fuel, ss, ArithFrom(w, id, action, ex, s, fuel)) && ss[0] == s
    decreases fuel
  {
    hide Sem, ArithFrom, ArithAfter;
    ss := [s];
    if fuel == 0 {
      OutOfRounds(w, id, Testing(0, true, Null, Null, true), action, ex, s);
    } else {
      ArithFromIs(w, id, action, ex, s, fuel);
      var b := Sem(w, action, ex, TestedAt(w, id, s), s.level, fuel - 1);
      if w.arith(s.trace, id, Test).0 && w.arith(s.trace, id, Test).1 != 0 {
        ArithAfterIs(w, id, action, ex, b, fuel - 1);
        if GoesOn(b.o) && w.arith(b.trace, id, Update).0 {
          var next := b.(o := Normal, trace := UpdatedAt(w, id, b));
          var rest := ArithPathFrom(w, id, action, ex, next, fuel - 1);
          ss := [s] + rest;
          assert ss[1..] == rest;
          assert ArithRound(w, id, action, ex, fuel, s, rest[0]);
        }
      }
    }
  }

  // ---- while and until ----

  function TestOf(w: World, l: Testing, s: Res, fuel: nat): Res {
    Sem(w, l.test, true, s.trace, s.level, fuel)
  }

  // The body behind a test that came out as c; it is left out if the test says break or continue.
  function BodyOf(w: World, l: Testing, c: Res, fuel: nat): Res {
    if c.o == Normal then Sem(w, l.action, l.exempt, c.trace, c.level, fuel) else c
  }

  // The test says that there is another round: 0 for while, anything else for until.
  predicate Once(l: Testing, c: Res) {
    if l.until then c.status != 0 else c.status == 0
  }

  predicate Round(w: World, l: Testing, fuel: nat, s: Res, s': Res) {
    && fuel > 0
    && var c := TestOf(w, l, s, fuel - 1);
       && c.o != Exit && c.o != Unfinished && Once(l, c)
       && var b := BodyOf(w, l, c, fuel - 1);
          GoesOn(b.o) && s' == b.(o := Normal)
  }

  // The test ends the loop, with the status of the last body; the loop takes its part of a break
  // that the test said, but not of a continue.  Or the body does not go on.
  predicate RoundEnds(w: World, l: Testing, fuel: nat, s: Res, r: Res) {
    if fuel == 0 then r == s.(o := Unfinished)
    else
      var c := TestOf(w, l, s, fuel - 1);
      if c.o == Exit || c.o == Unfinished then r == c
      else if Once(l, c) then
        var b := BodyOf(w, l, c, fuel - 1);
        !GoesOn(b.o) && LeftBy(b, r)
      else
        && (if c.o.Continue? then r.o == c.o else OneLoopLess(c.o, r.o))
        && r.trace == c.trace + [TestEnded(l.id, if c.o.Continue? then c.o.n else 0, c.level)]
        && r.level == c.level - 1 && r.status == s.status
  }

  predicate Rounds(w: World, l: Testing, fuel: nat, ss: seq<Res>, r: Res)
    decreases |ss|
  {
    && |ss| > 0
    && if |ss| == 1 then RoundEnds(w, l, fuel, ss[0], r)
       else Round(w, l, fuel, ss[0], ss[1]) && Rounds(w, l, fuel - 1, ss[1..], r)
  }

  lemma LoopRuns(w: World, id: nat, invert: bool, until: bool, test: Command, action: Command,
      exempt: bool, t: Trace, level: nat, fuel: nat)
    returns (ss: seq<Res>, r: Res)
    ensures && Rounds(w, Testing(id, until, test, action, exempt || (w.errexit && invert)), fuel, ss, r)
            && ss[0] == Res(Normal, 0, t, level + 1)
    ensures Like(Sem(w, Loop(id, invert, until, test, action), exempt, t, level, fuel), r, invert)
  {
    hide Sem, LoopFrom, Rounds;
    SemIs(w, Loop(id, invert, until, test, action), exempt, t, level, fuel);
    var l := Testing(id, until, test, action, exempt || (w.errexit && invert));
    r := LoopFrom(w, l, Res(Normal, 0, t, level + 1), fuel);
    ss := RoundsFrom(w, l, Res(Normal, 0, t, level + 1), fuel);
  }

  lemma {:induction false} RoundsFrom(w: World, l: Testing, s: Res, fuel: nat) returns (ss: seq<Res>)
    requires s.level > 0 && s.o == Normal
    ensures Rounds(w, l, fuel, ss, LoopFrom(w, l, s, fuel)) && ss[0] == s
    decreases fuel
  {
    hide Sem, LoopFrom, LoopAfter;
    ss := [s];
    if fuel == 0 {
      OutOfRounds(w, 0, l, Null, true, s);
    } else {
      LoopRoundIs(w, l, s, fuel - 1);
      var c := TestOf(w, l, s, fuel - 1);
      if c.o != Exit && c.o != Unfinished && Once(l, c) {
        var b := BodyOf(w, l, c, fuel - 1);
        LoopAfterIs(w, l, b, fuel - 1);
        if GoesOn(b.o) {
          var rest := RoundsFrom(w, l, b.(o := Normal), fuel - 1);
          ss := [s] + rest;
          assert ss[1..] == rest;
          assert Round(w, l, fuel, s, rest[0]);
        }
      }
    }
  }

  // A loop whose first test ends it leaves no event of its body.
  lemma NoRound(w: World, id: nat, invert: bool, until: bool, test: Command, action: Command,
      exempt: bool, t: Trace, level: nat, fuel: nat)
    requires Distinct(Loop(id, invert, until, test, action)) && fuel > 0
    requires (Sem(w, test, true, t, level + 1, fuel - 1).status == 0) == until
    ensures Untouched(action, t, Sem(w, Loop(id, invert, until, test, action), exempt, t, level, fuel))
  {
    hide Sem, Ids, Round;
    PartsDistinct(Loop(id, invert, until, test, action));
    EventsWithin(w, test, true, t, level + 1, fuel - 1);
    var ss, r := LoopRuns(w, id, invert, until, test, action, exempt, t, level, fuel);
    var l := Testing(id, until, test, action, exempt || (w.errexit && invert));
    OneState(w, l, fuel, ss[0]);
  }

  lemma OneState(w: World, l: Testing, fuel: nat, s: Res)
    requires fuel > 0 && !Once(l, TestOf(w, l, s, fuel - 1))
    ensures forall s' :: !Round(w, l, fuel, s, s')
  {
    hide Sem;
  }
}
