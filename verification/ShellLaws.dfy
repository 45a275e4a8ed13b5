/** What the control structures promise over whole runs: where break and continue can get to,
    what becomes of loop_level, and where exactly set -e ends the shell. */
module ShellLaws {
  import opened ShellSemantics
  import opened ShellMachine

  // The simple commands whose failure ends a shell with set -e: those outside the tests of
  // if, while and until, the parts of && and || but the last, and everything under !.
  function Strict(c: Command, exempt: bool): (s: set<nat>)
    ensures s <= Ids(c) && (exempt ==> s == {})
    decreases c, 1
  {
    if c.Null? then {} else StrictBody(c, exempt || c.invert)
  }

  function StrictBody(c: Command, ex: bool): (s: set<nat>)
    ensures s <= Ids(c) && (ex ==> s == {})
    decreases c, 0
  {
    match c
    case Null => {}
    case Simple(id, _, _) => if ex then {} else {id}
    case For(_, _, action) => Strict(action, ex)
    case ArithFor(_, _, action) => Strict(action, ex)
    case Case(_, _, clauses) => StrictClauses(clauses, ex)
    case Loop(_, _, _, _, action) => Strict(action, ex)
    case If(_, _, _, thn, els) => Strict(thn, ex) + Strict(els, ex)
    case Grp(_, _, body) => Strict(body, ex)
    case Conn(_, _, op, first, second) => Strict(first, ex || op != Semi) + Strict(second, ex)
  }

  function StrictClauses(clauses: Clauses, ex: bool): (s: set<nat>)
    ensures s <= ClauseIds(clauses) && (ex ==> s == {})
    decreases clauses
  {
    match clauses
    case NoClause => {}
    case Clause(action, _, rest) => Strict(action, ex) + StrictClauses(rest, ex)
  }

  // No continue anywhere.
  predicate Steady(c: Command) {
    match c
    case Null => true
    case Simple(_, _, what) => !what.ContinueBuiltin?
    case For(_, _, action) => Steady(action)
    case ArithFor(_, _, action) => Steady(action)
    case Case(_, _, clauses) => SteadyClauses(clauses)
    case Loop(_, _, _, test, action) => Steady(test) && Steady(action)
    case If(_, _, test, thn, els) => Steady(test) && Steady(thn) && Steady(els)
    case Grp(_, _, body) => Steady(body)
    case Conn(_, _, _, first, second) => Steady(first) && Steady(second)
  }

  predicate SteadyClauses(clauses: Clauses) {
    clauses.Clause? ==> Steady(clauses.action) && SteadyClauses(clauses.rest)
  }

  // No continue in the test of a while or until loop.
  predicate Tame(c: Command) {
    match c
    case Null => true
    case Simple(_, _, what) => true
    case For(_, _, action) => Tame(action)
    case ArithFor(_, _, action) => Tame(action)
    case Case(_, _, clauses) => TameClauses(clauses)
    case Loop(_, _, _, test, action) => Steady(test) && Tame(test) && Tame(action)
    case If(_, _, test, thn, els) => Tame(test) && Tame(thn) && Tame(els)
    case Grp(_, _, body) => Tame(body)
    case Conn(_, _, _, first, second) => Tame(first) && Tame(second)
  }

  predicate TameClauses(clauses: Clauses) {
    clauses.Clause? ==> Tame(clauses.action) && TameClauses(clauses.rest)
  }

  predicate BadInit(e: Event) { e.Eval? && e.part == Init && !e.ok }

  // How many arithmetic for loops were given up for a bad first expression.
  function BadInits(t: Trace): nat {
    if t == [] then 0 else BadInits(t[..|t| - 1]) + if BadInit(t[|t| - 1]) then 1 else 0
  }

  // What is claimed of a command: strict and ids are its simple commands that may end the
  // shell and all its nodes; tame and steady are as above.
  datatype Claim = Claim(strict: set<nat>, ids: set<nat>, tame: bool, steady: bool)

  function ClaimOf(w: World, c: Command, exempt: bool): Claim {
    Claim(if w.errexit then Strict(c, exempt) else {}, Ids(c), Tame(c), Steady(c))
  }

  function BodyClaim(w: World, c: Command, ex: bool): Claim {
    Claim(if w.errexit then StrictBody(c, ex) else {}, Ids(c), Tame(c), Steady(c))
  }

  function ClausesClaim(w: World, clauses: Clauses, ex: bool): Claim {
    Claim(if w.errexit then StrictClauses(clauses, ex) else {}, ClauseIds(clauses),
          TameClauses(clauses), SteadyClauses(clauses))
  }

  predicate Fatal(d: Claim, e: Event) {
    e.Run? && e.status != 0 && e.id in d.strict
  }

  // A test that ended its loop with a continue to the outermost loop there was.
  predicate BadTest(e: Event) { e.TestEnded? && e.continuing == e.level }

  predicate Calm(t0: Trace, t1: Trace) {
    forall j :: |t0| <= j < |t1| ==> !BadTest(t1[j])
  }

  predicate InReach(o: Outcome, level: int) {
    (o.Break? ==> o.n <= level) && (o.Continue? ==> o.n <= level)
  }

  // A point of a run: what has happened, loop_level, and whether the counters are in reach.
  datatype Point = Point(trace: Trace, level: int, good: bool)

  function PointOf(r: Res): Point { Point(r.trace, r.level, InReach(r.o, r.level)) }

  // From p to q nothing fatal happens, all at nodes of d; loop_level changes only by bad first
  // expressions, and the counters get out of reach exactly by a bad test.
  predicate Reached(d: Claim, p: Point, q: Point) {
    && p.trace <= q.trace
    && (forall j :: |p.trace| <= j < |q.trace| ==> q.trace[j].id in d.ids && !Fatal(d, q.trace[j]))
    && q.level + BadInits(p.trace) == p.level + BadInits(q.trace)
    && (q.good <==> p.good && Calm(p.trace, q.trace))
  }

  // The shell ends with a failed command that is fatal, the first one.
  predicate Died(d: Claim, t0: Trace, r: Res) {
    var n := |r.trace| - 1;
    && |t0| <= n && t0 <= r.trace[..n]
    && (forall j :: |t0| <= j < n ==> r.trace[j].id in d.ids && !Fatal(d, r.trace[j]))
    && r.trace[n].id in d.ids && Fatal(d, r.trace[n]) && r.status == r.trace[n].status
  }

  predicate Spent(d: Claim, t0: Trace, r: Res) {
    && t0 <= r.trace
    && forall j :: |t0| <= j < |r.trace| ==> r.trace[j].id in d.ids && !Fatal(d, r.trace[j])
  }

  predicate Allowed(d: Claim, o: Outcome, level: int) {
    (d.tame ==> InReach(o, level)) && (d.steady ==> !o.Continue?)
  }

  predicate Sound(d: Claim, p: Point, r: Res) {
    match r.o
    case Exit => Died(d, p.trace, r) && p.good && Calm(p.trace, r.trace)
    case Unfinished => Spent(d, p.trace, r) && p.good && Calm(p.trace, r.trace)
    case _ => Reached(d, p, PointOf(r)) && Allowed(d, r.o, r.level)
  }

  // A claim made of a part carries over to the whole.
  predicate Part(d: Claim, whole: Claim) {
    && d.strict <= whole.strict && d.ids <= whole.ids && d.ids * whole.strict <= d.strict
    && (whole.tame ==> d.tame) && (whole.steady ==> d.steady)
  }

  lemma Widen(d: Claim, whole: Claim, p: Point, r: Res)
    requires Part(d, whole) && Sound(d, p, r)
    ensures Sound(whole, p, r)
  {
    hide Calm, BadInits, InReach;
    forall e: Event | e.id in d.ids ensures Fatal(d, e) <==> Fatal(whole, e) {
      assert e.id in whole.strict ==> e.id in d.ids * whole.strict;
    }
  }

  // What comes after is sound from the beginning.
  lemma Chain(d: Claim, p: Point, q: Point, r: Res)
    requires Reached(d, p, q) && Sound(d, q, r)
    ensures Sound(d, p, r)
  {
    hide BadInits, Fatal, Calm, InReach;
    CalmBoth(p.trace, q.trace, r.trace);
    if r.o == Exit {
      var n := |r.trace| - 1;
      assert forall j :: |p.trace| <= j < |q.trace| ==> r.trace[..n][j] == q.trace[j];
    }
  }

  lemma CalmBoth(t0: Trace, t1: Trace, t2: Trace)
    ensures t0 <= t1 <= t2 ==> (Calm(t0, t2) <==> Calm(t0, t1) && Calm(t1, t2))
  {
    hide BadTest;
  }

  // One event that is no simple command ending.
  lemma OneEvent(d: Claim, p: Point, e: Event)
    requires e.id in d.ids && !Fatal(d, e) && !e.TestEnded?
    ensures Reached(d, p, Point(p.trace + [e], if BadInit(e) then p.level + 1 else p.level, p.good))
  {
    assert (p.trace + [e])[..|p.trace|] == p.trace;
  }

  // set -e, loop_level and the reach of break and continue, for every command.
  lemma {:induction false} Law(w: World, c: Command, exempt: bool, t: Trace, level: nat, fuel: nat)
    requires Distinct(c)
    ensures Sound(ClaimOf(w, c, exempt), Point(t, level, true), Sem(w, c, exempt, t, level, fuel))
    decreases fuel, c, 1
  {
    hide Body, Sem, BadInits, Fatal;
    SemIs(w, c, exempt, t, level, fuel);
    if !c.Null? {
      var ex := exempt || (w.errexit && c.invert);
      BodyLaw(w, c, ex, t, level, fuel);
      assert BodyClaim(w, c, ex) == ClaimOf(w, c, exempt);
    }
  }

  lemma {:induction false} BodyLaw(w: World, c: Command, ex: bool, t: Trace, level: nat, fuel: nat)
    requires !c.Null? && Distinct(c) && (w.errexit && c.invert ==> ex)
    ensures Sound(BodyClaim(w, c, ex), Point(t, level, true), Body(w, c, ex, t, level, fuel))
    decreases fuel, c, 0
  {
    hide Sem, Sound, Part, Reached, ClaimOf, ClausesClaim, ForFrom, ArithFrom, LoopFrom, CaseFrom, BadInits;
    var d := BodyClaim(w, c, ex);
    var p := Point(t, level, true);
    if !c.Simple? {
      Whole(w, c, ex);
    }
    hide BodyClaim;
    match c
    case Simple(_, _, _) => SimpleLaw(w, c, ex, t, level, fuel);
    case Grp(_, _, body) =>
      Law(w, body, ex, t, level, fuel);
      Widen(ClaimOf(w, body, ex), d, p, Sem(w, body, ex, t, level, fuel));
    case Conn(_, _, op, first, second) =>
      var r := Sem(w, first, ex || op != Semi, t, level, fuel);
      Law(w, first, ex || op != Semi, t, level, fuel);
      Widen(ClaimOf(w, first, ex || op != Semi), d, p, r);
      if r.o == Normal {
        Law(w, second, ex, r.trace, r.level, fuel);
        Then(ClaimOf(w, second, ex), d, p, r, Sem(w, second, ex, r.trace, r.level, fuel));
      }
    case If(_, _, test, thn, els) =>
      var r := Sem(w, test, true, t, level, fuel);
      Law(w, test, true, t, level, fuel);
      Widen(ClaimOf(w, test, true), d, p, r);
      if r.o == Normal {
        var part := if r.status == 0 then thn else els;
        Law(w, part, ex, r.trace, r.level, fuel);
        Then(ClaimOf(w, part, ex), d, p, r, Sem(w, part, ex, r.trace, r.level, fuel));
      }
    case Case(id, _, clauses) =>
      CaseLaw(w, d, id, clauses, 0, ex, Res(Normal, 0, t, level), fuel);
    case For(id, _, action) =>
      var n := w.words(t, id);
      OneEvent(d, p, Words(id, n));
      var r := Res(Normal, 0, t + [Words(id, n)], level + 1);
      ForLaw(w, d, id, action, 0, n, ex, r, fuel);
      Chain(d, p, Point(r.trace, level, true), ForFrom(w, id, action, 0, n, ex, r, fuel));
    case ArithFor(id, _, action) =>
      var (ok, v) := w.arith(t, id, Init);
      var e := Eval(id, Init, ok, v);
      OneEvent(d, p, e);
      if ok {
        var r := Res(Normal, 0, t + [e], level + 1);
        ArithLaw(w, d, id, action, ex, r, fuel);
        Chain(d, p, Point(r.trace, level, true), ArithFrom(w, id, action, ex, r, fuel));
      } else {
        Stay(d, p, Res(Normal, 1, t + [e], level + 1));
      }
    case Loop(id, _, until, test, action) =>
      LoopLaw(w, d, Testing(id, until, test, action, ex), Res(Normal, 0, t, level + 1), fuel);
  }

  lemma SimpleLaw(w: World, c: Command, ex: bool, t: Trace, level: nat, fuel: nat)
    requires c.Simple? && (w.errexit && c.invert ==> ex)
    ensures Sound(BodyClaim(w, c, ex), Point(t, level, true), Body(w, c, ex, t, level, fuel))
  {
    hide Sound, Reached, Allowed, InReach, BadInits, Effect;
    var d, p := BodyClaim(w, c, ex), Point(t, level, true);
    var (st, o) := Effect(w, c.what, c.id, t, level);
    var e := Run(c.id, st);
    EffectAllowed(w, c.what, c.id, t, level, d);
    assert d.strict == (if w.errexit && !ex then {c.id} else {}) && d.ids == {c.id};
    if st != 0 && w.errexit && !ex {
      Dies(d, p, e, level);
    } else {
      OneEvent(d, p, e);
      Stay(d, p, Res(o, st, t + [e], level));
    }
  }

  lemma EffectAllowed(w: World, what: Builtin, id: nat, t: Trace, level: nat, d: Claim)
    requires d.steady ==> !what.ContinueBuiltin?
    ensures var (_, o) := Effect(w, what, id, t, level); Allowed(d, o, level) && InReach(o, level) && !Ended(o)
  {
  }

  lemma Dies(d: Claim, p: Point, e: Event, level: nat)
    requires e.id in d.ids && Fatal(d, e) && p.good
    ensures Sound(d, p, Res(Exit, e.status, p.trace + [e], level))
  {
    var t := p.trace + [e];
    assert t[..|t| - 1] == p.trace && t[|t| - 1] == e;
  }

  // The parts of a command make no claims that it does not make.
  lemma Whole(w: World, c: Command, ex: bool)
    requires !c.Null? && Distinct(c)
    ensures var d := BodyClaim(w, c, ex);
            && c.id in d.ids && (!c.Simple? ==> c.id !in d.strict)
            && match c
               case Grp(_, _, body) => Part(ClaimOf(w, body, ex), d)
               case Conn(_, _, op, first, second) =>
                 Part(ClaimOf(w, first, ex || op != Semi), d) && Part(ClaimOf(w, second, ex), d)
               case If(_, _, test, thn, els) =>
                 Part(ClaimOf(w, test, true), d) && Part(ClaimOf(w, thn, ex), d) && Part(ClaimOf(w, els, ex), d)
               case For(_, _, action) => Part(ClaimOf(w, action, ex), d)
               case ArithFor(_, _, action) => Part(ClaimOf(w, action, ex), d)
               case Loop(_, _, _, test, action) =>
                 && Part(ClaimOf(w, test, true), d) && Part(ClaimOf(w, action, ex), d)
                 && (d.tame || d.steady ==> ClaimOf(w, test, true).steady)
               case Case(_, _, clauses) => Part(ClausesClaim(w, clauses, ex), d)
               case _ => true
  {
  }

  lemma Nothing(d: Claim, p: Point)
    ensures Reached(d, p, p)
  {
  }

  // Coming to a normal end.
  lemma Stay(d: Claim, p: Point, r: Res)
    requires Reached(d, p, PointOf(r)) && Allowed(d, r.o, r.level) && !Ended(r.o)
    ensures Sound(d, p, r)
  {
  }

  // A part that follows r, which came out normally.
  lemma Then(part: Claim, d: Claim, p: Point, r: Res, r': Res)
    requires Part(part, d) && r.o == Normal && Sound(d, p, r) && Sound(part, Point(r.trace, r.level, true), r')
    ensures Sound(d, p, r')
  {
    hide Part, Reached;
    Widen(part, d, PointOf(r), r');
    Chain(d, p, PointOf(r), r');
  }

  // One loop less.
  function Outside(p: Point): Point { p.(level := p.level - 1) }

  // Leaving a loop.
  lemma Left(d: Claim, p: Point, b: Res)
    requires b.level > 0 && !Ended(b.o) && Sound(d, p, b) && Positive(b.o)
    ensures Sound(d, Outside(p), Leave(b, Taken(b.o)))
  {
    hide Calm, BadInits, Fatal;
  }

  // A body after which the loop goes on, seen from outside the loop.
  lemma Down(d: Claim, p: Point, r: Res)
    requires Again(r.o) && r.level > 0 && Sound(d, p, r)
    ensures Reached(d, Outside(p), Point(r.trace, r.level - 1, true))
  {
    hide Calm, BadInits, Fatal;
  }

  lemma EndedBelow(d: Claim, p: Point, r: Res)
    requires Ended(r.o) && Sound(d, p, r)
    ensures Sound(d, Outside(p), r)
  {
    hide Calm;
  }

  lemma {:induction false} ForLaw(w: World, d: Claim, id: nat, action: Command, k: nat, n: nat, ex: bool, r: Res,
      fuel: nat)
    requires k <= n && r.level > 0 && Distinct(action) && Part(ClaimOf(w, action, ex), d) && id in d.ids - d.strict
    ensures Sound(d, Point(r.trace, r.level - 1, true), ForFrom(w, id, action, k, n, ex, r, fuel))
    decreases fuel, action, n - k + 1
  {
    hide Sem, Sound, Part, ClaimOf, Distinct, Reached;
    var p := Point(r.trace, r.level - 1, true);
    var r' := ForFrom(w, id, action, k, n, ex, r, fuel);
    if k == n {
      Nothing(d, p);
      Stay(d, p, r');
    } else {
      var e := Bound(id, k);
      var t := r.trace + [e];
      var q := Point(t, r.level, true);
      var b := Sem(w, action, ex, t, r.level, fuel);
      Law(w, action, ex, t, r.level, fuel);
      Widen(ClaimOf(w, action, ex), d, q, b);
      if Ended(b.o) {
        EndedBelow(d, q, b);
      } else if Again(b.o) {
        Down(d, q, b);
        ForLaw(w, d, id, action, k + 1, n, ex, b.(o := Normal), fuel);
        Chain(d, Outside(q), Point(b.trace, b.level - 1, true), r');
      } else {
        Left(d, q, b);
      }
      OneEvent(d, p, e);
      Chain(d, p, Outside(q), r');
    }
  }

  lemma {:induction false} ArithLaw(w: World, d: Claim, id: nat, action: Command, ex: bool, r: Res, fuel: nat)
    requires r.level > 0 && r.o == Normal && Distinct(action) && Part(ClaimOf(w, action, ex), d) &&
             id in d.ids - d.strict
    ensures Sound(d, Point(r.trace, r.level - 1, true), ArithFrom(w, id, action, ex, r, fuel))
    decreases fuel, action, 2
  {
    hide Sem, Part, ClaimOf, Distinct, Reached, ArithFrom, Sound;
    var p := Point(r.trace, r.level - 1, true);
    if fuel == 0 {
      ArithOut(w, d, id, action, ex, r);
    } else {
      ArithFromIs(w, id, action, ex, r, fuel);
      var (ok, v) := w.arith(r.trace, id, Test);
      var e := Eval(id, Test, ok, v);
      var t := r.trace + [e];
      var q := Point(t, r.level, true);
      OneEvent(d, p, e);
      var r' := ArithFrom(w, id, action, ex, r, fuel);
      if ok && v != 0 {
        var b := Sem(w, action, ex, t, r.level, fuel - 1);
        Law(w, action, ex, t, r.level, fuel - 1);
        Widen(ClaimOf(w, action, ex), d, q, b);
        ArithAfterLaw(w, d, id, action, ex, q, b, fuel - 1);
        Chain(d, p, Outside(q), r');
      } else {
        Stay(d, p, r');
      }
    }
  }

  lemma ArithOut(w: World, d: Claim, id: nat, action: Command, ex: bool, r: Res)
    requires r.level > 0
    ensures Sound(d, Point(r.trace, r.level - 1, true), ArithFrom(w, id, action, ex, r, 0))
  {
  }

  lemma {:induction false} ArithAfterLaw(w: World, d: Claim, id: nat, action: Command, ex: bool, p: Point, b: Res,
      fuel: nat)
    requires b.level > 0 && Positive(b.o) && Sound(d, p, b)
    requires Distinct(action) && Part(ClaimOf(w, action, ex), d) && id in d.ids - d.strict
    ensures Sound(d, Outside(p), ArithAfter(w, id, action, ex, b, fuel))
    decreases fuel, action, 3
  {
    hide Part, ClaimOf, Distinct, Reached, Sound, ArithFrom, ArithAfter;
    ArithAfterIs(w, id, action, ex, b, fuel);
    var r' := ArithAfter(w, id, action, ex, b, fuel);
    if Ended(b.o) {
      EndedBelow(d, p, b);
    } else if !Again(b.o) {
      Left(d, p, b);
    } else {
      var (ok, v) := w.arith(b.trace, id, Update);
      var e := Eval(id, Update, ok, v);
      var q := Point(b.trace, b.level - 1, true);
      Down(d, p, b);
      OneEvent(d, q, e);
      if ok {
        ArithLaw(w, d, id, action, ex, b.(o := Normal, trace := b.trace + [e]), fuel);
        Chain(d, q, Point(b.trace + [e], b.level - 1, true), r');
      } else {
        Stay(d, q, r');
      }
      Chain(d, Outside(p), q, r');
    }
  }

  predicate LoopClaim(w: World, d: Claim, l: Testing) {
    && Distinct(l.test) && Distinct(l.action) && l.id in d.ids - d.strict
    && Part(ClaimOf(w, l.test, true), d) && Part(ClaimOf(w, l.action, l.exempt), d)
    && (d.tame || d.steady ==> Steady(l.test))
  }

  lemma {:induction false} LoopLaw(w: World, d: Claim, l: Testing, r: Res, fuel: nat)
    requires r.level > 0 && r.o == Normal && LoopClaim(w, d, l)
    ensures Sound(d, Point(r.trace, r.level - 1, true), LoopFrom(w, l, r, fuel))
    decreases fuel, l.action, 2
  {
    hide Sem, Part, Distinct, Reached, Sound, LoopFrom, LoopAfter, Steady, LeaveByTest;
    var q := Point(r.trace, r.level, true);
    if fuel == 0 {
      LoopOut(w, d, l, r);
    } else {
      LoopRoundIs(w, l, r, fuel - 1);
      var c := Sem(w, l.test, true, r.trace, r.level, fuel - 1);
      Law(w, l.test, true, r.trace, r.level, fuel - 1);
      Widen(ClaimOf(w, l.test, true), d, q, c);
      if Ended(c.o) {
        EndedBelow(d, q, c);
      } else if (c.status == 0) == l.until {
        TestEnds(w, d, l, q, r.status, c);
      } else {
        if c.o == Normal {
          Law(w, l.action, l.exempt, c.trace, c.level, fuel - 1);
          Then(ClaimOf(w, l.action, l.exempt), d, q, c, Sem(w, l.action, l.exempt, c.trace, c.level, fuel - 1));
        }
        LoopAfterLaw(w, d, l, q,
                     if c.o == Normal then Sem(w, l.action, l.exempt, c.trace, c.level, fuel - 1) else c, fuel - 1);
      }
    }
  }

  lemma TestEnds(w: World, d: Claim, l: Testing, p: Point, status: int, c: Res)
    requires c.level > 0 && !Ended(c.o) && Positive(c.o) && l.id in d.ids - d.strict
    requires d.tame || d.steady ==> Steady(l.test)
    requires Sound(ClaimOf(w, l.test, true), p, c) && Sound(d, p, c)
    ensures Sound(d, Outside(p), LeaveByTest(l, status, c))
  {
    hide Steady, BadInits, Calm, Fatal, Tame, Strict, Ids;
    var e := TestEnded(l.id, Pending(c.o), c.level);
    var r := LeaveByTest(l, status, c);
    CalmBoth(p.trace, c.trace, r.trace);
    TestEvent(d, c.trace, e);
    assert r.trace == c.trace + [e] && r.trace[|c.trace|] == e;
    assert forall j :: 0 <= j < |c.trace| ==> r.trace[j] == c.trace[j];
  }

  lemma TestEvent(d: Claim, t: Trace, e: Event)
    requires e.TestEnded?
    ensures !Fatal(d, e) && BadInits(t + [e]) == BadInits(t)
    ensures Calm(t, t + [e]) <==> !BadTest(e)
  {
    assert (t + [e])[..|t|] == t && (t + [e])[|t|] == e;
  }

  lemma LoopOut(w: World, d: Claim, l: Testing, r: Res)
    requires r.level > 0
    ensures Sound(d, Point(r.trace, r.level - 1, true), LoopFrom(w, l, r, 0))
  {
  }

  lemma {:induction false} LoopAfterLaw(w: World, d: Claim, l: Testing, p: Point, b: Res, fuel: nat)
    requires b.level > 0 && Positive(b.o) && Sound(d, p, b) && LoopClaim(w, d, l)
    ensures Sound(d, Outside(p), LoopAfter(w, l, b, fuel))
    decreases fuel, l.action, 3
  {
    hide Reached, Sound, LoopFrom, LoopAfter, LoopClaim;
    LoopAfterIs(w, l, b, fuel);
    if Ended(b.o) {
      EndedBelow(d, p, b);
    } else if !Again(b.o) {
      Left(d, p, b);
    } else {
      Down(d, p, b);
      LoopLaw(w, d, l, b.(o := Normal), fuel);
      Chain(d, Outside(p), Point(b.trace, b.level - 1, true), LoopFrom(w, l, b.(o := Normal), fuel));
    }
  }

  lemma ClausesPart(w: World, d: Claim, clauses: Clauses, ex: bool)
    requires clauses.Clause? && DistinctClauses(clauses) && Part(ClausesClaim(w, clauses, ex), d)
    ensures Part(ClaimOf(w, clauses.action, ex), d) && Part(ClausesClaim(w, clauses.rest, ex), d)
  {
  }

  // From b on, r' follows.
  lemma Onward(d: Claim, p: Point, b: Res, r': Res)
    requires !Ended(b.o) && Sound(d, p, b)
    ensures Allowed(d, b.o, b.level)
    ensures Sound(d, PointOf(b), r') ==> Sound(d, p, r')
  {
    hide Allowed, Reached;
    if Sound(d, PointOf(b), r') {
      Chain(d, p, PointOf(b), r');
    }
  }

  lemma {:induction false} CaseLaw(w: World, d: Claim, id: nat, clauses: Clauses, k: nat, ex: bool, r: Res, fuel: nat)
    requires DistinctClauses(clauses) && Part(ClausesClaim(w, clauses, ex), d) && id in d.ids - d.strict
    requires Positive(r.o) && !Ended(r.o) && Allowed(d, r.o, r.level)
    ensures Sound(d, PointOf(r), CaseFrom(w, id, clauses, k, ex, r, fuel))
    decreases fuel, clauses, 1
  {
    hide Part, ClaimOf, ClausesClaim, Reached, Sound, Allowed, RunFrom, InReach;
    var p := PointOf(r);
    var r' := CaseFrom(w, id, clauses, k, ex, r, fuel);
    if clauses.NoClause? {
      Nothing(d, p);
      Stay(d, p, r);
    } else {
      var m := w.matches(r.trace, id, k);
      var e := Tested(id, k, m);
      var r1 := r.(trace := r.trace + [e]);
      if m {
        RunLaw(w, d, id, clauses, k, ex, r1, fuel);
      } else {
        ClausesPart(w, d, clauses, ex);
        CaseLaw(w, d, id, clauses.rest, k + 1, ex, r1, fuel);
      }
      OneEvent(d, p, e);
      Chain(d, p, PointOf(r1), r');
    }
  }

  lemma {:induction false} RunLaw(w: World, d: Claim, id: nat, clauses: Clauses, k: nat, ex: bool, r: Res, fuel: nat)
    requires clauses.Clause? && DistinctClauses(clauses) && Part(ClausesClaim(w, clauses, ex), d) &&
             id in d.ids - d.strict
    requires Positive(r.o) && !Ended(r.o) && Allowed(d, r.o, r.level)
    ensures Sound(d, PointOf(r), RunFrom(w, id, clauses, k, ex, r, fuel))
    decreases fuel, clauses, 0
  {
    hide Sem, Part, ClaimOf, ClausesClaim, Reached, Sound, Allowed, CaseFrom;
    var p := PointOf(r);
    ClausesPart(w, d, clauses, ex);
    var b := if r.o == Normal then Sem(w, clauses.action, ex, r.trace, r.level, fuel) else r;
    if r.o == Normal {
      Law(w, clauses.action, ex, r.trace, r.level, fuel);
      Widen(ClaimOf(w, clauses.action, ex), d, p, b);
    } else {
      Nothing(d, p);
      Stay(d, p, r);
    }
    if !Ended(b.o) && clauses.end != Stop {
      Onward(d, p, b, RunFrom(w, id, clauses, k, ex, r, fuel));
      if clauses.end == TestNext {
        CaseLaw(w, d, id, clauses.rest, k + 1, ex, b, fuel);
      } else if clauses.rest.Clause? {
        RunLaw(w, d, id, clauses.rest, k + 1, ex, b, fuel);
      }
    }
  }

  predicate Fails(c: Command, exempt: bool, e: Event) {
    e.Run? && e.status != 0 && e.id in Strict(c, exempt)
  }

  // With set -e the shell ends exactly at the first failing simple command that is not in an
  // exempt position, with the status of that command; without it, never.
  lemma ErrexitExact(w: World, c: Command, exempt: bool, t: Trace, level: nat, fuel: nat)
    requires Distinct(c)
    ensures var r := Sem(w, c, exempt, t, level, fuel);
            && t <= r.trace
            && (r.o == Exit <==> w.errexit && exists j :: |t| <= j < |r.trace| && Fails(c, exempt, r.trace[j]))
            && (r.o == Exit ==> Fails(c, exempt, r.trace[|r.trace| - 1]) && r.status == r.trace[|r.trace| - 1].status)
            && (w.errexit ==> forall j :: |t| <= j < |r.trace| - 1 ==> !Fails(c, exempt, r.trace[j]))
  {
    hide Sem, Distinct, Strict, Ids, BadInits;
    var d := ClaimOf(w, c, exempt);
    var r := Sem(w, c, exempt, t, level, fuel);
    Law(w, c, exempt, t, level, fuel);
    assert forall e: Event :: Fatal(d, e) <==> w.errexit && Fails(c, exempt, e);
    if r.o == Exit {
      assert t <= r.trace[..|r.trace| - 1] <= r.trace;
      assert Fails(c, exempt, r.trace[|r.trace| - 1]);
    }
  }

  // loop_level comes back to what it was, unless the first expression of an arithmetic for
  // loop was bad: it then stays raised by one for each.
  lemma LoopLevelExact(w: World, c: Command, exempt: bool, t: Trace, level: nat, fuel: nat)
    requires Distinct(c)
    ensures var r := Sem(w, c, exempt, t, level, fuel);
            !Ended(r.o) ==> r.level == level + BadInits(r.trace) - BadInits(t)
  {
    hide Sem, Distinct, BadInits;
    Law(w, c, exempt, t, level, fuel);
  }

  // Over any run of any command, a break or continue that is under way has at most as many
  // loops to leave as there are, exactly unless a loop's test ended it with a continue to the
  // outermost loop.
  lemma CountersInReach(w: World, c: Command, exempt: bool, t: Trace, level: nat, fuel: nat)
    requires Distinct(c)
    ensures var r := Sem(w, c, exempt, t, level, fuel); InReach(r.o, r.level) <==> Calm(t, r.trace)
  {
    hide Sem, Distinct, BadInits, Calm;
    Law(w, c, exempt, t, level, fuel);
  }

  // Which cannot happen without continue in loop tests.
  lemma TameInReach(w: World, c: Command, exempt: bool, t: Trace, level: nat, fuel: nat)
    requires Distinct(c) && Tame(c)
    ensures var r := Sem(w, c, exempt, t, level, fuel); InReach(r.o, r.level) && Calm(t, r.trace)
  {
    hide Sem, Distinct, BadInits, Tame, Calm;
    Law(w, c, exempt, t, level, fuel);
  }

  // A run that begins outside all loops ends there exactly if no first expression was bad, and
  // then nothing is under way exactly if no test was.
  lemma OutsideLoops(w: World, c: Command, exempt: bool, t: Trace, fuel: nat)
    requires Distinct(c)
    ensures var r := Sem(w, c, exempt, t, 0, fuel);
            !Ended(r.o) ==>
              && (r.level == 0 <==> BadInits(r.trace) == BadInits(t))
              && (r.level == 0 ==> (r.o == Normal <==> Calm(t, r.trace)))
  {
    hide Sem, Distinct, BadInits, Calm;
    Law(w, c, exempt, t, 0, fuel);
  }

  // A test that ends its loop keeps the counters in reach unless it says continue to the
  // outermost loop there is.
  lemma TestInReach(w: World, l: Testing, status: int, c: Res, fuel: nat)
    requires c.level > 0 && Positive(c.o) && InReach(c.o, c.level) && !Ended(c.o) && (c.status == 0) == l.until
    ensures var r := LoopTested(w, l, status, c, fuel);
            InReach(r.o, r.level) <==> c.o != Continue(c.level)
  {
  }

  // until continue; do ...; done leaves a continue under way outside all loops.
  lemma ContinueInTest(w: World, t: Trace, fuel: nat)
    requires fuel > 0
    ensures var c := Loop(0, false, true, Simple(1, false, ContinueBuiltin(1)), Simple(2, false, Plain));
            var r := Sem(w, c, false, t, 0, fuel);
            r.o == Continue(1) && r.level == 0
  {
    var l := Testing(0, true, Simple(1, false, ContinueBuiltin(1)), Simple(2, false, Plain), false);
    var c := Loop(0, false, true, l.test, l.action);
    SemIs(w, c, false, t, 0, fuel);
    SemIs(w, l.test, true, t, 1, fuel - 1);
    assert Sem(w, l.test, true, t, 1, fuel - 1) == Res(Continue(1), 0, t + [Run(1, 0)], 1);
    LoopRoundIs(w, l, Res(Normal, 0, t, 1), fuel - 1);
  }

  // for ((bad; ...; ...)); do ...; done; break leaves a break under way outside all loops.
  lemma BreakAfterBadInit(w: World, t: Trace, fuel: nat)
    requires !w.arith(t, 1, Init).0 && !w.errexit
    ensures var c := Conn(0, false, Semi, ArithFor(1, false, Null), Simple(2, false, BreakBuiltin(1)));
            var r := Sem(w, c, false, t, 0, fuel);
            r.o == Break(1) && r.level == 1
  {
    var first, second := ArithFor(1, false, Null), Simple(2, false, BreakBuiltin(1));
    SemIs(w, first, false, t, 0, fuel);
    SemIs(w, Conn(0, false, Semi, first, second), false, t, 0, fuel);
    var r := Sem(w, first, false, t, 0, fuel);
    assert r.o == Normal && r.level == 1;
    SemIs(w, second, false, r.trace, 1, fuel);
  }

  // execute_command on a fresh shell.
  method RunScript(w: World, c: Command, fuel: nat) returns (sh: Shell, s: Signal)
    requires Distinct(c)
    ensures sh.Agrees(Sem(w, c, false, [], 0, fuel), s)
    ensures s.Ret? ==>
              && (sh.loopLevel == 0 <==> BadInits(sh.trace) == 0)
              && (sh.loopLevel == 0 ==> (sh.breaking == 0 && sh.continuing == 0 <==> Calm([], sh.trace)))
    ensures s.Jumped? <==> w.errexit && exists j :: 0 <= j < |sh.trace| && Fails(c, false, sh.trace[j])
    ensures FlagsOk(c, false, w.errexit, sh.flags)
  {
    hide Sem, Distinct, Fails, FlagsOk, Calm;
    sh := new Shell(w);
    NoFlags(c, false, w.errexit);
    s := sh.Execute(c, false, fuel);
    ErrexitExact(w, c, false, [], 0, fuel);
    OutsideLoops(w, c, false, [], fuel);
  }

  lemma {:induction false} NoFlags(c: Command, exempt: bool, errexit: bool)
    ensures FlagsOk(c, exempt, errexit, {})
    decreases c, 1
  {
    match c
    case Null =>
    case Simple(_, _, _) =>
    case For(_, _, action) => NoFlags(action, exempt || (errexit && c.invert), errexit);
    case ArithFor(_, _, action) => NoFlags(action, exempt || (errexit && c.invert), errexit);
    case Case(_, _, clauses) => NoClauseFlags(clauses, exempt || (errexit && c.invert), errexit);
    case Loop(_, _, _, test, action) =>
      NoFlags(test, true, errexit);
      NoFlags(action, exempt || (errexit && c.invert), errexit);
    case If(_, _, test, thn, els) =>
      NoFlags(test, true, errexit);
      NoFlags(thn, exempt || (errexit && c.invert), errexit);
      NoFlags(els, exempt || (errexit && c.invert), errexit);
    case Grp(_, _, body) => NoFlags(body, exempt || (errexit && c.invert), errexit);
    case Conn(_, _, op, first, second) =>
      NoFlags(first, exempt || (errexit && c.invert) || op != Semi, errexit);
      NoFlags(second, exempt || (errexit && c.invert), errexit);
  }

  lemma {:induction false} NoClauseFlags(clauses: Clauses, ex: bool, errexit: bool)
    ensures ClauseFlagsOk(clauses, ex, errexit, {})
    decreases clauses, 0
  {
    if clauses.Clause? {
      NoFlags(clauses.action, ex, errexit);
      NoClauseFlags(clauses.rest, ex, errexit);
    }
  }
}
