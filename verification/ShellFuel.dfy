/** The fuel of ShellSemantics is no part of the meaning: a run that ends is the same with
    more of it. */
module ShellFuel {
  import opened ShellSemantics
  import opened ShellMachine

  lemma {:induction false} More(w: World, c: Command, exempt: bool, t: Trace, level: nat, fuel: nat)
    requires Sem(w, c, exempt, t, level, fuel).o != Unfinished
    ensures Sem(w, c, exempt, t, level, fuel + 1) == Sem(w, c, exempt, t, level, fuel)
    decreases fuel, c, 1
  {
    hide Sem, Body;
    SemIs(w, c, exempt, t, level, fuel);
    SemIs(w, c, exempt, t, level, fuel + 1);
    if !c.Null? {
      MoreBody(w, c, exempt || (w.errexit && c.invert), t, level, fuel);
    }
  }

  lemma {:induction false} MoreBody(w: World, c: Command, ex: bool, t: Trace, level: nat, fuel: nat)
    requires !c.Null? && Body(w, c, ex, t, level, fuel).o != Unfinished
    ensures Body(w, c, ex, t, level, fuel + 1) == Body(w, c, ex, t, level, fuel)
    decreases fuel, c, 0
  {
    hide Sem, ForFrom, ArithFrom, LoopFrom, CaseFrom;
    match c
    case Simple(_, _, _) =>
    case Grp(_, _, body) => More(w, body, ex, t, level, fuel);
    case Conn(_, _, op, first, second) =>
      var r := Sem(w, first, ex || op != Semi, t, level, fuel);
      More(w, first, ex || op != Semi, t, level, fuel);
      if r.o == Normal && (op == AndAnd ==> r.status == 0) && (op == OrOr ==> r.status != 0) {
        More(w, second, ex, r.trace, r.level, fuel);
      }
    case If(_, _, test, thn, els) =>
      var r := Sem(w, test, true, t, level, fuel);
      More(w, test, true, t, level, fuel);
      if r.o == Normal {
        More(w, if r.status == 0 then thn else els, ex, r.trace, r.level, fuel);
      }
    case Case(id, _, clauses) => MoreCase(w, id, clauses, 0, ex, Res(Normal, 0, t, level), fuel);
    case For(id, _, action) =>
      var n := w.words(t, id);
      MoreFor(w, id, action, 0, n, ex, Res(Normal, 0, t + [Words(id, n)], level + 1), fuel);
    case ArithFor(id, _, action) =>
      var (ok, v) := w.arith(t, id, Init);
      if ok {
        MoreArith(w, id, action, ex, Res(Normal, 0, t + [Eval(id, Init, ok, v)], level + 1), fuel);
      }
    case Loop(id, _, until, test, action) =>
      MoreLoop(w, Testing(id, until, test, action, ex), Res(Normal, 0, t, level + 1), fuel);
  }

  lemma {:induction false} MoreFor(w: World, id: nat, action: Command, k: nat, n: nat, ex: bool, r: Res, fuel: nat)
    requires k <= n && r.level > 0 && ForFrom(w, id, action, k, n, ex, r, fuel).o != Unfinished
    ensures ForFrom(w, id, action, k, n, ex, r, fuel + 1) == ForFrom(w, id, action, k, n, ex, r, fuel)
    decreases fuel, action, n - k + 1
  {
    hide Sem;
    if k < n {
      var b := Sem(w, action, ex, r.trace + [Bound(id, k)], r.level, fuel);
      More(w, action, ex, r.trace + [Bound(id, k)], r.level, fuel);
      if Again(b.o) {
        MoreFor(w, id, action, k + 1, n, ex, b.(o := Normal), fuel);
      }
    }
  }

  lemma {:induction false} MoreArith(w: World, id: nat, action: Command, ex: bool, r: Res, fuel: nat)
    requires r.level > 0 && ArithFrom(w, id, action, ex, r, fuel).o != Unfinished
    ensures ArithFrom(w, id, action, ex, r, fuel + 1) == ArithFrom(w, id, action, ex, r, fuel)
    decreases fuel, action, 2
  {
    hide Sem, ArithAfter;
    var (ok, v) := w.arith(r.trace, id, Test);
    var t := r.trace + [Eval(id, Test, ok, v)];
    if ok && v != 0 {
      var b := Sem(w, action, ex, t, r.level, fuel - 1);
      ArithAfterIs(w, id, action, ex, b, fuel - 1);
      More(w, action, ex, t, r.level, fuel - 1);
      MoreArithAfter(w, id, action, ex, b, fuel - 1);
    }
  }

  lemma {:induction false} MoreArithAfter(w: World, id: nat, action: Command, ex: bool, b: Res, fuel: nat)
    requires b.level > 0 && Positive(b.o) && ArithAfter(w, id, action, ex, b, fuel).o != Unfinished
    ensures ArithAfter(w, id, action, ex, b, fuel + 1) == ArithAfter(w, id, action, ex, b, fuel)
    decreases fuel, action, 3
  {
    hide ArithFrom;
    if !Ended(b.o) && Again(b.o) {
      var (ok, v) := w.arith(b.trace, id, Update);
      if ok {
        MoreArith(w, id, action, ex, b.(o := Normal, trace := b.trace + [Eval(id, Update, ok, v)]), fuel);
      }
    }
  }

  lemma {:induction false} MoreLoop(w: World, l: Testing, r: Res, fuel: nat)
    requires r.level > 0 && LoopFrom(w, l, r, fuel).o != Unfinished
    ensures LoopFrom(w, l, r, fuel + 1) == LoopFrom(w, l, r, fuel)
    decreases fuel, l.action, 2
  {
    hide Sem, LoopAfter, LoopFrom;
    if fuel == 0 {
      OutOfRounds(w, 0, l, l.action, l.exempt, r);
    } else {
      LoopRoundIs(w, l, r, fuel - 1);
      LoopRoundIs(w, l, r, fuel);
      var c := Sem(w, l.test, true, r.trace, r.level, fuel - 1);
      More(w, l.test, true, r.trace, r.level, fuel - 1);
      if !Ended(c.o) && (c.status == 0) != l.until {
        var b := if c.o == Normal then Sem(w, l.action, l.exempt, c.trace, c.level, fuel - 1) else c;
        LoopAfterIs(w, l, b, fuel - 1);
        if c.o == Normal {
          More(w, l.action, l.exempt, c.trace, c.level, fuel - 1);
        }
        MoreLoopAfter(w, l, b, fuel - 1);
      }
    }
  }

  lemma {:induction false} MoreLoopAfter(w: World, l: Testing, b: Res, fuel: nat)
    requires b.level > 0 && Positive(b.o) && LoopAfter(w, l, b, fuel).o != Unfinished
    ensures LoopAfter(w, l, b, fuel + 1) == LoopAfter(w, l, b, fuel)
    decreases fuel, l.action, 3
  {
    hide LoopFrom;
    if !Ended(b.o) && Again(b.o) {
      MoreLoop(w, l, b.(o := Normal), fuel);
    }
  }

  lemma {:induction false} MoreCase(w: World, id: nat, clauses: Clauses, k: nat, ex: bool, r: Res, fuel: nat)
    requires Positive(r.o) && CaseFrom(w, id, clauses, k, ex, r, fuel).o != Unfinished
    ensures CaseFrom(w, id, clauses, k, ex, r, fuel + 1) == CaseFrom(w, id, clauses, k, ex, r, fuel)
    decreases fuel, clauses, 1
  {
    hide RunFrom;
    if clauses.Clause? {
      var m := w.matches(r.trace, id, k);
      var r1 := r.(trace := r.trace + [Tested(id, k, m)]);
      if m {
        MoreRun(w, id, clauses, k, ex, r1, fuel);
      } else {
        MoreCase(w, id, clauses.rest, k + 1, ex, r1, fuel);
      }
    }
  }

  lemma {:induction false} MoreRun(w: World, id: nat, clauses: Clauses, k: nat, ex: bool, r: Res, fuel: nat)
    requires clauses.Clause? && Positive(r.o) && RunFrom(w, id, clauses, k, ex, r, fuel).o != Unfinished
    ensures RunFrom(w, id, clauses, k, ex, r, fuel + 1) == RunFrom(w, id, clauses, k, ex, r, fuel)
    decreases fuel, clauses, 0
  {
    hide Sem, CaseFrom;
    var b := if r.o == Normal then Sem(w, clauses.action, ex, r.trace, r.level, fuel) else r;
    RunUnfinished(w, id, clauses, k, ex, r, fuel);
    if r.o == Normal {
      More(w, clauses.action, ex, r.trace, r.level, fuel);
    }
    if !Ended(b.o) {
      if clauses.end == TestNext {
        MoreCase(w, id, clauses.rest, k + 1, ex, b, fuel);
      } else if clauses.end == FallThrough && clauses.rest.Clause? {
        MoreRun(w, id, clauses.rest, k + 1, ex, b, fuel);
      }
    }
  }

  lemma RunUnfinished(w: World, id: nat, clauses: Clauses, k: nat, ex: bool, r: Res, fuel: nat)
    requires clauses.Clause? && Positive(r.o) && RunFrom(w, id, clauses, k, ex, r, fuel).o != Unfinished
    ensures r.o == Normal ==> Sem(w, clauses.action, ex, r.trace, r.level, fuel).o != Unfinished
  {
    hide Sem, CaseFrom;
  }

  // Two runs that end are the same run.
  lemma {:induction false} FuelIrrelevant(w: World, c: Command, exempt: bool, t: Trace, level: nat, f: nat, g: nat)
    requires f <= g && Sem(w, c, exempt, t, level, f).o != Unfinished
    ensures Sem(w, c, exempt, t, level, g) == Sem(w, c, exempt, t, level, f)
    decreases g - f
  {
    hide Sem;
    if f < g {
      More(w, c, exempt, t, level, f);
      FuelIrrelevant(w, c, exempt, t, level, f + 1, g);
    }
  }
}
