/** Which parts of a command run: every kind of command, said of the runs of its parts. */
module ShellBranches {
  import opened ShellSemantics
  import opened ShellMachine
  import opened ShellLaws

  // The status behind a leading !.
  function Status(invert: bool, status: int): int {
    if !invert then status else if status == 0 then 1 else 0
  }

  // A command with a leading ! that came out as its part p did.
  predicate Like(r: Res, p: Res, invert: bool) {
    && r.o == p.o && r.trace == p.trace && r.level == p.level
    && r.status == if p.o == Exit || p.o == Unfinished then p.status else Status(invert, p.status)
  }

  // Nothing behind t happens at the nodes of c.
  predicate Untouched(c: Command, t: Trace, r: Res) {
    t <= r.trace && forall j :: |t| <= j < |r.trace| ==> r.trace[j].id !in Ids(c)
  }

  lemma EventsWithin(w: World, c: Command, exempt: bool, t: Trace, level: nat, fuel: nat)
    requires Distinct(c)
    ensures var r := Sem(w, c, exempt, t, level, fuel);
            t <= r.trace && forall j :: |t| <= j < |r.trace| ==> r.trace[j].id in Ids(c)
  {
    hide Sem, Ids, Distinct, Strict, Steady, Tame, BadInits, Calm;
    Law(w, c, exempt, t, level, fuel);
    var r := Sem(w, c, exempt, t, level, fuel);
    if r.o == Exit {
      assert t <= r.trace[..|r.trace| - 1] <= r.trace;
    }
  }

  // ---- commands without loops ----

  // A simple command happens once.  With set -e it ends the shell if it fails, unless its
  // context is exempt or a ! is in front.
  lemma SimpleRuns(w: World, id: nat, invert: bool, exempt: bool, t: Trace, level: nat, fuel: nat)
    ensures var r, s := Sem(w, Simple(id, invert, Plain), exempt, t, level, fuel), w.status(t, id);
            && r.trace == t + [Run(id, s)] && r.level == level
            && if s != 0 && w.errexit && !exempt && !invert then r.o == Exit && r.status == s
               else r.o == Normal && r.status == Status(invert, s)
  {
    SemIs(w, Simple(id, invert, Plain), exempt, t, level, fuel);
  }

  // break and continue leave n of the loops around them, all if there are fewer, and nothing
  // happens outside all loops; a count that is not positive fails and leaves all loops.
  lemma BreakRuns(w: World, id: nat, invert: bool, n: int, exempt: bool, t: Trace, level: nat, fuel: nat)
    ensures var b := Sem(w, Simple(id, invert, BreakBuiltin(n)), exempt, t, level, fuel);
            var c := Sem(w, Simple(id, invert, ContinueBuiltin(n)), exempt, t, level, fuel);
            && b.level == c.level == level && b.trace == c.trace
            && (level == 0 || n > 0 ==>
                  && b.trace == t + [Run(id, 0)] && b.status == c.status == Status(invert, 0)
                  && b.o == (if level == 0 then Normal else if n <= level then Break(n) else Break(level))
                  && c.o == (if level == 0 then Normal else if n <= level then Continue(n) else Continue(level)))
            && (level > 0 && n <= 0 ==>
                  && b.trace == t + [Run(id, 1)]
                  && (if w.errexit && !exempt && !invert then b.o == c.o == Exit else b.o == c.o == Break(level)))
  {
    SemIs(w, Simple(id, invert, BreakBuiltin(n)), exempt, t, level, fuel);
    SemIs(w, Simple(id, invert, ContinueBuiltin(n)), exempt, t, level, fuel);
  }

  // { body; }
  lemma GroupRuns(w: World, id: nat, invert: bool, body: Command, exempt: bool, t: Trace, level: nat, fuel: nat)
    ensures Like(Sem(w, Grp(id, invert, body), exempt, t, level, fuel),
                 Sem(w, body, exempt || (w.errexit && invert), t, level, fuel), invert)
  {
    hide Sem;
    SemIs(w, Grp(id, invert, body), exempt, t, level, fuel);
  }

  // first ; second, first && second, first || second: the second runs exactly if the first came
  // out normally and, for && and ||, with 0 and with another status.
  lemma ConnectionRuns(w: World, id: nat, invert: bool, op: Connector, first: Command, second: Command,
      exempt: bool, t: Trace, level: nat, fuel: nat)
    requires Distinct(Conn(id, invert, op, first, second))
    ensures var ex := exempt || (w.errexit && invert);
            var r, a := Sem(w, Conn(id, invert, op, first, second), exempt, t, level, fuel),
                        Sem(w, first, ex || op != Semi, t, level, fuel);
            if a.o == Normal && (op == AndAnd ==> a.status == 0) && (op == OrOr ==> a.status != 0) then
              && Like(r, Sem(w, second, ex, a.trace, a.level, fuel), invert)
              && Untouched(first, a.trace, r)
            else Like(r, a, invert) && Untouched(second, t, r)
  {
    hide Sem, Ids, Distinct;
    var ex := exempt || (w.errexit && invert);
    SemIs(w, Conn(id, invert, op, first, second), exempt, t, level, fuel);
    PartsDistinct(Conn(id, invert, op, first, second));
    var a := Sem(w, first, ex || op != Semi, t, level, fuel);
    EventsWithin(w, first, ex || op != Semi, t, level, fuel);
    EventsWithin(w, second, ex, a.trace, a.level, fuel);
  }

  lemma PartsDistinct(c: Command)
    requires Distinct(c)
    ensures c.Conn? ==> Distinct(c.first) && Distinct(c.second) && Ids(c.first) !! Ids(c.second)
    ensures c.If? ==>
              && Distinct(c.test) && Distinct(c.thn) && Distinct(c.els)
              && Ids(c.test) !! Ids(c.thn) && Ids(c.test) !! Ids(c.els) && Ids(c.thn) !! Ids(c.els)
    ensures c.Loop? ==> Distinct(c.test) && Distinct(c.action) && Ids(c.test) !! Ids(c.action)
    ensures c.For? || c.ArithFor? ==> Distinct(c.action)
  {
  }

  // if test; then thn; else els; fi: the test first; then, if it came out normally, thn if its
  // status is 0 and els if not, and nothing of the other one.
  lemma IfRuns(w: World, id: nat, invert: bool, test: Command, thn: Command, els: Command,
      exempt: bool, t: Trace, level: nat, fuel: nat)
    requires Distinct(If(id, invert, test, thn, els))
    ensures var ex := exempt || (w.errexit && invert);
            var r, a := Sem(w, If(id, invert, test, thn, els), exempt, t, level, fuel),
                        Sem(w, test, true, t, level, fuel);
            && (a.o != Normal ==> Like(r, a, invert) && Untouched(thn, t, r) && Untouched(els, t, r))
            && (a.o == Normal && a.status == 0 ==>
                  Like(r, Sem(w, thn, ex, a.trace, a.level, fuel), invert) && Untouched(els, t, r))
            && (a.o == Normal && a.status != 0 ==>
                  Like(r, Sem(w, els, ex, a.trace, a.level, fuel), invert) && Untouched(thn, t, r))
  {
    hide Sem, Ids, Distinct;
    var c, ex := If(id, invert, test, thn, els), exempt || (w.errexit && invert);
    SemIs(w, c, exempt, t, level, fuel);
    PartsDistinct(c);
    var a := Sem(w, test, true, t, level, fuel);
    EventsWithin(w, test, true, t, level, fuel);
    EventsWithin(w, thn, ex, a.trace, a.level, fuel);
    EventsWithin(w, els, ex, a.trace, a.level, fuel);
  }

  // Without an else part, a test that fails is all, and the status is 0.
  lemma IfNoElse(w: World, id: nat, invert: bool, test: Command, thn: Command,
      exempt: bool, t: Trace, level: nat, fuel: nat)
    requires Distinct(If(id, invert, test, thn, Null))
    ensures var r, a := Sem(w, If(id, invert, test, thn, Null), exempt, t, level, fuel),
                        Sem(w, test, true, t, level, fuel);
            a.o == Normal && a.status != 0 ==> r == Res(Normal, Status(invert, 0), a.trace, a.level)
  {
    hide Ids, Distinct;
    IfRuns(w, id, invert, test, thn, Null, exempt, t, level, fuel);
    var a := Sem(w, test, true, t, level, fuel);
    SemIs(w, Null, exempt || (w.errexit && invert), a.trace, a.level, fuel);
  }

  // ---- case ----

  // The clauses from the k-th on.
  function From(clauses: Clauses, k: nat): Clauses {
    if k == 0 || clauses.NoClause? then clauses else From(clauses.rest, k - 1)
  }

  // The first k clauses were tested in vain.
  function Missed(t: Trace, id: nat, k: nat): Trace {
    if k == 0 then t else Missed(t, id, k - 1) + [Tested(id, k - 1, false)]
  }

  predicate NoneMatches(w: World, id: nat, t: Trace, k: nat) {
    forall j :: 0 <= j < k ==> !w.matches(Missed(t, id, j), id, j)
  }

  lemma FromNext(clauses: Clauses, k: nat)
    requires From(clauses, k).Clause?
    ensures From(clauses, k + 1) == From(clauses, k).rest
    decreases k
  {
    if k > 0 {
      FromNext(clauses.rest, k - 1);
    }
  }

  lemma {:induction false} PastMisses(w: World, id: nat, clauses: Clauses, ex: bool, t: Trace, level: nat, fuel: nat,
      k: nat)
    requires NoneMatches(w, id, t, k) && (k > 0 ==> From(clauses, k - 1).Clause?)
    ensures CaseFrom(w, id, clauses, 0, ex, Res(Normal, 0, t, level), fuel) ==
            CaseFrom(w, id, From(clauses, k), k, ex, Res(Normal, 0, Missed(t, id, k), level), fuel)
    decreases k
  {
    hide RunFrom;
    if k > 0 {
      if k > 1 {
        FromBefore(clauses, k - 2);
      }
      PastMisses(w, id, clauses, ex, t, level, fuel, k - 1);
      FromNext(clauses, k - 1);
    }
  }

  lemma FromBefore(clauses: Clauses, k: nat)
    requires From(clauses, k + 1).Clause?
    ensures From(clauses, k).Clause?
    decreases k
  {
    if k > 0 {
      FromBefore(clauses.rest, k - 1);
    }
  }

  // Where a case command is, after r: about to test its k-th clause, or to run it.
  datatype Spot = Trying(k: nat, r: Res) | Entering(k: nat, r: Res)

  // How the action of a clause comes out; it is not run with a break or continue under way.
  function Acted(w: World, clause: Clauses, ex: bool, r: Res, fuel: nat): Res
    requires clause.Clause?
  {
    if r.o == Normal then Sem(w, clause.action, ex, r.trace, r.level, fuel) else r
  }

  // What comes after testing or running a clause, behind which there is ;; or ;& or ;;&.
  predicate CaseStep(w: World, id: nat, clauses: Clauses, ex: bool, fuel: nat, s: Spot, s': Spot) {
    var here := From(clauses, s.k);
    && here.Clause?
    && if s.Trying? then
         var m := w.matches(s.r.trace, id, s.k);
         var r := s.r.(trace := s.r.trace + [Tested(id, s.k, m)]);
         s' == if m then Entering(s.k, r) else Trying(s.k + 1, r)
       else
         var b := Acted(w, here, ex, s.r, fuel);
         && !Ended(b.o)
         && if here.end == TestNext then s' == Trying(s.k + 1, b)
            else here.end == FallThrough && here.rest.Clause? && s' == Entering(s.k + 1, b)
  }

  // The command ends at s, with r: no clause is left, or ;; is behind the one run.
  predicate CaseEnds(w: World, id: nat, clauses: Clauses, ex: bool, fuel: nat, s: Spot, r: Res) {
    var here := From(clauses, s.k);
    if s.Trying? then here.NoClause? && r == s.r
    else
      && here.Clause? && r == Acted(w, here, ex, s.r, fuel)
      && (Ended(r.o) || here.end == Stop || (here.end == FallThrough && here.rest.NoClause?))
  }

  predicate CasePath(w: World, id: nat, clauses: Clauses, ex: bool, fuel: nat, s: Spot, path: seq<Spot>, r: Res) {
    && |path| > 0 && path[0] == s
    && (forall i :: 0 <= i < |path| - 1 ==> CaseStep(w, id, clauses, ex, fuel, path[i], path[i + 1]))
    && CaseEnds(w, id, clauses, ex, fuel, path[|path| - 1], r)
  }

  // Every run of a case command is a path from its first clause.
  lemma CaseRuns(w: World, id: nat, invert: bool, clauses: Clauses, exempt: bool, t: Trace, level: nat, fuel: nat)
    returns (path: seq<Spot>, r: Res)
    ensures var start := Trying(0, Res(Normal, 0, t, level));
            CasePath(w, id, clauses, exempt || (w.errexit && invert), fuel, start, path, r)
    ensures Like(Sem(w, Case(id, invert, clauses), exempt, t, level, fuel), r, invert)
  {
    hide Sem, CasePath;
    var ex := exempt || (w.errexit && invert);
    SemIs(w, Case(id, invert, clauses), exempt, t, level, fuel);
    r := CaseFrom(w, id, clauses, 0, ex, Res(Normal, 0, t, level), fuel);
    path := CasePathFrom(w, id, clauses, 0, ex, Res(Normal, 0, t, level), fuel);
  }

  lemma {:induction false} CasePathFrom(w: World, id: nat, all: Clauses, k: nat, ex: bool, r: Res, fuel: nat)
    returns (path: seq<Spot>)
    requires Positive(r.o)
    ensures CasePath(w, id, all, ex, fuel, Trying(k, r), path, CaseFrom(w, id, From(all, k), k, ex, r, fuel))
    decreases From(all, k), 1
  {
    hide Sem, From, RunFrom;
    path := [Trying(k, r)];
    var here := From(all, k);
    if here.Clause? {
      var m := w.matches(r.trace, id, k);
      var r1 := r.(trace := r.trace + [Tested(id, k, m)]);
      var rest;
      if m {
        rest := RunPathFrom(w, id, all, k, ex, r1, fuel);
      } else {
        FromNext(all, k);
        rest := CasePathFrom(w, id, all, k + 1, ex, r1, fuel);
      }
      assert CaseStep(w, id, all, ex, fuel, path[0], rest[0]);
      path := path + rest;
    }
  }

  lemma {:induction false} RunPathFrom(w: World, id: nat, all: Clauses, k: nat, ex: bool, r: Res, fuel: nat)
    returns (path: seq<Spot>)
    requires From(all, k).Clause? && Positive(r.o)
    ensures CasePath(w, id, all, ex, fuel, Entering(k, r), path, RunFrom(w, id, From(all, k), k, ex, r, fuel))
    decreases From(all, k), 0
  {
    hide Sem, From, CaseFrom;
    path := [Entering(k, r)];
    var here := From(all, k);
    var b := Acted(w, here, ex, r, fuel);
    if !Ended(b.o) && here.end != Stop && (here.end == TestNext || here.rest.Clause?) {
      FromNext(all, k);
      var rest;
      if here.end == TestNext {
        rest := CasePathFrom(w, id, all, k + 1, ex, b, fuel);
      } else {
        rest := RunPathFrom(w, id, all, k + 1, ex, b, fuel);
      }
      assert CaseStep(w, id, all, ex, fuel, path[0], rest[0]);
      path := path + rest;
    }
  }

  // Nothing is run if no clause matches, and the status is 0.  Otherwise the first that matches
  // is run, and if ;; is behind it, that is all.
  lemma FirstMatch(w: World, id: nat, invert: bool, clauses: Clauses, exempt: bool, t: Trace, level: nat, fuel: nat,
      k: nat)
    requires NoneMatches(w, id, t, k) && (k > 0 ==> From(clauses, k - 1).Clause?)
    ensures var here, t' := From(clauses, k), Missed(t, id, k);
            var r := Sem(w, Case(id, invert, clauses), exempt, t, level, fuel);
            && (here.NoClause? ==> Like(r, Res(Normal, 0, t', level), invert))
            && (here.Clause? && here.end == Stop && w.matches(t', id, k) ==>
                  var ex := exempt || (w.errexit && invert);
                  Like(r, Sem(w, here.action, ex, t' + [Tested(id, k, true)], level, fuel), invert))
  {
    hide Sem;
    SemIs(w, Case(id, invert, clauses), exempt, t, level, fuel);
    PastMisses(w, id, clauses, exempt || (w.errexit && invert), t, level, fuel, k);
  }

  // No clause but the k-th is about nodes of aim, and the one before it does not fall through;
  // these are the clauses from the i-th on.
  predicate OnlyThe(k: nat, clauses: Clauses, i: nat, aim: set<nat>) {
    clauses.Clause? ==>
      && (i != k ==> Ids(clauses.action) !! aim) && (i + 1 == k ==> clauses.end != FallThrough)
      && OnlyThe(k, clauses.rest, i + 1, aim)
  }

  lemma {:induction false} OnlyOne(k: nat, clauses: Clauses, i: nat)
    requires i <= k && DistinctClauses(clauses) && From(clauses, k - i).Clause?
    requires k > i ==> From(clauses, k - 1 - i).Clause? && From(clauses, k - 1 - i).end != FallThrough
    ensures var aim := Ids(From(clauses, k - i).action); OnlyThe(k, clauses, i, aim) && aim <= ClauseIds(clauses)
  {
    if i < k {
      OnlyOne(k, clauses.rest, i + 1);
    } else {
      NoneBehind(k, clauses.rest, i + 1, Ids(clauses.action));
    }
  }

  lemma {:induction false} NoneBehind(k: nat, clauses: Clauses, i: nat, aim: set<nat>)
    requires i > k && ClauseIds(clauses) !! aim
    ensures OnlyThe(k, clauses, i, aim)
  {
    if clauses.Clause? {
      NoneBehind(k, clauses.rest, i + 1, aim);
    }
  }

  // Nothing happens at nodes of aim from t to t1.
  predicate Past(aim: set<nat>, t: Trace, t1: Trace) {
    t <= t1 && forall j :: |t| <= j < |t1| ==> t1[j].id !in aim
  }

  lemma {:induction false} CaseWithout(w: World, id: nat, clauses: Clauses, i: nat, ex: bool, r: Res, fuel: nat,
      k: nat, aim: set<nat>)
    requires Positive(r.o) && DistinctClauses(clauses) && OnlyThe(k, clauses, i, aim) && id !in aim
    ensures var t1 := CaseFrom(w, id, clauses, i, ex, r, fuel).trace;
            r.trace <= t1 && (Tested(id, k, true) in t1[|r.trace|..] || Past(aim, r.trace, t1))
    decreases clauses, 1
  {
    hide Sem, RunFrom, Ids, ClauseIds, Distinct;
    if clauses.Clause? {
      var m := w.matches(r.trace, id, i);
      var r1 := r.(trace := r.trace + [Tested(id, i, m)]);
      var t1 := CaseFrom(w, id, clauses, i, ex, r, fuel).trace;
      if m {
        if i == k {
          RunGrows(w, id, clauses, i, ex, r1, fuel);
          assert r1.trace[|r.trace|] == Tested(id, k, true);
          assert t1[|r.trace|] == r1.trace[|r.trace|];
          assert t1[|r.trace|..][0] == t1[|r.trace|];
        } else {
          RunWithout(w, id, clauses, i, ex, r1, fuel, k, aim);
        }
      } else {
        CaseWithout(w, id, clauses.rest, i + 1, ex, r1, fuel, k, aim);
      }
      Farther(id, k, aim, r.trace, r1.trace, t1);
    }
  }

  // What is so from t1 to t2 is so from t, if it is from t to t1.
  lemma Farther(id: nat, k: nat, aim: set<nat>, t: Trace, t1: Trace, t2: Trace)
    ensures t <= t1 <= t2 && Past(aim, t, t1) && (Tested(id, k, true) in t2[|t1|..] || Past(aim, t1, t2)) ==>
              t <= t2 && (Tested(id, k, true) in t2[|t|..] || Past(aim, t, t2))
  {
    if t <= t1 <= t2 && Tested(id, k, true) in t2[|t1|..] {
      var j :| 0 <= j < |t2[|t1|..]| && t2[|t1|..][j] == Tested(id, k, true);
      assert t2[|t|..][j + |t1| - |t|] == t2[j + |t1|];
    }
  }

  lemma {:induction false} RunWithout(w: World, id: nat, clauses: Clauses, i: nat, ex: bool, r: Res, fuel: nat,
      k: nat, aim: set<nat>)
    requires Positive(r.o) && clauses.Clause? && DistinctClauses(clauses) && OnlyThe(k, clauses, i, aim) && id !in aim
    requires i != k
    ensures var t1 := RunFrom(w, id, clauses, i, ex, r, fuel).trace;
            r.trace <= t1 && (Tested(id, k, true) in t1[|r.trace|..] || Past(aim, r.trace, t1))
    decreases clauses, 0
  {
    hide Sem, CaseFrom, Ids, ClauseIds, Distinct;
    var b := Acted(w, clauses, ex, r, fuel);
    if r.o == Normal {
      EventsWithin(w, clauses.action, ex, r.trace, r.level, fuel);
    }
    assert Past(aim, r.trace, b.trace);
    if !Ended(b.o) && clauses.end == TestNext {
      CaseWithout(w, id, clauses.rest, i + 1, ex, b, fuel, k, aim);
    } else if !Ended(b.o) && clauses.end == FallThrough && clauses.rest.Clause? {
      RunWithout(w, id, clauses.rest, i + 1, ex, b, fuel, k, aim);
    }
    Farther(id, k, aim, r.trace, b.trace, RunFrom(w, id, clauses, i, ex, r, fuel).trace);
  }

  lemma {:induction false} RunGrows(w: World, id: nat, clauses: Clauses, i: nat, ex: bool, r: Res, fuel: nat)
    requires Positive(r.o) && clauses.Clause? && DistinctClauses(clauses)
    ensures r.trace <= RunFrom(w, id, clauses, i, ex, r, fuel).trace
    decreases clauses, 0
  {
    hide Sem, CaseFrom, Ids, ClauseIds, Distinct;
    var b := Acted(w, clauses, ex, r, fuel);
    if r.o == Normal {
      EventsWithin(w, clauses.action, ex, r.trace, r.level, fuel);
    }
    if !Ended(b.o) && clauses.end == TestNext {
      CaseGrows(w, id, clauses.rest, i + 1, ex, b, fuel);
    } else if !Ended(b.o) && clauses.end == FallThrough && clauses.rest.Clause? {
      RunGrows(w, id, clauses.rest, i + 1, ex, b, fuel);
    }
  }

  lemma {:induction false} CaseGrows(w: World, id: nat, clauses: Clauses, i: nat, ex: bool, r: Res, fuel: nat)
    requires Positive(r.o) && DistinctClauses(clauses)
    ensures r.trace <= CaseFrom(w, id, clauses, i, ex, r, fuel).trace
    decreases clauses, 1
  {
    hide Sem, RunFrom, Ids, ClauseIds, Distinct;
    if clauses.Clause? {
      var m := w.matches(r.trace, id, i);
      var r1 := r.(trace := r.trace + [Tested(id, i, m)]);
      if m {
        RunGrows(w, id, clauses, i, ex, r1, fuel);
      } else {
        CaseGrows(w, id, clauses.rest, i + 1, ex, r1, fuel);
      }
    }
  }

  // The action of a clause is run only if the clause matches or the one before falls through.
  lemma CaseLeavesOut(w: World, id: nat, invert: bool, clauses: Clauses, exempt: bool, t: Trace, level: nat, fuel: nat,
      k: nat)
    requires Distinct(Case(id, invert, clauses)) && From(clauses, k).Clause?
    requires k > 0 ==> From(clauses, k - 1).Clause? && From(clauses, k - 1).end != FallThrough
    ensures var r := Sem(w, Case(id, invert, clauses), exempt, t, level, fuel);
            t <= r.trace && (Tested(id, k, true) in r.trace[|t|..] || Untouched(From(clauses, k).action, t, r))
  {
    hide Sem, Ids, OnlyThe;
    SemIs(w, Case(id, invert, clauses), exempt, t, level, fuel);
    OnlyOne(k, clauses, 0);
    var aim := Ids(From(clauses, k).action);
    CaseWithout(w, id, clauses, 0, exempt || (w.errexit && invert), Res(Normal, 0, t, level), fuel, k, aim);
  }
}
