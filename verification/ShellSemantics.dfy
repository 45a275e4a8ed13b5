/** The control structures of execute_cmd.c as commands, and a structured semantics for
    them in which break, continue and errexit are outcomes. */
module ShellSemantics {

  datatype Connector = Semi | AndAnd | OrOr

  datatype ClauseEnd = Stop | FallThrough | TestNext    // ;; ;& ;;&

  datatype Clauses = NoClause | Clause(action: Command, end: ClauseEnd, rest: Clauses)

  datatype Builtin = Plain | BreakBuiltin(n: int) | ContinueBuiltin(n: int)

  // A command tree.  id names the node; invert is CMD_INVERT_RETURN, a leading !.
  // Null is the absent else part or an empty clause.
  datatype Command =
    | Null
    | Simple(id: nat, invert: bool, what: Builtin)
    | For(id: nat, invert: bool, action: Command)
    | ArithFor(id: nat, invert: bool, action: Command)
    | Case(id: nat, invert: bool, clauses: Clauses)
    | Loop(id: nat, invert: bool, until: bool, test: Command, action: Command)   // while, until
    | If(id: nat, invert: bool, test: Command, thn: Command, els: Command)
    | Grp(id: nat, invert: bool, body: Command)
    | Conn(id: nat, invert: bool, op: Connector, first: Command, second: Command)

  datatype Part = Init | Test | Update

  // What happens, as far as the rest of the shell can tell.
  datatype Event =
    | Run(id: nat, status: int)                   // a simple command ended
    | Words(id: nat, count: nat)                  // the list of a for loop was expanded
    | Bound(id: nat, k: nat)                      // its variable got the k-th word
    | Eval(id: nat, part: Part, ok: bool, value: int)   // an expression of an arithmetic for
    | Tested(id: nat, k: nat, matched: bool)      // the patterns of the k-th clause
    | TestEnded(id: nat, continuing: nat, level: nat)   // the test of a while or until loop ended it

  type Trace = seq<Event>

  // Everything the control structures ask the rest of the shell; an answer may depend on
  // all that has happened.
  datatype World = World(
    status: (Trace, nat) -> int,
    words: (Trace, nat) -> nat,
    arith: (Trace, nat, Part) -> (bool, int),
    matches: (Trace, nat, nat) -> bool,
    errexit: bool)

  // Break(n) and Continue(n) are on their way to the n-th enclosing loop; Exit is set -e
  // ending the shell; Unfinished says that the fuel for loop iterations ran out.
  datatype Outcome = Normal | Break(n: nat) | Continue(n: nat) | Exit | Unfinished

  // level is the value of loop_level.
  datatype Res = Res(o: Outcome, status: int, trace: Trace, level: nat)

  predicate Ended(o: Outcome) { o == Exit || o == Unfinished }

  function Invert(invert: bool, status: int): int {
    if invert then (if status == 0 then 1 else 0) else status
  }

  function Min(a: int, b: int): int { if a < b then a else b }

  // The builtins break and continue in level loops: status and outcome.  A count that is
  // not positive leaves all loops, and fails.
  function Effect(w: World, what: Builtin, id: nat, t: Trace, level: nat): (int, Outcome) {
    match what
    case Plain => (w.status(t, id), Normal)
    case BreakBuiltin(n) =>
      if level == 0 then (0, Normal)
      else if n <= 0 then (1, Break(level))
      else (0, Break(Min(n, level)))
    case ContinueBuiltin(n) =>
      if level == 0 then (0, Normal)
      else if n <= 0 then (1, Break(level))
      else (0, Continue(Min(n, level)))
  }

  // A while or until loop in a context that is (not) exempt.
  datatype Testing = Testing(id: nat, until: bool, test: Command, action: Command, exempt: bool)

  // What is left of a break or continue once one loop has taken its part.
  function Taken(o: Outcome): Outcome {
    match o
    case Break(n) => if n <= 1 then Normal else Break(n - 1)
    case Continue(n) => if n <= 1 then Normal else Continue(n - 1)
    case _ => o
  }

  // Does the loop go round again after a body that ended so?
  predicate Again(o: Outcome) { o == Normal || (o.Continue? && o.n <= 1) }

  predicate Positive(o: Outcome) { (o.Break? ==> o.n > 0) && (o.Continue? ==> o.n > 0) }

  // The meaning of c in a context that is (not) exempt from set -e.
  function Sem(w: World, c: Command, exempt: bool, t: Trace, level: nat, fuel: nat): (r: Res)
    ensures r.level >= level && Positive(r.o)
    decreases fuel, c, 1
  {
    if c.Null? then Res(Normal, 0, t, level)
    else
      var ex := exempt || (w.errexit && c.invert);
      var r := Body(w, c, ex, t, level, fuel);
      if Ended(r.o) then r else r.(status := Invert(c.invert, r.status))
  }

  function Body(w: World, c: Command, ex: bool, t: Trace, level: nat, fuel: nat): (r: Res)
    requires !c.Null?
    ensures r.level >= level && Positive(r.o)
    decreases fuel, c, 0
  {
    match c
    case Simple(id, invert, what) =>
      var (st, o) := Effect(w, what, id, t, level);
      var t' := t + [Run(id, st)];
      if st != 0 && w.errexit && !ex && !invert then Res(Exit, st, t', level) else Res(o, st, t', level)
    case Grp(_, _, body) => Sem(w, body, ex, t, level, fuel)
    case Conn(_, _, op, first, second) =>
      var r := Sem(w, first, ex || op != Semi, t, level, fuel);
      if r.o != Normal || (op == AndAnd && r.status != 0) || (op == OrOr && r.status == 0) then r
      else Sem(w, second, ex, r.trace, r.level, fuel)
    case If(_, _, test, thn, els) =>
      var r := Sem(w, test, true, t, level, fuel);
      if r.o != Normal then r
      else Sem(w, if r.status == 0 then thn else els, ex, r.trace, r.level, fuel)
    case Case(id, _, clauses) => CaseFrom(w, id, clauses, 0, ex, Res(Normal, 0, t, level), fuel)
    case For(id, _, action) =>
      var n := w.words(t, id);
      ForFrom(w, id, action, 0, n, ex, Res(Normal, 0, t + [Words(id, n)], level + 1), fuel)
    case ArithFor(id, _, action) =>
      var (ok, v) := w.arith(t, id, Init);
      var t' := t + [Eval(id, Init, ok, v)];
      if !ok then Res(Normal, 1, t', level + 1)      // loop_level has been raised already
      else ArithFrom(w, id, action, ex, Res(Normal, 0, t', level + 1), fuel)
    case Loop(id, _, until, test, action) =>
      LoopFrom(w, Testing(id, until, test, action, ex), Res(Normal, 0, t, level + 1), fuel)
  }

  // Leaving a loop that is at r: loop_level goes down, the outcome has been taken care of.
  function Leave(r: Res, o: Outcome): Res
    requires r.level > 0
  {
    r.(o := o, level := r.level - 1)
  }

  // The loops still to be left by a continue.
  function Pending(o: Outcome): nat { if o.Continue? then o.n else 0 }

  // Leaving a while or until loop whose test came out as c, with the status of its last body:
  // the loop takes its part of a break, but not of a continue.
  function LeaveByTest(l: Testing, status: int, c: Res): Res
    requires c.level > 0
  {
    Leave(c.(status := status, trace := c.trace + [TestEnded(l.id, Pending(c.o), c.level)]),
          if c.o.Break? then Taken(c.o) else c.o)
  }

  // A for loop about to bind its k-th word of n, with r so far.
  function ForFrom(w: World, id: nat, action: Command, k: nat, n: nat, ex: bool, r: Res, fuel: nat): (r': Res)
    requires k <= n && r.level > 0
    ensures r'.level >= r.level - 1 && Positive(r'.o)
    decreases fuel, action, n - k + 1
  {
    if k == n then Leave(r, Normal)
    else
      var b := Sem(w, action, ex, r.trace + [Bound(id, k)], r.level, fuel);
      if Ended(b.o) then b
      else if Again(b.o) then ForFrom(w, id, action, k + 1, n, ex, b.(o := Normal), fuel)
      else Leave(b, Taken(b.o))
  }

  // An arithmetic for loop about to evaluate its test, with r so far.
  function ArithFrom(w: World, id: nat, action: Command, ex: bool, r: Res, fuel: nat): (r': Res)
    requires r.level > 0
    ensures r'.level >= r.level - 1 && Positive(r'.o)
    decreases fuel, action, 2
  {
    if fuel == 0 then r.(o := Unfinished)
    else
      var (ok, v) := w.arith(r.trace, id, Test);
      var t := r.trace + [Eval(id, Test, ok, v)];
      if !ok then Leave(r.(trace := t, status := 1), Normal)
      else if v == 0 then Leave(r.(trace := t), Normal)
      else ArithAfter(w, id, action, ex, Sem(w, action, ex, t, r.level, fuel - 1), fuel - 1)
  }

  // ... after its body came out as b.
  function ArithAfter(w: World, id: nat, action: Command, ex: bool, b: Res, fuel: nat): (r': Res)
    requires b.level > 0 && Positive(b.o)
    ensures r'.level >= b.level - 1 && Positive(r'.o)
    decreases fuel, action, 3
  {
    if Ended(b.o) then b
    else if !Again(b.o) then Leave(b, Taken(b.o))
    else
      var (ok, v) := w.arith(b.trace, id, Update);
      var t := b.trace + [Eval(id, Update, ok, v)];
      if !ok then Leave(b.(trace := t, status := 1), Normal)
      else ArithFrom(w, id, action, ex, b.(o := Normal, trace := t), fuel)
  }

  // A while or until loop about to run its test, with the status of its last body in r.
  function LoopFrom(w: World, l: Testing, r: Res, fuel: nat): (r': Res)
    requires r.level > 0
    ensures r'.level >= r.level - 1 && Positive(r'.o)
    decreases fuel, l.action, 2
  {
    if fuel == 0 then r.(o := Unfinished)
    else LoopTested(w, l, r.status, Sem(w, l.test, true, r.trace, r.level, fuel - 1), fuel - 1)
  }

  // ... after its test came out as c.
  function LoopTested(w: World, l: Testing, status: int, c: Res, fuel: nat): (r': Res)
    requires c.level > 0 && Positive(c.o)
    ensures r'.level >= c.level - 1 && Positive(r'.o)
    decreases fuel, l.action, 4
  {
    if Ended(c.o) then c
    else if (c.status == 0) == l.until then
      LeaveByTest(l, status, c)
    else
      LoopAfter(w, l, if c.o == Normal then Sem(w, l.action, l.exempt, c.trace, c.level, fuel) else c, fuel)
  }

  // ... after its body came out as b.
  function LoopAfter(w: World, l: Testing, b: Res, fuel: nat): (r': Res)
    requires b.level > 0 && Positive(b.o)
    ensures r'.level >= b.level - 1 && Positive(r'.o)
    decreases fuel, l.action, 3
  {
    if Ended(b.o) then b
    else if Again(b.o) then LoopFrom(w, l, b.(o := Normal), fuel)
    else Leave(b, Taken(b.o))
  }

  // A case command about to test the first of clauses, its k-th, with r so far.  The
  // patterns of the clauses behind ;;& are tested even after a break.
  function CaseFrom(w: World, id: nat, clauses: Clauses, k: nat, ex: bool, r: Res, fuel: nat): (r': Res)
    requires Positive(r.o)
    ensures r'.level >= r.level && Positive(r'.o)
    decreases fuel, clauses, 1
  {
    if clauses.NoClause? then r
    else
      var m := w.matches(r.trace, id, k);
      var r1 := r.(trace := r.trace + [Tested(id, k, m)]);
      if m then RunFrom(w, id, clauses, k, ex, r1, fuel)
      else CaseFrom(w, id, clauses.rest, k + 1, ex, r1, fuel)
  }

  // The first of clauses matched, or the one before it fell through.
  function RunFrom(w: World, id: nat, clauses: Clauses, k: nat, ex: bool, r: Res, fuel: nat): (r': Res)
    requires clauses.Clause? && Positive(r.o)
    ensures r'.level >= r.level && Positive(r'.o)
    decreases fuel, clauses, 0
  {
    var b := if r.o == Normal then Sem(w, clauses.action, ex, r.trace, r.level, fuel) else r;
    if Ended(b.o) then b
    else
      match clauses.end
      case Stop => b
      case FallThrough => if clauses.rest.NoClause? then b else RunFrom(w, id, clauses.rest, k + 1, ex, b, fuel)
      case TestNext => CaseFrom(w, id, clauses.rest, k + 1, ex, b, fuel)
  }
}
