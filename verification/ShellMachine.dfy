/** The interpreter of execute_cmd.c: break and continue are counters that every command
    looks at, and exemption from set -e is a flag written into the command tree while it
    runs.  Each method is proved to do what ShellSemantics says. */
module ShellMachine {
  import opened ShellSemantics

  datatype Signal = Ret(status: int) | Jumped(status: int) | OutOfFuel

  function Ids(c: Command): set<nat> {
    match c
    case Null => {}
    case Simple(id, _, _) => {id}
    case For(id, _, action) => {id} + Ids(action)
    case ArithFor(id, _, action) => {id} + Ids(action)
    case Case(id, _, clauses) => {id} + ClauseIds(clauses)
    case Loop(id, _, _, test, action) => {id} + Ids(test) + Ids(action)
    case If(id, _, test, thn, els) => {id} + Ids(test) + Ids(thn) + Ids(els)
    case Grp(id, _, body) => {id} + Ids(body)
    case Conn(id, _, _, first, second) => {id} + Ids(first) + Ids(second)
  }

  function ClauseIds(clauses: Clauses): set<nat> {
    match clauses
    case NoClause => {}
    case Clause(action, _, rest) => Ids(action) + ClauseIds(rest)
  }

  // Every node is a node of its own.
  predicate Distinct(c: Command) {
    match c
    case Null => true
    case Simple(_, _, _) => true
    case For(id, _, action) => id !in Ids(action) && Distinct(action)
    case ArithFor(id, _, action) => id !in Ids(action) && Distinct(action)
    case Case(id, _, clauses) => id !in ClauseIds(clauses) && DistinctClauses(clauses)
    case Loop(id, _, _, test, action) =>
      id !in Ids(test) + Ids(action) && Ids(test) !! Ids(action) && Distinct(test) && Distinct(action)
    case If(id, _, test, thn, els) =>
      && id !in Ids(test) + Ids(thn) + Ids(els) && Ids(test) !! Ids(thn) !! Ids(els)
      && Distinct(test) && Distinct(thn) && Distinct(els)
    case Grp(id, _, body) => id !in Ids(body) && Distinct(body)
    case Conn(id, _, _, first, second) =>
      id !in Ids(first) + Ids(second) && Ids(first) !! Ids(second) && Distinct(first) && Distinct(second)
  }

  predicate DistinctClauses(clauses: Clauses) {
    match clauses
    case NoClause => true
    case Clause(action, _, rest) => Ids(action) !! ClauseIds(rest) && Distinct(action) && DistinctClauses(rest)
  }

  // The nodes below c.
  function Below(c: Command): set<nat> {
    if c.Null? then {}
    else
      match c
      case Null => {}
      case Simple(_, _, _) => {}
      case For(_, _, action) => Ids(action)
      case ArithFor(_, _, action) => Ids(action)
      case Case(_, _, clauses) => ClauseIds(clauses)
      case Loop(_, _, _, test, action) => Ids(test) + Ids(action)
      case If(_, _, test, thn, els) => Ids(test) + Ids(thn) + Ids(els)
      case Grp(_, _, body) => Ids(body)
      case Conn(_, _, _, first, second) => Ids(first) + Ids(second)
  }

  lemma IdsBelow(c: Command)
    requires !c.Null?
    ensures Ids(c) == {c.id} + Below(c)
    ensures Distinct(c) ==> c.id !in Below(c)
  {
  }

  // The flags: a node is only flagged in an exempt context, which is read off the tree.
  predicate FlagsOk(c: Command, exempt: bool, errexit: bool, flags: set<nat>)
    decreases c, 1
  {
    !c.Null? ==>
      var ex := exempt || (errexit && c.invert);
      (c.id in flags ==> ex) && BelowOk(c, ex, errexit, flags)
  }

  predicate BelowOk(c: Command, ex: bool, errexit: bool, flags: set<nat>)
    decreases c, 0
  {
    match c
    case Null => true
    case Simple(_, _, _) => true
    case For(_, _, action) => FlagsOk(action, ex, errexit, flags)
    case ArithFor(_, _, action) => FlagsOk(action, ex, errexit, flags)
    case Case(_, _, clauses) => ClauseFlagsOk(clauses, ex, errexit, flags)
    case Loop(_, _, _, test, action) => FlagsOk(test, true, errexit, flags) && FlagsOk(action, ex, errexit, flags)
    case If(_, _, test, thn, els) =>
      FlagsOk(test, true, errexit, flags) && FlagsOk(thn, ex, errexit, flags) && FlagsOk(els, ex, errexit, flags)
    case Grp(_, _, body) => FlagsOk(body, ex, errexit, flags)
    case Conn(_, _, op, first, second) =>
      FlagsOk(first, ex || op != Semi, errexit, flags) && FlagsOk(second, ex, errexit, flags)
  }

  predicate ClauseFlagsOk(clauses: Clauses, ex: bool, errexit: bool, flags: set<nat>)
    decreases clauses, 0
  {
    match clauses
    case NoClause => true
    case Clause(action, _, rest) => FlagsOk(action, ex, errexit, flags) && ClauseFlagsOk(rest, ex, errexit, flags)
  }

  // Flags on nodes elsewhere do not matter.
  lemma {:induction false} FlagsFrame(c: Command, exempt: bool, errexit: bool, f: set<nat>, f': set<nat>)
    requires FlagsOk(c, exempt, errexit, f) && f' * Ids(c) <= f
    ensures FlagsOk(c, exempt, errexit, f')
    decreases c, 1
  {
    if !c.Null? {
      IdsBelow(c);
      assert c.id in f' ==> c.id in f' * Ids(c);
      BelowFrame(c, exempt || (errexit && c.invert), errexit, f, f');
    }
  }

  lemma {:induction false} BelowFrame(c: Command, ex: bool, errexit: bool, f: set<nat>, f': set<nat>)
    requires BelowOk(c, ex, errexit, f) && f' * Below(c) <= f
    ensures BelowOk(c, ex, errexit, f')
    decreases c, 0
  {
    match c
    case Null =>
    case Simple(_, _, _) =>
    case For(_, _, action) => FlagsFrame(action, ex, errexit, f, f');
    case ArithFor(_, _, action) => FlagsFrame(action, ex, errexit, f, f');
    case Case(_, _, clauses) => ClauseFlagsFrame(clauses, ex, errexit, f, f');
    case Loop(_, _, _, test, action) =>
      FlagsFrame(test, true, errexit, f, f');
      FlagsFrame(action, ex, errexit, f, f');
    case If(_, _, test, thn, els) =>
      FlagsFrame(test, true, errexit, f, f');
      FlagsFrame(thn, ex, errexit, f, f');
      FlagsFrame(els, ex, errexit, f, f');
    case Grp(_, _, body) => FlagsFrame(body, ex, errexit, f, f');
    case Conn(_, _, op, first, second) =>
      FlagsFrame(first, ex || op != Semi, errexit, f, f');
      FlagsFrame(second, ex, errexit, f, f');
  }

  lemma {:induction false} ClauseFlagsFrame(clauses: Clauses, ex: bool, errexit: bool, f: set<nat>, f': set<nat>)
    requires ClauseFlagsOk(clauses, ex, errexit, f) && f' * ClauseIds(clauses) <= f
    ensures ClauseFlagsOk(clauses, ex, errexit, f')
    decreases clauses, 0
  {
    match clauses
    case NoClause =>
    case Clause(action, _, rest) =>
      FlagsFrame(action, ex, errexit, f, f');
      ClauseFlagsFrame(rest, ex, errexit, f, f');
  }

  lemma FlagsSplit(c: Command, exempt: bool, errexit: bool, flags: set<nat>)
    requires !c.Null?
    ensures var ex := exempt || (errexit && c.invert);
            FlagsOk(c, exempt, errexit, flags) <==> (c.id in flags ==> ex) && BelowOk(c, ex, errexit, flags)
  {
    hide BelowOk;
  }

  // Flagging the node itself changes nothing below it.
  lemma FlagSelf(c: Command, ex: bool, errexit: bool, flags: set<nat>)
    requires !c.Null? && Distinct(c) && BelowOk(c, ex, errexit, flags)
    ensures BelowOk(c, ex, errexit, flags + {c.id})
  {
    IdsBelow(c);
    hide Distinct, Ids, Below;
    BelowFrame(c, ex, errexit, flags, flags + {c.id});
  }

  // Flagging nodes below does not flag the node.
  lemma GrowBelow(c: Command, f: set<nat>, f': set<nat>)
    requires !c.Null? && Distinct(c) && f <= f' <= f + Below(c)
    ensures c.id in f' <==> c.id in f
    ensures f <= f' <= f + Ids(c) && f' <= (f + {c.id}) + Ids(c)
  {
    IdsBelow(c);
    hide Distinct, Ids, Below;
  }

  lemma SemIs(w: World, c: Command, exempt: bool, t: Trace, level: nat, fuel: nat)
    ensures Sem(w, c, exempt, t, level, fuel) ==
            if c.Null? then Res(Normal, 0, t, level)
            else Inverted(c.invert, Body(w, c, exempt || (w.errexit && c.invert), t, level, fuel))
  {
    hide Body;
  }

  function Inverted(invert: bool, r: Res): Res {
    if Ended(r.o) then r else r.(status := Invert(invert, r.status))
  }

  lemma ArithFromIs(w: World, id: nat, action: Command, ex: bool, r: Res, fuel: nat)
    requires r.level > 0 && fuel > 0
    ensures var (ok, v) := w.arith(r.trace, id, Test);
            var t := r.trace + [Eval(id, Test, ok, v)];
            ArithFrom(w, id, action, ex, r, fuel) ==
            if !ok then Leave(r.(trace := t, status := 1), Normal)
            else if v == 0 then Leave(r.(trace := t), Normal)
            else ArithAfter(w, id, action, ex, Sem(w, action, ex, t, r.level, fuel - 1), fuel - 1)
  {
    hide Sem, ArithAfter;
  }

  lemma ArithAfterIs(w: World, id: nat, action: Command, ex: bool, b: Res, fuel: nat)
    requires b.level > 0 && Positive(b.o)
    ensures var (ok, v) := w.arith(b.trace, id, Update);
            var t := b.trace + [Eval(id, Update, ok, v)];
            ArithAfter(w, id, action, ex, b, fuel) ==
            if Ended(b.o) then b
            else if !Again(b.o) then Leave(b, Taken(b.o))
            else if !ok then Leave(b.(trace := t, status := 1), Normal)
            else ArithFrom(w, id, action, ex, b.(o := Normal, trace := t), fuel)
  {
    hide ArithFrom;
  }

  function LoopIds(l: Testing): set<nat> {
    Ids(l.test) + Ids(l.action)
  }

  lemma OutOfRounds(w: World, id: nat, l: Testing, action: Command, ex: bool, r: Res)
    requires r.level > 0
    ensures LoopFrom(w, l, r, 0) == r.(o := Unfinished)
    ensures ArithFrom(w, id, action, ex, r, 0) == r.(o := Unfinished)
  {
  }

  lemma LoopRoundIs(w: World, l: Testing, r: Res, fuel: nat)
    requires r.level > 0
    ensures var c := Sem(w, l.test, true, r.trace, r.level, fuel);
            LoopFrom(w, l, r, fuel + 1) ==
            if Ended(c.o) then c
            else if (c.status == 0) == l.until then
              LeaveByTest(l, r.status, c)
            else LoopAfter(w, l, if c.o == Normal then Sem(w, l.action, l.exempt, c.trace, c.level, fuel) else c, fuel)
  {
    hide Sem, LoopAfter;
  }

  lemma LoopAfterIs(w: World, l: Testing, b: Res, fuel: nat)
    requires b.level > 0 && Positive(b.o)
    ensures LoopAfter(w, l, b, fuel) ==
            if Ended(b.o) then b
            else if Again(b.o) then LoopFrom(w, l, b.(o := Normal), fuel)
            else Leave(b, Taken(b.o))
  {
    hide LoopFrom;
  }

  class Shell {
    const w: World
    var breaking: nat
    var continuing: nat
    var loopLevel: nat
    var lastStatus: int             // last_command_exit_value
    var flags: set<nat>             // the nodes whose CMD_IGNORE_RETURN is set
    var trace: Trace

    constructor (w: World)
      ensures this.w == w && breaking == 0 && continuing == 0 && loopLevel == 0 && flags == {} && trace == []
    {
      this.w := w;
      breaking, continuing, loopLevel, lastStatus, flags, trace := 0, 0, 0, 0, {}, [];
    }

    // The counters say o.
    ghost predicate Shows(o: Outcome)
      reads this`breaking, this`continuing
    {
      match o
      case Normal => breaking == 0 && continuing == 0
      case Break(n) => n > 0 && breaking == n && continuing == 0
      case Continue(n) => n > 0 && breaking == 0 && continuing == n
      case _ => false
    }

    // A command that began normally came out as r says.
    ghost predicate Agrees(r: Res, s: Signal)
      reads this`breaking, this`continuing, this`loopLevel, this`trace
    {
      && trace == r.trace
      && match r.o
         case Exit => s == Jumped(r.status)
         case Unfinished => s == OutOfFuel
         case _ => s == Ret(r.status) && Shows(r.o) && loopLevel == r.level
    }

    ghost predicate Quiet()
      reads this`breaking, this`continuing
    {
      breaking == 0 && continuing == 0
    }

    // c can be run in a context that is (not) exempt.
    ghost predicate Ready(c: Command, exempt: bool)
      reads this`flags
    {
      Distinct(c) && FlagsOk(c, exempt, w.errexit, flags)
    }

    // The same for the test and the action of a loop.
    ghost predicate LoopReady(l: Testing)
      reads this`flags
    {
      Ready(l.test, true) && Ready(l.action, l.exempt) && Ids(l.test) !! Ids(l.action)
    }

    // Flags are only added, only on the given nodes.
    twostate predicate FlagsGrow(ids: set<nat>)
      reads this`flags
    {
      old(flags) <= flags <= old(flags) + ids
    }

    // execute_command_internal.
    method Execute(c: Command, ghost exempt: bool, fuel: nat) returns (s: Signal)
      requires Ready(c, exempt) && (exempt && !c.Null? ==> c.id in flags)
      modifies this
      ensures !old(Quiet()) ==> s == Ret(old(lastStatus)) && unchanged(this)
      ensures old(Quiet()) ==> Agrees(Sem(w, c, exempt, old(trace), old(loopLevel), fuel), s)
      ensures s.Ret? && !c.Null? ==> lastStatus == s.status
      ensures Ready(c, exempt) && FlagsGrow(Ids(c))
      decreases fuel, c, 3
    {
      hide Sem, Body, Ids, Below, Distinct, FlagsOk, BelowOk;
      if breaking > 0 || continuing > 0 {
        return Ret(lastStatus);
      }
      SemIs(w, c, exempt, trace, loopLevel, fuel);
      if c.Null? {
        return Ret(0);
      }
      ghost var ex := exempt || (w.errexit && c.invert);
      FlagsSplit(c, exempt, w.errexit, flags);
      if w.errexit && c.invert {
        FlagSelf(c, ex, w.errexit, flags);
        flags := flags + {c.id};
      }
      ghost var before := flags;
      s := Dispatch(c, ex, fuel);
      GrowBelow(c, before, flags);
      FlagsSplit(c, exempt, w.errexit, flags);
      IdsBelow(c);
      if s.Ret? {
        if c.invert {
          s := Ret(if s.status == 0 then 1 else 0);
        }
        lastStatus := s.status;
      }
    }

    // A part of a command, flagged first if its context is exempt.
    method RunPart(c: Command, exempt: bool, fuel: nat) returns (s: Signal)
      requires Ready(c, exempt)
      modifies this
      ensures !old(Quiet()) ==>
                s == Ret(old(lastStatus)) && trace == old(trace) && lastStatus == old(lastStatus) &&
                breaking == old(breaking) && continuing == old(continuing) && loopLevel == old(loopLevel)
      ensures old(Quiet()) ==> Agrees(Sem(w, c, exempt, old(trace), old(loopLevel), fuel), s)
      ensures s.Ret? && !Quiet() ==> lastStatus == s.status
      ensures Ready(c, exempt) && FlagsGrow(Ids(c))
      decreases fuel, c, 4
    {
      hide Sem, Body, Ids, Below, Distinct, FlagsOk, BelowOk;
      if exempt && !c.Null? {
        FlagsSplit(c, true, w.errexit, flags);
        FlagSelf(c, true, w.errexit, flags);
        flags := flags + {c.id};
        FlagsSplit(c, true, w.errexit, flags);
        IdsBelow(c);
      }
      SemIs(w, c, exempt, trace, loopLevel, fuel);
      s := Execute(c, exempt, fuel);
    }

    // The switch over the kinds of command; the node's own flag says whether its context is
    // exempt.
    method Dispatch(c: Command, ghost ex: bool, fuel: nat) returns (s: Signal)
      requires !c.Null? && Quiet() && Distinct(c) && BelowOk(c, ex, w.errexit, flags) && (c.id in flags <==> ex)
      modifies this
      ensures Agrees(Body(w, c, ex, old(trace), old(loopLevel), fuel), s)
      ensures BelowOk(c, ex, w.errexit, flags) && FlagsGrow(Below(c))
      decreases fuel, c, 2
    {
      hide Sem, Ids, FlagsOk;
      var ignoreReturn := c.id in flags;
      match c {
        case Simple(_, _, _) => s := SimpleCommand(c, ignoreReturn, fuel);
        case For(_, _, _) => s := ForCommand(c, ignoreReturn, fuel);
        case ArithFor(_, _, _) => s := ArithForCommand(c, ignoreReturn, fuel);
        case Case(id, _, clauses) => s := CaseCommand(id, clauses, 0, ignoreReturn, 0, Normal, fuel);
        case Loop(_, _, _, _, _) => s := WhileOrUntil(c, ignoreReturn, fuel);
        case If(_, _, _, _, _) => s := IfCommand(c, ignoreReturn, fuel);
        case Grp(_, _, body) => s := RunPart(body, ignoreReturn, fuel);
        case Conn(_, _, _, _, _) => s := Connection(c, ignoreReturn, fuel);
      }
    }

    // A simple command, the builtins break and continue among them.
    method SimpleCommand(c: Command, ignoreReturn: bool, fuel: nat) returns (s: Signal)
      requires c.Simple? && Quiet()
      modifies this
      ensures Agrees(Body(w, c, ignoreReturn, old(trace), old(loopLevel), fuel), s) && flags == old(flags)
    {
      var status := 0;
      match c.what {
        case Plain => status := w.status(trace, c.id);
        case BreakBuiltin(n) => status := BreakCommand(n);
        case ContinueBuiltin(n) => status := ContinueCommand(n);
      }
      trace := trace + [Run(c.id, status)];
      if status != 0 && w.errexit && !ignoreReturn && !c.invert {
        return Jumped(status);
      }
      s := Ret(status);
    }

    // break_builtin.
    method BreakCommand(n: int) returns (status: int)
      requires Quiet()
      modifies this`breaking
      ensures var (st, o) := Effect(w, BreakBuiltin(n), 0, trace, loopLevel); status == st && Shows(o)
    {
      if loopLevel == 0 {
        return 0;
      }
      if n <= 0 {
        breaking := loopLevel;
        return 1;
      }
      breaking := if n > loopLevel then loopLevel else n;
      status := 0;
    }

    // continue_builtin.
    method ContinueCommand(n: int) returns (status: int)
      requires Quiet()
      modifies this`breaking, this`continuing
      ensures var (st, o) := Effect(w, ContinueBuiltin(n), 0, trace, loopLevel); status == st && Shows(o)
    {
      if loopLevel == 0 {
        return 0;
      }
      if n <= 0 {
        breaking := loopLevel;
        return 1;
      }
      continuing := if n > loopLevel then loopLevel else n;
      status := 0;
    }

    // execute_connection, for ; && and ||.
    method Connection(c: Command, ignoreReturn: bool, fuel: nat) returns (s: Signal)
      requires c.Conn? && Quiet() && Distinct(c) && BelowOk(c, ignoreReturn, w.errexit, flags)
      modifies this
      ensures Agrees(Body(w, c, ignoreReturn, old(trace), old(loopLevel), fuel), s)
      ensures BelowOk(c, ignoreReturn, w.errexit, flags) && FlagsGrow(Below(c))
      decreases fuel, c, 1
    {
      s := RunPart(c.first, ignoreReturn || c.op != Semi, fuel);
      FlagsFrame(c.second, ignoreReturn, w.errexit, old(flags), flags);
      label first:
      if s.Ret? && (c.op == Semi || (c.op == AndAnd && s.status == 0) || (c.op == OrOr && s.status != 0)) {
        s := RunPart(c.second, ignoreReturn, fuel);
        FlagsFrame(c.first, ignoreReturn || c.op != Semi, w.errexit, old@first(flags), flags);
      }
    }

    // execute_if_command.
    method IfCommand(c: Command, ignoreReturn: bool, fuel: nat) returns (s: Signal)
      requires c.If? && Quiet() && Distinct(c) && BelowOk(c, ignoreReturn, w.errexit, flags)
      modifies this
      ensures Agrees(Body(w, c, ignoreReturn, old(trace), old(loopLevel), fuel), s)
      ensures BelowOk(c, ignoreReturn, w.errexit, flags) && FlagsGrow(Below(c))
      decreases fuel, c, 1
    {
      hide Sem;
      s := RunPart(c.test, true, fuel);
      FlagsFrame(c.thn, ignoreReturn, w.errexit, old(flags), flags);
      FlagsFrame(c.els, ignoreReturn, w.errexit, old(flags), flags);
      label tested:
      if s.Ret? {
        if s.status == 0 {
          s := RunPart(c.thn, ignoreReturn, fuel);
          FlagsFrame(c.els, ignoreReturn, w.errexit, old@tested(flags), flags);
        } else {
          s := RunPart(c.els, ignoreReturn, fuel);
          FlagsFrame(c.thn, ignoreReturn, w.errexit, old@tested(flags), flags);
        }
        FlagsFrame(c.test, true, w.errexit, old@tested(flags), flags);
      }
    }

    // What a loop does about the counters after its body: leave it?
    method AfterBody(ghost o: Outcome) returns (leave: bool)
      requires Shows(o)
      modifies this`breaking, this`continuing
      ensures leave <==> !Again(o)
      ensures Shows(if leave then Taken(o) else Normal)
    {
      leave := false;
      if breaking > 0 {
        breaking := breaking - 1;
        leave := true;
      } else if continuing > 0 {
        continuing := continuing - 1;
        leave := continuing > 0;
      }
    }

    // A body came out as b, and the loop has looked at the counters.
    ghost predicate CameOut(b: Res, s: Signal, leave: bool)
      reads this`breaking, this`continuing, this`loopLevel, this`trace
    {
      && trace == b.trace
      && if Ended(b.o) then s == (if b.o == Exit then Jumped(b.status) else OutOfFuel)
         else
           && s == Ret(b.status) && loopLevel == b.level && (leave <==> !Again(b.o))
           && Shows(if leave then Taken(b.o) else Normal)
    }

    // A round of a loop that is to end as r: it was left, or it goes on as next.
    ghost predicate Rounded(r: Res, next: Res, s: Signal, status: int, leave: bool)
      reads this`breaking, this`continuing, this`loopLevel, this`trace
    {
      if !s.Ret? then Agrees(r, s)
      else if leave then trace == r.trace && loopLevel == r.level + 1 && Shows(r.o) && status == r.status
      else Quiet() && loopLevel > 0 && r == next
    }

    // Leaving a loop after such a round.
    method LeaveLoop(ghost r: Res, ghost next: Res, status: int) returns (s: Signal)
      requires loopLevel > 0 && Rounded(r, next, Ret(status), status, true)
      modifies this`loopLevel
      ensures Agrees(r, s)
    {
      loopLevel := loopLevel - 1;
      s := Ret(status);
    }

    // After the body of a round.
    lemma RoundFromBody(b: Res, r: Res, s: Signal, leave: bool)
      requires b.level > 0 && Positive(b.o) && CameOut(b, s, leave)
      requires !Again(b.o) ==> r == if Ended(b.o) then b else Leave(b, Taken(b.o))
      ensures !s.Ret? ==> Agrees(r, s)
      ensures s.Ret? && leave ==> trace == r.trace && loopLevel == r.level + 1 && Shows(r.o) && s.status == r.status
      ensures s.Ret? && !leave ==>
                Again(b.o) && Quiet() && loopLevel > 0 && b.(o := Normal) == Res(Normal, s.status, trace, loopLevel)
    {
    }

    // The body of a loop, and the counters after it; c is what came before the body.
    method RunBody(action: Command, exempt: bool, ghost c: Res, fuel: nat) returns (s: Signal, leave: bool)
      requires Ready(action, exempt)
      requires trace == c.trace && loopLevel == c.level && Shows(c.o) && (c.o != Normal ==> c.status == lastStatus)
      modifies this
      ensures CameOut(if c.o == Normal then Sem(w, action, exempt, c.trace, c.level, fuel) else c, s, leave)
      ensures Ready(action, exempt) && FlagsGrow(Ids(action))
      decreases fuel, action, 5
    {
      hide Sem, Ids, Distinct, FlagsOk;
      ghost var b := if c.o == Normal then Sem(w, action, exempt, c.trace, c.level, fuel) else c;
      leave := true;
      s := RunPart(action, exempt, fuel);
      if s.Ret? {
        leave := AfterBody(b.o);
      }
    }

    // execute_for_command.
    method ForCommand(c: Command, ignoreReturn: bool, fuel: nat) returns (s: Signal)
      requires c.For? && Quiet() && Distinct(c) && BelowOk(c, ignoreReturn, w.errexit, flags)
      modifies this
      ensures Agrees(Body(w, c, ignoreReturn, old(trace), old(loopLevel), fuel), s)
      ensures BelowOk(c, ignoreReturn, w.errexit, flags) && FlagsGrow(Below(c))
      decreases fuel, c, 1
    {
      hide Sem;
      loopLevel := loopLevel + 1;
      var n := w.words(trace, c.id);
      trace := trace + [Words(c.id, n)];
      ghost var r0 := ForFrom(w, c.id, c.action, 0, n, ignoreReturn, Res(Normal, 0, trace, loopLevel), fuel);
      var retval, k := 0, 0;
      while k < n
        invariant k <= n && Quiet() && loopLevel > old(loopLevel)
        invariant FlagsOk(c.action, ignoreReturn, w.errexit, flags) && FlagsGrow(Ids(c.action))
        invariant r0 == ForFrom(w, c.id, c.action, k, n, ignoreReturn, Res(Normal, retval, trace, loopLevel), fuel)
      {
        trace := trace + [Bound(c.id, k)];
        var leave;
        s, leave := RunBody(c.action, ignoreReturn, Res(Normal, retval, trace, loopLevel), fuel);
        if !s.Ret? {
          return;
        }
        retval := s.status;
        if leave {
          loopLevel := loopLevel - 1;
          return Ret(retval);
        }
        k := k + 1;
      }
      loopLevel := loopLevel - 1;
      s := Ret(retval);
    }

    // execute_arith_for_command.
    method ArithForCommand(c: Command, ignoreReturn: bool, fuel: nat) returns (s: Signal)
      requires c.ArithFor? && Quiet() && Distinct(c) && BelowOk(c, ignoreReturn, w.errexit, flags)
      modifies this
      ensures Agrees(Body(w, c, ignoreReturn, old(trace), old(loopLevel), fuel), s)
      ensures BelowOk(c, ignoreReturn, w.errexit, flags) && FlagsGrow(Below(c))
      decreases fuel, c, 1
    {
      loopLevel := loopLevel + 1;
      var ok, _ := EvalPart(c.id, Init);
      if !ok {
        return Ret(1);
      }
      s := ArithLoop(c.id, c.action, ignoreReturn, fuel);
    }

    // Its loop.
    method ArithLoop(id: nat, action: Command, ignoreReturn: bool, fuel: nat) returns (s: Signal)
      requires Quiet() && loopLevel > 0 && Ready(action, ignoreReturn)
      modifies this
      ensures Agrees(ArithFrom(w, id, action, ignoreReturn, Res(Normal, 0, old(trace), old(loopLevel)), fuel), s)
      ensures Ready(action, ignoreReturn) && FlagsGrow(Ids(action))
      decreases fuel, action, 6
    {
      hide Sem, Ids, Distinct, FlagsOk, ArithFrom;
      var bodyStatus: int := 0;
      var f: nat := fuel;
      ghost var r0 := ArithFrom(w, id, action, ignoreReturn, Res(Normal, 0, trace, loopLevel), fuel);
      while true
        invariant f <= fuel && Quiet() && loopLevel > 0
        invariant Ready(action, ignoreReturn) && FlagsGrow(Ids(action))
        invariant r0 == ArithFrom(w, id, action, ignoreReturn, Res(Normal, bodyStatus, trace, loopLevel), f)
        decreases f
      {
        if f == 0 {
          OutOfRounds(w, id, Testing(id, false, Null, action, ignoreReturn), action, ignoreReturn,
                      Res(Normal, bodyStatus, trace, loopLevel));
          return OutOfFuel;
        }
        f := f - 1;
        var leave;
        s, bodyStatus, leave := ArithRound(id, action, ignoreReturn, bodyStatus, f);
        if !s.Ret? {
          return;
        }
        if leave {
          s := LeaveLoop(r0, ArithFrom(w, id, action, ignoreReturn, Res(Normal, bodyStatus, trace, loopLevel), f),
              bodyStatus);
          return;
        }
      }
    }

    // One round of it: the test, the body and the update.
    method ArithRound(id: nat, action: Command, ignoreReturn: bool, status: int, fuel: nat)
      returns (s: Signal, bodyStatus: int, leave: bool)
      requires Quiet() && loopLevel > 0 && Ready(action, ignoreReturn)
      modifies this
      ensures s.Ret? ==> loopLevel > 0
      ensures var r := ArithFrom(w, id, action, ignoreReturn, Res(Normal, status, old(trace), old(loopLevel)),
              fuel + 1);
              Rounded(r,
                      if s.Ret?
                      then ArithFrom(w, id, action, ignoreReturn, Res(Normal, bodyStatus, trace, loopLevel), fuel)
                      else r,
                      s, bodyStatus, leave)
      ensures Ready(action, ignoreReturn) && FlagsGrow(Ids(action))
      decreases fuel + 1, action, 0
    {
      hide Sem, Ids, Distinct, FlagsOk, ArithFrom, ArithAfter, CameOut;
      bodyStatus, leave, s := status, true, Ret(status);
      ArithFromIs(w, id, action, ignoreReturn, Res(Normal, status, trace, loopLevel), fuel + 1);
      ghost var r := ArithFrom(w, id, action, ignoreReturn, Res(Normal, status, trace, loopLevel), fuel + 1);
      var ok, value := EvalPart(id, Test);
      if !ok {
        bodyStatus := 1;
        return;
      }
      if value == 0 {
        return;
      }
      s, bodyStatus, leave := ArithBody(id, action, ignoreReturn, status, fuel);
    }

    method ArithBody(id: nat, action: Command, ignoreReturn: bool, status: int, fuel: nat)
      returns (s: Signal, bodyStatus: int, leave: bool)
      requires Quiet() && loopLevel > 0 && Ready(action, ignoreReturn)
      modifies this
      ensures s.Ret? ==> loopLevel > 0
      ensures var r := ArithAfter(w, id, action, ignoreReturn,
                                  Sem(w, action, ignoreReturn, old(trace), old(loopLevel), fuel), fuel);
              Rounded(r,
                      if s.Ret?
                      then ArithFrom(w, id, action, ignoreReturn, Res(Normal, bodyStatus, trace, loopLevel), fuel)
                      else r,
                      s, bodyStatus, leave)
      ensures Ready(action, ignoreReturn) && FlagsGrow(Ids(action))
      decreases fuel, action, 6
    {
      hide Sem, Ids, Distinct, FlagsOk, ArithFrom, ArithAfter, CameOut;
      ghost var b := Sem(w, action, ignoreReturn, trace, loopLevel, fuel);
      s, leave := RunBody(action, ignoreReturn, Res(Normal, status, trace, loopLevel), fuel);
      ArithAfterIs(w, id, action, ignoreReturn, b, fuel);
      RoundFromBody(b, ArithAfter(w, id, action, ignoreReturn, b, fuel), s, leave);
      bodyStatus := status;
      if s.Ret? {
        bodyStatus := s.status;
      }
      if s.Ret? && !leave {
        var ok, _ := EvalPart(id, Update);
        if !ok {
          bodyStatus, leave := 1, true;
        }
      }
    }

    // eval_arith_for_expr.
    method EvalPart(id: nat, part: Part) returns (ok: bool, value: int)
      modifies this`trace
      ensures (ok, value) == w.arith(old(trace), id, part)
      ensures trace == old(trace) + [Eval(id, part, ok, value)]
    {
      var r := w.arith(trace, id, part);
      ok, value := r.0, r.1;
      trace := trace + [Eval(id, part, ok, value)];
    }

    // execute_while_or_until.
    method WhileOrUntil(c: Command, ignoreReturn: bool, fuel: nat) returns (s: Signal)
      requires c.Loop? && Quiet() && Distinct(c) && BelowOk(c, ignoreReturn, w.errexit, flags)
      modifies this
      ensures Agrees(Body(w, c, ignoreReturn, old(trace), old(loopLevel), fuel), s)
      ensures BelowOk(c, ignoreReturn, w.errexit, flags) && FlagsGrow(Below(c))
      decreases fuel, c, 1
    {
      loopLevel := loopLevel + 1;
      s := TestLoop(Testing(c.id, c.until, c.test, c.action, ignoreReturn), fuel);
    }

    // Its loop.
    method TestLoop(l: Testing, fuel: nat) returns (s: Signal)
      requires Quiet() && loopLevel > 0 && LoopReady(l)
      modifies this
      ensures Agrees(LoopFrom(w, l, Res(Normal, 0, old(trace), old(loopLevel)), fuel), s)
      ensures LoopReady(l) && FlagsGrow(LoopIds(l))
      decreases fuel, l.action, 6
    {
      hide Sem, LoopIds, LoopReady, LoopFrom, Leave;
      var bodyStatus: int := 0;
      var f: nat := fuel;
      ghost var r0 := LoopFrom(w, l, Res(Normal, 0, trace, loopLevel), fuel);
      while true
        invariant f <= fuel && Quiet() && loopLevel > 0
        invariant LoopReady(l) && FlagsGrow(LoopIds(l))
        invariant r0 == LoopFrom(w, l, Res(Normal, bodyStatus, trace, loopLevel), f)
        decreases f
      {
        if f == 0 {
          OutOfRounds(w, 0, l, l.action, l.exempt, Res(Normal, bodyStatus, trace, loopLevel));
          return OutOfFuel;
        }
        f := f - 1;
        var leave;
        s, bodyStatus, leave := TestAndBody(l, bodyStatus, f);
        if !s.Ret? {
          return;
        }
        if leave {
          s := LeaveLoop(r0, LoopFrom(w, l, Res(Normal, bodyStatus, trace, loopLevel), f), bodyStatus);
          return;
        }
      }
    }

    // One round of it: the test, and the action unless the test ends the loop.
    method TestAndBody(l: Testing, status: int, fuel: nat)
      returns (s: Signal, bodyStatus: int, leave: bool)
      requires Quiet() && loopLevel > 0 && LoopReady(l)
      modifies this
      ensures s.Ret? ==> loopLevel > 0
      ensures var r := LoopFrom(w, l, Res(Normal, status, old(trace), old(loopLevel)), fuel + 1);
              Rounded(r, if s.Ret? then LoopFrom(w, l, Res(Normal, bodyStatus, trace, loopLevel), fuel) else r,
                      s, bodyStatus, leave)
      ensures LoopReady(l) && FlagsGrow(LoopIds(l))
      decreases fuel + 1, l.action, 0
    {
      hide Sem, LoopIds, LoopReady, LoopFrom, LoopAfter, Agrees, Rounded, Shows, LeaveByTest;
      bodyStatus, leave := status, true;
      ghost var r := LoopFrom(w, l, Res(Normal, status, trace, loopLevel), fuel + 1);
      ghost var c := Sem(w, l.test, true, trace, loopLevel, fuel);
      LoopRoundIs(w, l, Res(Normal, status, trace, loopLevel), fuel);
      s := RunTest(l, fuel);
      if !s.Ret? {
        return;
      }
      if (s.status == 0) == l.until {
        EndLoop(l, c, status);
        return;
      }
      s, bodyStatus, leave := LoopBody(l, c, fuel);
    }

    // The test, which leaves the flags of the action alone.
    method RunTest(l: Testing, fuel: nat) returns (s: Signal)
      requires Quiet() && LoopReady(l)
      modifies this
      ensures var c := Sem(w, l.test, true, old(trace), old(loopLevel), fuel);
              && (s.Ret? <==> !Ended(c.o))
              && (s.Ret? ==> trace == c.trace && loopLevel == c.level && Shows(c.o) && s.status == c.status)
              && (s.Ret? && c.o != Normal ==> s.status == lastStatus)
              && (!s.Ret? ==> forall status, leave :: Rounded(c, c, s, status, leave))
      ensures LoopReady(l) && FlagsGrow(LoopIds(l))
      decreases fuel, l.test, 5
    {
      hide Sem, Ids, Distinct, FlagsOk;
      ghost var before := flags;
      s := RunPart(l.test, true, fuel);
      FlagsFrame(l.action, l.exempt, w.errexit, before, flags);
    }

    // The test has ended the loop: a break takes one loop with it, a continue none.
    method EndLoop(l: Testing, ghost c: Res, status: int)
      requires trace == c.trace && loopLevel == c.level && Shows(c.o) && loopLevel > 0
      modifies this`breaking, this`trace
      ensures forall next, s: Signal :: s.Ret? ==> Rounded(LeaveByTest(l, status, c), next, s, status, true)
    {
      trace := trace + [TestEnded(l.id, continuing, loopLevel)];
      if breaking > 0 {
        breaking := breaking - 1;
      }
    }

    // The body, which leaves the flags of the test alone.
    method RunBodyBeside(l: Testing, ghost c: Res, fuel: nat) returns (s: Signal, leave: bool)
      requires LoopReady(l)
      requires trace == c.trace && loopLevel == c.level && Shows(c.o) && (c.o != Normal ==> c.status == lastStatus)
      modifies this
      ensures CameOut(if c.o == Normal then Sem(w, l.action, l.exempt, c.trace, c.level, fuel) else c, s, leave)
      ensures LoopReady(l) && FlagsGrow(LoopIds(l))
      decreases fuel, l.action, 6
    {
      hide Sem, Ids, Distinct, FlagsOk, CameOut, Shows;
      ghost var before := flags;
      s, leave := RunBody(l.action, l.exempt, c, fuel);
      FlagsFrame(l.test, true, w.errexit, before, flags);
    }

    method LoopBody(l: Testing, ghost c: Res, fuel: nat)
      returns (s: Signal, bodyStatus: int, leave: bool)
      requires trace == c.trace && loopLevel == c.level && Shows(c.o) && (c.o != Normal ==> c.status == lastStatus)
      requires loopLevel > 0 && LoopReady(l)
      modifies this
      ensures s.Ret? ==> loopLevel > 0
      ensures var r := LoopAfter(w, l,
                                 if c.o == Normal then Sem(w, l.action, l.exempt, c.trace, c.level, fuel) else c, fuel);
              Rounded(r, if s.Ret? then LoopFrom(w, l, Res(Normal, bodyStatus, trace, loopLevel), fuel) else r,
                      s, bodyStatus, leave)
      ensures LoopReady(l) && FlagsGrow(LoopIds(l))
      decreases fuel, l.action, 7
    {
      hide Sem, LoopIds, LoopReady, LoopFrom, LoopAfter, CameOut, Agrees, Leave;
      ghost var b := if c.o == Normal then Sem(w, l.action, l.exempt, c.trace, c.level, fuel) else c;
      s, leave := RunBodyBeside(l, c, fuel);
      LoopAfterIs(w, l, b, fuel);
      RoundFromBody(b, LoopAfter(w, l, b, fuel), s, leave);
      bodyStatus := if s.Ret? then s.status else 0;
    }

    // execute_case_command: clauses are what is left from the k-th clause on.
    method CaseCommand(id: nat, clauses: Clauses, k: nat, ignoreReturn: bool, status: int, ghost o: Outcome, fuel: nat)
      returns (s: Signal)
      requires DistinctClauses(clauses) && ClauseFlagsOk(clauses, ignoreReturn, w.errexit, flags)
      requires Shows(o) && (o != Normal ==> status == lastStatus)
      modifies this
      ensures Agrees(CaseFrom(w, id, clauses, k, ignoreReturn, Res(o, status, old(trace), old(loopLevel)), fuel), s)
      ensures ClauseFlagsOk(clauses, ignoreReturn, w.errexit, flags) && FlagsGrow(ClauseIds(clauses))
      decreases fuel, clauses, 2
    {
      hide Sem, Ids, Distinct, FlagsOk;
      if clauses.NoClause? {
        return Ret(status);
      }
      var matched := w.matches(trace, id, k);
      trace := trace + [Tested(id, k, matched)];
      if matched {
        s := RunClauses(id, clauses, k, ignoreReturn, status, o, fuel);
      } else {
        s := CaseCommand(id, clauses.rest, k + 1, ignoreReturn, status, o, fuel);
        FlagsFrame(clauses.action, ignoreReturn, w.errexit, old(flags), flags);
      }
    }

    // The actions from a matching clause on, through ;& and behind ;;&.
    method RunClauses(id: nat, clauses: Clauses, k: nat, ignoreReturn: bool, status: int, ghost o: Outcome, fuel: nat)
      returns (s: Signal)
      requires clauses.Clause? && DistinctClauses(clauses) && ClauseFlagsOk(clauses, ignoreReturn, w.errexit, flags)
      requires Shows(o) && (o != Normal ==> status == lastStatus)
      modifies this
      ensures Agrees(RunFrom(w, id, clauses, k, ignoreReturn, Res(o, status, old(trace), old(loopLevel)), fuel), s)
      ensures ClauseFlagsOk(clauses, ignoreReturn, w.errexit, flags) && FlagsGrow(ClauseIds(clauses))
      decreases fuel, clauses, 1
    {
      hide Sem, Ids, Distinct, FlagsOk;
      ghost var b := if o == Normal then Sem(w, clauses.action, ignoreReturn, trace, loopLevel, fuel)
                     else Res(o, status, trace, loopLevel);
      s := RunPart(clauses.action, ignoreReturn, fuel);
      ClauseFlagsFrame(clauses.rest, ignoreReturn, w.errexit, old(flags), flags);
      if !s.Ret? || clauses.end == Stop || (clauses.end == FallThrough && clauses.rest.NoClause?) {
        return;
      }
      label ran:
      if clauses.end == FallThrough {
        s := RunClauses(id, clauses.rest, k + 1, ignoreReturn, s.status, b.o, fuel);
      } else {
        s := CaseCommand(id, clauses.rest, k + 1, ignoreReturn, s.status, b.o, fuel);
      }
      FlagsFrame(clauses.action, ignoreReturn, w.errexit, old@ran(flags), flags);
    }
  }
}
