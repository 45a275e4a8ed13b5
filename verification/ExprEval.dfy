/** What the evaluator of expr.c computes, as functions of its whole state. */
module ExprEval {
  import opened Int64
  import opened Numerals
  import opened ExprState

  function Limit(m: Machine): nat { MAX_EXPR_RECURSION_LEVEL - m.depth }

  // What every successful step keeps: the text, the depth of the context stack and noeval;
  // input is only consumed; and nothing is stored while noeval is set.
  ghost predicate Keeps(m: Machine, m': Machine) {
    && m'.text == m.text && m'.depth == m.depth && m'.noeval == m.noeval
    && m.tp <= m'.tp && Rem(m') <= Rem(m)
    && (m.noeval > 0 ==> m'.store == m.store)
  }

  // Read the next token, reading the value of a variable as it goes by.
  function ReadTok(m: Machine): (r: Step)
    ensures r.Go? ==> Keeps(m, r.m) && r.m.last == m.cur && (m.cur != End ==> Rem(r.m) < Rem(m))
    ensures r.Stop? && m.noeval > 0 ==> r.store == m.store
    decreases Limit(m), |m.text| - m.tp, 0
  {
    var i := SkipWhite(m.text, m.tp);
    var c := At(m.text, i);
    if c == '\0' then
      Go(m.(last := m.cur, cur := End, tp := i))
    else if NameStart(c) then
      var cp := NameEnd(m.text, i + 1);
      if At(m.text, cp) == '[' then Stop(Subscript, m.store)
      else
        match ReadTok(Saved(m, i, cp).(tp := cp, noeval := 1, cur := Str))
        case Stop(e, st) => Stop(e, st)
        case Go(peek) => NameToken(m, i, cp, peek)
    else if IsDigit(c) then
      var cp := NumEnd(m.text, i + 1);
      match Strlong(m.text[i..cp])
      case BadNumber => Stop(BadNum, m.store)
      case Value(v) => Go(m.(val := v, last := m.cur, cur := Num, tp := cp))
    else
      match LexOp(m.text, i, m.cur == Str, m.asg)
      case NoOp => Stop(Syntax, m.store)
      case OpToken(t, asg, next) => Go(m.(asg := asg, last := m.cur, cur := t, tp := next))
  }

  // The token state kept aside while the token behind the name is looked at.
  function Saved(m: Machine, i: nat, cp: nat): Machine
    requires i <= cp <= |m.text|
  {
    m.(str := m.text[i..cp], tp := i)
  }

  // The name from i to cp, once the token behind it is known: its value is read unless
  // it is about to be assigned.
  function NameToken(m: Machine, i: nat, cp: nat, peek: Machine): (r: Step)
    requires m.tp <= i < cp <= |m.text|
    requires m.noeval > 0 ==> peek.store == m.store
    ensures r.Go? ==> Keeps(m, r.m) && r.m.last == m.cur && (m.cur != End ==> Rem(r.m) < Rem(m))
    ensures r.Stop? && m.noeval > 0 ==> r.store == m.store
    decreases Limit(m), 0, 3
  {
    var back := Saved(m, i, cp).(asg := peek.asg, store := peek.store);
    if m.last == PreInc || m.last == PreDec || peek.cur != Ch('=') then
      match VariableValue(back.str, back)
      case Fail(e, st) => Stop(e, st)
      case Ok(v, m') => Go(m'.(val := v, last := m.cur, cur := Str, tp := cp))
    else
      Go(back.(val := 0, last := m.cur, cur := Str, tp := cp))
  }

  // expr_streval on a scalar: the value of the text stored in the variable.
  function VariableValue(name: string, m: Machine): (r: Result)
    requires m.tp < |m.text|
    ensures r.Ok? ==> Keeps(m, r.m) && r.m.tp == m.tp && r.m.cur == m.cur
    ensures r.Ok? ==> r.m == m.(store := r.m.store, asg := r.m.asg)
    ensures r.Fail? && m.noeval > 0 ==> r.store == m.store
    decreases Limit(m), 0, 2
  {
    if name in m.store && m.store[name] != "" then SubExpr(m.store[name], m) else Ok(0, m)
  }

  // pushexp, and the token state in which a text is read.
  function Inner(expr: string, m: Machine): Machine
    requires m.depth < MAX_EXPR_RECURSION_LEVEL
  {
    m.(depth := m.depth + 1, text := expr, tp := 0, cur := End, last := End, str := "", val := 0)
  }

  // Evaluate a text in a fresh token state and come back to the old one.
  function SubExpr(expr: string, m: Machine): (r: Result)
    ensures r.Ok? ==> r.m == m.(store := r.m.store, asg := r.m.asg)
    ensures r.Ok? && m.noeval > 0 ==> r.m.store == m.store
    ensures r.Fail? && m.noeval > 0 ==> r.store == m.store
    decreases Limit(m), 0, 1
  {
    if At(expr, SkipWhite(expr, 0)) == '\0' then Ok(0, m)
    else if m.depth >= MAX_EXPR_RECURSION_LEVEL then Fail(RecursionLimit, m.store)
    else
      match ReadTok(Inner(expr, m))
      case Stop(e, st) => Fail(e, st)
      case Go(m1) =>
        match Parse(TOP, m1)
        case Fail(e, st) => Fail(e, st)
        case Ok(v, m2) =>
          if m2.cur != End then Fail(Syntax, m2.store)
          else Ok(v, m.(store := m2.store, asg := m2.asg))
  }

  // The function of level k of the grammar: expcomma for 15, down to exp0 for 0.
  function Parse(k: nat, m: Machine): (r: Result)
    requires k <= TOP
    ensures r.Ok? ==> Keeps(m, r.m)
    ensures r.Fail? && m.noeval > 0 ==> r.store == m.store
    decreases Limit(m), Rem(m), 2 * k + 4
  {
    if k == 0 then Primary(m)
    else if k == 1 then UnaryLevel(m)
    else
      var first := Parse(k - 1, m);
      if first.Fail? then first else Above(k, first.v, first.m)
  }

  // Level k behind its first operand, of the level below.
  function Above(k: nat, v: I64, m: Machine): (r: Result)
    requires 2 <= k <= TOP
    ensures r.Ok? ==> Keeps(m, r.m)
    ensures r.Fail? && m.noeval > 0 ==> r.store == m.store
    decreases Limit(m), Rem(m), 2 * k + 3
  {
    if k == 2 then PowerLoop(v, m)
    else if k == 13 then CondTail(v, m)
    else if k == 14 then AssignTail(v, m)
    else LeftLoop(k, v, m)
  }

  // The loop of a left-associative level.  The operand that && or || need not evaluate
  // is read with noeval raised, and with it the token that starts the operand.
  function LeftLoop(k: nat, v: I64, m: Machine): (r: Result)
    requires LeftAssoc(k)
    ensures r.Ok? ==> Keeps(m, r.m)
    ensures r.Fail? && m.noeval > 0 ==> r.store == m.store
    decreases Limit(m), Rem(m), 2 * k + 2
  {
    if !Continues(k, m.cur) then Ok(v, m)
    else
      var op := m.cur;
      var skip := Skips(k, v);
      match ReadTok(if skip then m.(noeval := m.noeval + 1) else m)
      case Stop(e, st) => Fail(e, st)
      case Go(m1) =>
        match Parse(k - 1, m1)
        case Fail(e, st) => Fail(e, st)
        case Ok(v2, m2) =>
          match BinaryValue(op, v, v2)
          case Bad(e) => Fail(e, m2.store)
          case Done(w) =>
            var m3 := m2.(noeval := m.noeval, last := if k == 11 || k == 12 then op else m2.last);
            LeftLoop(k, w, m3)
  }

  function PowerLoop(v: I64, m: Machine): (r: Result)
    ensures r.Ok? ==> Keeps(m, r.m)
    ensures r.Fail? && m.noeval > 0 ==> r.store == m.store
    decreases Limit(m), Rem(m), 6
  {
    if m.cur != Power then Ok(v, m)
    else
      match ReadTok(m)
      case Stop(e, st) => Fail(e, st)
      case Go(m1) =>
        match Parse(2, m1)
        case Fail(e, st) => Fail(e, st)
        case Ok(v2, m2) =>
          match PowerValue(v, v2)
          case Bad(e) => Fail(e, m2.store)
          case Done(w) => if v2 == 0 then Ok(1, m2) else PowerLoop(w, m2)
  }

  // ?: after its condition.  The first token of each arm is read before noeval is raised.
  function CondTail(c: I64, m: Machine): (r: Result)
    ensures r.Ok? ==> Keeps(m, r.m)
    ensures r.Fail? && m.noeval > 0 ==> r.store == m.store
    decreases Limit(m), Rem(m), 28
  {
    if m.cur != Ch('?') then Ok(c, m)
    else
      match ReadTok(m)
      case Stop(e, st) => Fail(e, st)
      case Go(m1) =>
        if m1.cur == End || m1.cur == Ch(':') then Fail(Syntax, m1.store)
        else
          match Parse(TOP, if c == 0 then m1.(noeval := m1.noeval + 1) else m1)
          case Fail(e, st) => Fail(e, st)
          case Ok(v1, m2) =>
            if m2.cur != Ch(':') then Fail(Syntax, m2.store)
            else
              match ReadTok(m2.(noeval := m.noeval))
              case Stop(e, st) => Fail(e, st)
              case Go(m3) =>
                if m3.cur == End then Fail(Syntax, m3.store)
                else
                  match Parse(13, if c != 0 then m3.(noeval := m3.noeval + 1) else m3)
                  case Fail(e, st) => Fail(e, st)
                  case Ok(v2, m4) =>
                    Ok(if c != 0 then v1 else v2, m4.(noeval := m.noeval, last := CondTok))
  }

  // = and OP= after their left-hand side.
  function AssignTail(lhs: I64, m: Machine): (r: Result)
    ensures r.Ok? ==> Keeps(m, r.m)
    ensures r.Fail? && m.noeval > 0 ==> r.store == m.store
    decreases Limit(m), Rem(m), 30
  {
    if m.cur != Ch('=') && m.cur != OpAssign then Ok(lhs, m)
    else if m.last != Str then Fail(NotAVariable, m.store)
    else
      var s := ReadTok(m);
      if s.Stop? then Fail(s.error, s.store) else Assigned(Parse(14, s.m), m, lhs)
  }

  // What = or OP= at m makes of the old value and the right-hand side.
  function NewValue(m: Machine, lhs: I64, rhs: I64): Arith {
    if m.cur == OpAssign then BinaryValue(m.asg, lhs, rhs) else Done(rhs)
  }

  // The result of an assignment at m1 whose right-hand side came out as r.
  function Assigned(r: Result, m1: Machine, lhs: I64): Result {
    if r.Fail? then r
    else
      var a := NewValue(m1, lhs, r.v);
      if a.Done? then Ok(a.v, Bind(r.m, m1.str, a.v).(str := "")) else Fail(a.error, r.m.store)
  }

  // expr_bind_variable, unless noeval is set.
  function Bind(m: Machine, name: string, v: I64): Machine {
    if m.noeval == 0 then m.(store := m.store[name := Itos(v)]) else m
  }

  function UnaryLevel(m: Machine): (r: Result)
    ensures r.Ok? ==> Keeps(m, r.m)
    ensures r.Fail? && m.noeval > 0 ==> r.store == m.store
    decreases Limit(m), Rem(m), 2
  {
    if Unary(m.cur) then
      match ReadTok(m)
      case Stop(e, st) => Fail(e, st)
      case Go(m1) =>
        match UnaryLevel(m1)
        case Fail(e, st) => Fail(e, st)
        case Ok(v, m2) => Ok(UnaryValue(m.cur, v), m2)
    else Primary(m)
  }

  function Primary(m: Machine): (r: Result)
    ensures r.Ok? ==> Keeps(m, r.m)
    ensures r.Fail? && m.noeval > 0 ==> r.store == m.store
    decreases Limit(m), Rem(m), 1
  {
    match m.cur
    case PreInc => PreStep(m, true)
    case PreDec => PreStep(m, false)
    case Num => Finish(m.val, m)
    case Str =>
      (match ReadTok(m.(str := "", noeval := 1))
       case Stop(e, st) => Fail(e, st)
       case Go(peek) =>
         if peek.cur == PostInc || peek.cur == PostDec then
           var w := Stepped(m.val, peek.cur == PostInc);
           var m1 := peek.(str := m.str, noeval := m.noeval, last := Str, cur := Num);
           Finish(m.val, Bind(m1, m.str, w))
         else
           Finish(m.val, m.(asg := peek.asg, store := peek.store)))
    case Ch(c) =>
      if c == '(' then
        match ReadTok(m)
        case Stop(e, st) => Fail(e, st)
        case Go(m1) =>
          match Parse(TOP, m1)
          case Fail(e, st) => Fail(e, st)
          case Ok(v, m2) => if m2.cur != Ch(')') then Fail(Syntax, m2.store) else Finish(v, m2)
      else Fail(Syntax, m.store)
    case _ => Fail(Syntax, m.store)
  }

  function PreStep(m: Machine, up: bool): (r: Result)
    requires m.cur != End
    ensures r.Ok? ==> Keeps(m, r.m)
    ensures r.Fail? && m.noeval > 0 ==> r.store == m.store
    decreases Limit(m), Rem(m), 0
  {
    match ReadTok(m.(last := m.cur))
    case Stop(e, st) => Fail(e, st)
    case Go(m1) =>
      if m1.cur != Str then Fail(Syntax, m1.store)
      else
        var w := Stepped(m1.val, up);
        Finish(w, Bind(m1, m1.str, w).(cur := Num))
  }

  // The last step of exp0: deliver v and read the token after the operand.
  function Finish(v: I64, m: Machine): (r: Result)
    requires m.cur != End
    ensures r.Ok? ==> Keeps(m, r.m) && Rem(r.m) < Rem(m)
    ensures r.Fail? && m.noeval > 0 ==> r.store == m.store
    decreases Limit(m), |m.text| - m.tp, 1
  {
    match ReadTok(m)
    case Stop(e, st) => Fail(e, st)
    case Go(m1) => Ok(v, m1)
  }

  // evalexp: on an error the context stack is unwound and the value is 0.
  datatype Outcome = Valid(value: I64, store: Store) | Invalid(error: Error, store: Store)

  function EvalExp(expr: string, m: Machine): Outcome {
    match SubExpr(expr, m.(noeval := 0))
    case Ok(v, m') => Valid(v, m'.store)
    case Fail(e, st) => Invalid(e, st)
  }
}
