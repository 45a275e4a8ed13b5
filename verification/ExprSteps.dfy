/** One unfolding of each function of ExprEval, stated once and used both for the methods
    of ExprMachine and for the theorem of ExprParse. */
module ExprSteps {
  import opened Int64
  import opened Numerals
  import opened ExprState
  import opened ExprEval

  // ---------- readtok, by the kind of token ----------

  lemma ReadEnd(m: Machine, i: nat)
    requires i == SkipWhite(m.text, m.tp) && At(m.text, i) == '\0'
    ensures ReadTok(m) == Go(m.(last := m.cur, cur := End, tp := i))
  {
  }

  lemma ReadBadDigits(m: Machine, i: nat, cp: nat)
    requires i == SkipWhite(m.text, m.tp) && IsDigit(At(m.text, i))
    requires cp == NumEnd(m.text, i + 1) && Strlong(m.text[i..cp]) == BadNumber
    ensures ReadTok(m) == Stop(BadNum, m.store)
  {
  }

  lemma ReadNoOperator(m: Machine, i: nat)
    requires i == SkipWhite(m.text, m.tp) && i < |m.text|
    requires m.text[i] != '\0' && !NameStart(m.text[i]) && !IsDigit(m.text[i])
    requires LexOp(m.text, i, m.cur == Str, m.asg) == NoOp
    ensures ReadTok(m) == Stop(Syntax, m.store)
  {
  }

  lemma ReadSubscript(m: Machine, i: nat)
    requires i == SkipWhite(m.text, m.tp) && NameStart(At(m.text, i))
    requires At(m.text, NameEnd(m.text, i + 1)) == '['
    ensures ReadTok(m) == Stop(Subscript, m.store)
  {
  }

  lemma ReadDigits(m: Machine, i: nat, cp: nat, v: I64)
    requires i == SkipWhite(m.text, m.tp) && IsDigit(At(m.text, i))
    requires cp == NumEnd(m.text, i + 1) && Strlong(m.text[i..cp]) == Value(v)
    ensures ReadTok(m) == Go(m.(val := v, last := m.cur, cur := Num, tp := cp))
  {
  }

  lemma ReadOperator(m: Machine, i: nat, t: Token, asg: Token, next: nat)
    requires i == SkipWhite(m.text, m.tp) && i < |m.text|
    requires m.text[i] != '\0' && !NameStart(m.text[i]) && !IsDigit(m.text[i])
    requires LexOp(m.text, i, m.cur == Str, m.asg) == OpToken(t, asg, next)
    ensures ReadTok(m) == Go(m.(asg := asg, last := m.cur, cur := t, tp := next))
  {
  }

  lemma ReadName(m: Machine, i: nat, cp: nat)
    requires i == SkipWhite(m.text, m.tp) && NameStart(At(m.text, i))
    requires cp == NameEnd(m.text, i + 1) && At(m.text, cp) != '['
    ensures ReadTok(m) ==
            var r := ReadTok(Saved(m, i, cp).(tp := cp, noeval := 1, cur := Str));
            if r.Stop? then r else NameToken(m, i, cp, r.m)
  {
    hide NameToken, SkipWhite, NameEnd, VariableValue, Keeps, Rem;
  }

  // ---------- the levels of the grammar ----------

  lemma ParseFails(k: nat, m: Machine)
    requires 2 <= k <= TOP && Parse(k - 1, m).Fail?
    ensures Parse(k, m) == Parse(k - 1, m)
  {
    hide ReadTok, LeftLoop, PowerLoop, CondTail, AssignTail, UnaryLevel, Primary, SubExpr;
  }

  lemma ParseNext(k: nat, m: Machine, v: I64, m1: Machine)
    requires 2 <= k <= TOP && Parse(k - 1, m) == Ok(v, m1)
    ensures Parse(k, m) ==
            if k == 2 then PowerLoop(v, m1)
            else if k == 13 then CondTail(v, m1)
            else if k == 14 then AssignTail(v, m1)
            else LeftLoop(k, v, m1)
  {
    hide ReadTok, LeftLoop, PowerLoop, CondTail, AssignTail, UnaryLevel, Primary, SubExpr;
  }

  function Raised(k: nat, v: I64, m: Machine): Machine {
    if Skips(k, v) then m.(noeval := m.noeval + 1) else m
  }

  // The state in which the loop goes on after an operand.
  function Settled(k: nat, m: Machine, m2: Machine): Machine {
    m2.(noeval := m.noeval, last := if k == 11 || k == 12 then m.cur else m2.last)
  }

  lemma LogicLevel(k: nat, v: I64, m: Machine)
    requires (k == 12 && m.cur == LOr) || (k == 11 && m.cur == LAnd)
    ensures LeftAssoc(k) && Continues(k, m.cur)
    ensures Raised(k, v, m) == if if k == 12 then v != 0 else v == 0 then m.(noeval := m.noeval + 1) else m
  {
  }

  lemma LoopStep(k: nat, v: I64, m: Machine, m1: Machine, r: Result)
    requires LeftAssoc(k) && Continues(k, m.cur)
    requires ReadTok(Raised(k, v, m)) == Go(m1) && Parse(k - 1, m1) == r
    ensures r.Fail? ==> LeftLoop(k, v, m) == r
    ensures r.Ok? ==>
              match BinaryValue(m.cur, v, r.v)
              case Bad(e) => LeftLoop(k, v, m) == Fail(e, r.m.store)
              case Done(w) => LeftLoop(k, v, m) == LeftLoop(k, w, Settled(k, m, r.m))
  {
    hide ReadTok, Parse, SubExpr, BinaryValue;
  }

  lemma LoopEnd(k: nat, v: I64, m: Machine)
    requires LeftAssoc(k) && !Continues(k, m.cur)
    ensures LeftLoop(k, v, m) == Ok(v, m)
  {
    hide ReadTok, Parse, SubExpr, BinaryValue;
  }

  lemma LoopStop(k: nat, v: I64, m: Machine, e: Error, st: Store)
    requires LeftAssoc(k) && Continues(k, m.cur) && ReadTok(Raised(k, v, m)) == Stop(e, st)
    ensures LeftLoop(k, v, m) == Fail(e, st)
  {
    hide ReadTok, Parse, SubExpr;
  }

  // Powers.

  // v raised to the power that r came out as.
  function Completed(r: Result, v: I64): Result {
    if r.Fail? then r
    else
      var a := PowerValue(v, r.v);
      if a.Done? then Ok(a.v, r.m) else Fail(a.error, r.m.store)
  }

  // The loop of exppower runs once: what follows its right operand is never another **.
  lemma PowerLoopStep(v: I64, m1: Machine, m2: Machine, r: Result)
    requires m1.cur == Power && ReadTok(m1) == Go(m2) && Parse(2, m2) == r
    requires r.Ok? ==> r.m.cur != Power
    ensures PowerLoop(v, m1) == Completed(r, v)
  {
    hide ReadTok, Parse, PowLoop;
    if r.Ok? && PowerValue(v, r.v).Done? {
      assert PowerLoop(PowerValue(v, r.v).v, r.m) == Ok(PowerValue(v, r.v).v, r.m);
    }
  }

  lemma PowerLoopStop(v: I64, m: Machine, e: Error, st: Store)
    requires m.cur == Power && ReadTok(m) == Stop(e, st)
    ensures PowerLoop(v, m) == Fail(e, st)
  {
    hide ReadTok, Parse;
  }

  lemma PowerLoopNext(v: I64, m: Machine, m1: Machine, r: Result)
    requires m.cur == Power && ReadTok(m) == Go(m1) && Parse(2, m1) == r
    ensures r.Fail? ==> PowerLoop(v, m) == r
    ensures r.Ok? && PowerValue(v, r.v).Bad? ==> PowerLoop(v, m) == Fail(PowerValue(v, r.v).error, r.m.store)
    ensures r.Ok? && r.v == 0 ==> PowerLoop(v, m) == Ok(1, r.m)
    ensures r.Ok? && r.v > 0 ==> PowerLoop(v, m) == PowerLoop(PowLoop(1, v, r.v), r.m)
  {
    hide ReadTok, Parse, PowLoop;
  }

  // Assignments.

  lemma AssignTailStep(lhs: I64, m1: Machine, m2: Machine, r: Result)
    requires (m1.cur == Ch('=') || m1.cur == OpAssign) && m1.last == Str
    requires ReadTok(m1) == Go(m2) && Parse(14, m2) == r
    ensures AssignTail(lhs, m1) == Assigned(r, m1, lhs)
  {
    hide ReadTok, Parse, BinaryValue, Bind;
  }

  lemma AssignTailStop(lhs: I64, m: Machine, e: Error, st: Store)
    requires (m.cur == Ch('=') || m.cur == OpAssign) && m.last == Str && ReadTok(m) == Stop(e, st)
    ensures AssignTail(lhs, m) == Fail(e, st)
  {
    hide ReadTok, Parse;
  }

  // Conditionals.

  function Lifted(m: Machine, up: bool): Machine {
    if up then m.(noeval := m.noeval + 1) else m
  }

  lemma CommaValue(a: I64, b: I64)
    ensures BinaryValue(Ch(','), a, b) == Done(b)
  {
  }

  lemma LogicValue(op: Token, a: I64, b: I64)
    requires op == LAnd || op == LOr
    ensures BinaryValue(op, a, b) == Done(Truth(if op == LAnd then a != 0 && b != 0 else a != 0 || b != 0))
  {
  }

  lemma PowerLoopEnd(v: I64, m: Machine)
    requires m.cur != Power
    ensures PowerLoop(v, m) == Ok(v, m)
  {
    hide ReadTok, Parse;
  }

  lemma AssignNoName(lhs: I64, m: Machine)
    requires (m.cur == Ch('=') || m.cur == OpAssign) && m.last != Str
    ensures AssignTail(lhs, m) == Fail(NotAVariable, m.store)
  {
    hide ReadTok, Parse;
  }

  lemma AssignNone(lhs: I64, m: Machine)
    requires m.cur != Ch('=') && m.cur != OpAssign
    ensures AssignTail(lhs, m) == Ok(lhs, m)
  {
    hide ReadTok, Parse;
  }

  // CondTail up to the token that starts the second arm ...
  lemma CondUnfold(c: I64, m: Machine)
    ensures m.cur != Ch('?') ==> CondTail(c, m) == Ok(c, m)
    ensures m.cur == Ch('?') && ReadTok(m).Stop? ==> CondTail(c, m) == Fail(ReadTok(m).error, ReadTok(m).store)
    ensures m.cur == Ch('?') && ReadTok(m).Go? ==> CondTail(c, m) == Armed(c, m, ReadTok(m).m)
  {
    hide ReadTok, Parse;
  }

  function Armed(c: I64, m: Machine, m1: Machine): Result {
    if m1.cur == End || m1.cur == Ch(':') then Fail(Syntax, m1.store)
    else
      var r := Parse(TOP, Lifted(m1, c == 0));
      if r.Fail? then r
      else if r.m.cur != Ch(':') then Fail(Syntax, r.m.store)
      else Elsed(c, r.v, m, r.m.(noeval := m.noeval))
  }

  // ... and from there on.
  function Elsed(c: I64, v1: I64, m: Machine, m2: Machine): Result {
    match ReadTok(m2)
    case Stop(e, st) => Fail(e, st)
    case Go(m3) =>
      if m3.cur == End then Fail(Syntax, m3.store)
      else
        var r := Parse(13, Lifted(m3, c != 0));
        if r.Fail? then r
        else Ok(if c != 0 then v1 else r.v, r.m.(noeval := m.noeval, last := CondTok))
  }

  lemma ElseUnfold(c: I64, v1: I64, m: Machine, m2: Machine)
    ensures Elsed(c, v1, m, m2) ==
            var s := ReadTok(m2);
            if s.Stop? then Fail(s.error, s.store)
            else if s.m.cur == End then Fail(Syntax, s.m.store)
            else
              var r := Parse(13, Lifted(s.m, c != 0));
              if r.Fail? then r
              else Ok(if c != 0 then v1 else r.v, r.m.(noeval := m.noeval, last := CondTok))
  {
    hide ReadTok, Parse;
  }

  // A unary operator applied to the operand that starts at s.
  function Applied(op: Token, s: Step): Result {
    if s.Stop? then Fail(s.error, s.store)
    else
      var r := Parse(1, s.m);
      if r.Fail? then r else Ok(UnaryValue(op, r.v), r.m)
  }

  lemma UnaryIs(m: Machine)
    ensures Parse(0, m) == Primary(m)
    ensures !Unary(m.cur) ==> Parse(1, m) == Primary(m)
    ensures Unary(m.cur) ==> Parse(1, m) == Applied(m.cur, ReadTok(m))
  {
    hide ReadTok, Primary;
    if Unary(m.cur) && ReadTok(m).Go? {
      assert Parse(1, ReadTok(m).m) == UnaryLevel(ReadTok(m).m);
    }
  }

  // The token state after x++ or x--, before the next token is read.
  function AfterPost(m: Machine, peek: Machine): Machine {
    var w := Stepped(m.val, peek.cur == PostInc);
    Bind(peek.(str := m.str, noeval := m.noeval, last := Str, cur := Num), m.str, w)
  }

  // The token state once the token behind a name is known.
  function AfterPeek(m: Machine, peek: Machine): Machine {
    if peek.cur == PostInc || peek.cur == PostDec then AfterPost(m, peek)
    else m.(asg := peek.asg, store := peek.store)
  }

  // An operand that is a name, with the token behind it looked at.
  function NameResult(m: Machine): Result {
    match ReadTok(m.(str := "", noeval := 1))
    case Stop(e, st) => Fail(e, st)
    case Go(peek) =>
      Finished(m.val, ReadTok(AfterPeek(m, peek)))
  }

  function Finished(v: I64, s: Step): Result {
    match s
    case Stop(e, st) => Fail(e, st)
    case Go(m) => Ok(v, m)
  }

  lemma PrimaryIs(m: Machine)
    ensures m.cur == PreInc || m.cur == PreDec ==> Parse(0, m) == PreStep(m, m.cur == PreInc)
    ensures m.cur == Num ==> Parse(0, m) == Finished(m.val, ReadTok(m))
    ensures m.cur == Str ==> Parse(0, m) == NameResult(m)
    ensures m.cur == Ch('(') ==> Parse(0, m) == Bracketed(ReadTok(m))
    ensures m.cur !in {PreInc, PreDec, Num, Str, Ch('(')} ==> Parse(0, m) == Fail(Syntax, m.store)
  {
    hide ReadTok, PreStep;
    assert Parse(0, m) == Primary(m);
    if m.cur == Str {
      NameIs(m);
    } else if m.cur == Ch('(') {
      BracketIs(m);
    }
  }

  lemma BracketIs(m: Machine)
    requires m.cur == Ch('(')
    ensures Primary(m) == Bracketed(ReadTok(m))
  {
    hide ReadTok, Parse;
    var s := ReadTok(m);
    if s.Go? && Parse(TOP, s.m).Ok? && Parse(TOP, s.m).m.cur == Ch(')') {
      var r := Parse(TOP, s.m);
      assert Finish(r.v, r.m) == Finished(r.v, ReadTok(r.m));
    }
  }

  lemma NameIs(m: Machine)
    requires m.cur == Str
    ensures Primary(m) == NameResult(m)
  {
    hide ReadTok, Bind, Parse;
    var s := ReadTok(m.(str := "", noeval := 1));
    if s.Go? {
      var back := m.(asg := s.m.asg, store := s.m.store);
      assert Finish(m.val, back) == Finished(m.val, ReadTok(back));
      if s.m.cur == PostInc || s.m.cur == PostDec {
        assert Finish(m.val, AfterPost(m, s.m)) == Finished(m.val, ReadTok(AfterPost(m, s.m))) by {
          BindKeepsToken(m, s.m);
        }
      }
    }
  }

  lemma BindKeepsToken(m: Machine, peek: Machine)
    ensures AfterPost(m, peek).cur == Num
  {
  }

  function Bracketed(s: Step): Result {
    if s.Stop? then Fail(s.error, s.store)
    else
      var r := Parse(TOP, s.m);
      if r.Fail? then r
      else if r.m.cur != Ch(')') then Fail(Syntax, r.m.store)
      else Finished(r.v, ReadTok(r.m))
  }

  lemma SubExprUnfold(expr: string, m: Machine)
    requires At(expr, SkipWhite(expr, 0)) != '\0' && m.depth < MAX_EXPR_RECURSION_LEVEL
    ensures SubExpr(expr, m) == Popped(m, ReadTok(Inner(expr, m)))
  {
    hide ReadTok, Parse, SkipWhite, Inner;
  }

  // The end of subexpr: evaluate from the first token on and come back to the state of m.
  function Popped(m: Machine, s: Step): Result {
    if s.Stop? then Fail(s.error, s.store)
    else
      var r := Parse(TOP, s.m);
      if r.Fail? then r
      else if r.m.cur != End then Fail(Syntax, r.m.store)
      else Ok(r.v, m.(store := r.m.store, asg := r.m.asg))
  }
}
