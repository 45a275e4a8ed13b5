/** What evaluation does, law by law, said of texts: each operator against what ExprArith says of
    its operands, the operands evaluated from left to right. */
module ExprLaws {
  import opened Int64
  import opened Numerals
  import opened ExprState
  import opened ExprEval
  import opened ExprTree
  import opened ExprLex
  import opened ExprParse
  import opened ExprArith

  // With the variables env, evalexp on text gives v and leaves env'.
  ghost predicate Evaluates(text: string, env: Env, v: I64, env': Env) {
    forall m: Machine :: m.store == Encode(env) && m.depth == 0 ==> EvalExp(text, m) == Valid(v, Encode(env'))
  }

  // ... it fails with e.
  ghost predicate Stops(text: string, env: Env, e: Error, env': Env) {
    forall m: Machine :: m.store == Encode(env) && m.depth == 0 ==> EvalExp(text, m) == Invalid(e, Encode(env'))
  }

  // ---- texts of trees ----

  // What a meaning is for the evaluator.
  function OutcomeOf(s: Meaning): Outcome {
    match s
    case Gives(v, env) => Valid(v, Encode(env))
    case Breaks(e, env) => Invalid(e, Encode(env))
  }

  ghost predicate ComesTo(text: string, env: Env, s: Meaning) {
    match s
    case Gives(v, env') => Evaluates(text, env, v, env')
    case Breaks(e, env') => Stops(text, env, e, env')
  }

  lemma TreeEvaluates(e: Expr, env: Env)
    requires WellFormed(e)
    ensures ComesTo(Print(e), env, Sem(e, true, env))
  {
    hide Sem, EvalExp, Print, Encode;
    forall m: Machine | m.store == Encode(env) && m.depth == 0
      ensures EvalExp(Print(e), m) == OutcomeOf(Sem(e, true, env))
    {
      EvaluatesPrintedTree(e, env, m);
    }
  }

  function Fresh(env: Env): (m: Machine)
    ensures m.store == Encode(env) && m.depth == 0
  {
    State(Encode(env), 0, "", 0, End, End, End, "", 0, 0)
  }

  lemma {:induction false} DecInjective(a: nat, b: nat)
    requires a <= TWO_63 && b <= TWO_63 && Dec(a) == Dec(b)
    ensures a == b
  {
    hide Dec, Strlong, Wrap;
    StrlongDecimal(a);
    StrlongDecimal(b);
    WrapInjective(a, b);
  }

  lemma WrapInjective(a: nat, b: nat)
    requires a <= TWO_63 && b <= TWO_63 && Wrap(a) == Wrap(b)
    ensures a == b
  {
    assert Wrap(TWO_63) == -TWO_63;
  }

  lemma ItosInjective(a: I64, b: I64)
    requires Itos(a) == Itos(b)
    ensures a == b
  {
    var x: int, y: int := a, b;
    assert Dec(if x < 0 then -x else x)[0] != '-' && Dec(if y < 0 then -y else y)[0] != '-';
    if x < 0 {
      assert Itos(a)[0] == '-' && Itos(a)[1..] == Dec(-x);
      assert y < 0 && Itos(b)[1..] == Dec(-y);
      DecInjective(-x, -y);
    } else {
      assert y >= 0;
      DecInjective(x, y);
    }
  }

  lemma EncodeInjective(a: Env, b: Env)
    requires Encode(a) == Encode(b)
    ensures a == b
  {
    hide Itos;
    assert forall x :: x in a <==> x in Encode(a);
    assert forall x :: x in b <==> x in Encode(b);
    forall x | x in a ensures x in b && a[x] == b[x] {
      assert Encode(a)[x] == Itos(a[x]) && Encode(b)[x] == Itos(b[x]);
      ItosInjective(a[x], b[x]);
    }
  }

  // And back: what evaluation gives is what the tree means.
  lemma Meant(e: Expr, env: Env, v: I64, env': Env)
    requires WellFormed(e) && Evaluates(Print(e), env, v, env')
    ensures Sem(e, true, env) == Gives(v, env')
  {
    hide Sem, EvalExp, Print, Encode;
    TreeEvaluates(e, env);
    var m := Fresh(env);
    assert EvalExp(Print(e), m) == Valid(v, Encode(env'));
    var s := Sem(e, true, env);
    assert EvalExp(Print(e), m) == OutcomeOf(s);
    if s.Gives? {
      EncodeInjective(env', s.env);
    }
  }

  lemma MeantToStop(e: Expr, env: Env, er: Error, env': Env)
    requires WellFormed(e) && Stops(Print(e), env, er, env')
    ensures Sem(e, true, env) == Breaks(er, env')
  {
    hide Sem, EvalExp, Print, Encode;
    TreeEvaluates(e, env);
    var m := Fresh(env);
    assert EvalExp(Print(e), m) == Invalid(er, Encode(env'));
    var s := Sem(e, true, env);
    assert EvalExp(Print(e), m) == OutcomeOf(s);
    if s.Breaks? {
      EncodeInjective(env', s.env);
    }
  }

  // ---- the laws ----

  // text comes out with what the operator op makes of a and b, or stops if it has no value.
  ghost predicate Comes(text: string, env: Env, op: string, a: I64, b: I64, env': Env) {
    if exists e :: Refuses(op, a, b, e) then exists e :: Refuses(op, a, b, e) && Stops(text, env, e, env')
    else exists v :: Makes(op, a, b, v) && Evaluates(text, env, v, env')
  }

  function Carried(a: Arith, env: Env): Meaning {
    match a
    case Done(v) => Gives(v, env)
    case Bad(e) => Breaks(e, env)
  }

  // Every binary operator but && and ||: left operand, right operand, operation.
  lemma BinaryLaw(op: Token, l: Expr, r: Expr, env: Env, a: I64, env1: Env, b: I64, env2: Env)
    requires WellFormed(Bin(op, l, r)) && op != LAnd && op != LOr
    requires Evaluates(Print(l), env, a, env1) && Evaluates(Print(r), env1, b, env2)
    ensures Comes(Print(Bin(op, l, r)), env, Spell(op), a, b, env2)
  {
    var t := Bin(op, l, r);
    Meant(l, env, a, env1);
    Meant(r, env1, b, env2);
    TreeEvaluates(t, env);
    BinaryMakes(op, a, b);
    assert Sem(t, true, env) == Carried(BinaryValue(op, a, b), env2);
    hide Evaluates, Stops, Makes, Refuses, Print, Spell, BinaryValue, Sem;
  }

  lemma PowerLaw(l: Expr, r: Expr, env: Env, a: I64, env1: Env, b: I64, env2: Env)
    requires WellFormed(Pow(l, r))
    requires Evaluates(Print(l), env, a, env1) && Evaluates(Print(r), env1, b, env2)
    ensures Comes(Print(Pow(l, r)), env, "**", a, b, env2)
  {
    var t := Pow(l, r);
    Meant(l, env, a, env1);
    Meant(r, env1, b, env2);
    TreeEvaluates(t, env);
    PowerMakes(a, b);
    assert Sem(t, true, env) == Carried(PowerValue(a, b), env2);
    hide Evaluates, Stops, Makes, Refuses, Print, PowerValue, Sem;
  }

  // An operand that stops stops the whole.
  lemma LeftStops(op: Token, l: Expr, r: Expr, env: Env, e: Error, env': Env)
    requires WellFormed(Bin(op, l, r)) && Stops(Print(l), env, e, env')
    ensures Stops(Print(Bin(op, l, r)), env, e, env')
  {
    hide BinaryValue;
    TreeEvaluates(Bin(op, l, r), env);
    MeantToStop(l, env, e, env');
    hide Evaluates, Stops, Print;
  }

  lemma RightStops(op: Token, l: Expr, r: Expr, env: Env, a: I64, env1: Env, e: Error, env2: Env)
    requires WellFormed(Bin(op, l, r)) && op != LAnd && op != LOr
    requires Evaluates(Print(l), env, a, env1) && Stops(Print(r), env1, e, env2)
    ensures Stops(Print(Bin(op, l, r)), env, e, env2)
  {
    hide BinaryValue;
    TreeEvaluates(Bin(op, l, r), env);
    Meant(l, env, a, env1);
    MeantToStop(r, env1, e, env2);
    hide Evaluates, Stops, Print;
  }

  // Value v and variables env', or at least those variables: an operand that is passed over
  // stores nothing, but its errors are errors.
  ghost predicate AtMostStops(text: string, env: Env, v: I64, env': Env) {
    Evaluates(text, env, v, env') || exists e :: Stops(text, env, e, env')
  }

  lemma PassedOver(text: string, env: Env, s: Meaning, v: I64, env': Env)
    requires ComesTo(text, env, s) && s.env == env' && (s.Gives? ==> s.v == v)
    ensures AtMostStops(text, env, v, env')
  {
    hide Evaluates, Stops;
  }

  // && and ||: if the left operand decides, the value is 0 or 1 and the right one stores
  // nothing; else the right one is evaluated, and its truth is the value.
  lemma LogicLaw(op: Token, l: Expr, r: Expr, env: Env, a: I64, env1: Env, b: I64, env2: Env)
    requires WellFormed(Bin(op, l, r)) && (op == LAnd || op == LOr) && Evaluates(Print(l), env, a, env1)
    ensures Spell(op) == if op == LAnd then "&&" else "||"
    ensures var text := Print(Bin(op, l, r));
            if (a == 0) == (op == LAnd) then AtMostStops(text, env, if op == LAnd then 0 else 1, env1)
            else Evaluates(Print(r), env1, b, env2) ==> Evaluates(text, env, if b != 0 then 1 else 0, env2)
  {
    var t := Bin(op, l, r);
    Meant(l, env, a, env1);
    TreeEvaluates(t, env);
    DeadOperandIsPure(r, env1);
    hide Evaluates, Stops, Print, AtMostStops;
    if (a == 0) == (op == LAnd) {
      PassedOver(Print(t), env, Sem(t, true, env), if op == LAnd then 0 else 1, env1);
    } else if Evaluates(Print(r), env1, b, env2) {
      Meant(r, env1, b, env2);
    }
  }

  // ?: takes the value and the variables of the arm that the condition chooses.
  lemma CondLaw(c: Expr, t: Expr, e: Expr, env: Env, vc: I64, env1: Env, v: I64, env2: Env)
    requires WellFormed(Cond(c, t, e)) && Evaluates(Print(c), env, vc, env1)
    ensures var text := Print(Cond(c, t, e));
            && (vc != 0 && Evaluates(Print(t), env1, v, env2) ==> AtMostStops(text, env, v, env2))
            && (vc == 0 && Evaluates(Print(e), env1, v, env2) ==>
                  Evaluates(text, env, v, env2) || exists er :: Stops(text, env, er, env1))
  {
    var x := Cond(c, t, e);
    Meant(c, env, vc, env1);
    TreeEvaluates(x, env);
    hide Evaluates, Stops, Print, AtMostStops;
    if vc != 0 && Evaluates(Print(t), env1, v, env2) {
      Meant(t, env1, v, env2);
      DeadOperandIsPure(e, env2);
      PassedOver(Print(x), env, Sem(x, true, env), v, env2);
    } else if vc == 0 && Evaluates(Print(e), env1, v, env2) {
      Meant(e, env1, v, env2);
      DeadOperandIsPure(t, env1);
      assert Sem(t, false, env1).Breaks? ==> Sem(x, true, env).Breaks? && Sem(x, true, env).env == env1;
    }
  }

  lemma UnaryLaw(op: Token, e: Expr, env: Env, a: I64, env1: Env)
    requires WellFormed(Un(op, e)) && Evaluates(Print(e), env, a, env1)
    ensures exists v :: Turns(Spell(op), a, v) && Evaluates(Print(Un(op, e)), env, v, env1)
  {
    Meant(e, env, a, env1);
    TreeEvaluates(Un(op, e), env);
    UnaryMakes(op, a);
    hide Evaluates, Print, Turns, Spell, UnaryValue;
  }

  lemma AssignLaw(x: string, e: Expr, env: Env, v: I64, env1: Env)
    requires WellFormed(Assign(x, e)) && Evaluates(Print(e), env, v, env1)
    ensures Evaluates(Print(Assign(x, e)), env, v, env1[x := v])
  {
    Meant(e, env, v, env1);
    TreeEvaluates(Assign(x, e), env);
    assert Sem(Assign(x, e), true, env) == Gives(v, env1[x := v]);
    hide Evaluates, Print, Sem;
  }

  // text comes out with what op makes of a and b, and stores it in x; or it stops.
  ghost predicate Updates(text: string, env: Env, op: string, a: I64, b: I64, env1: Env, x: string) {
    if exists e :: Refuses(op, a, b, e) then exists e :: Refuses(op, a, b, e) && Stops(text, env, e, env1)
    else exists v :: Makes(op, a, b, v) && Evaluates(text, env, v, env1[x := v])
  }

  lemma UpdateSem(x: string, op: Token, e: Expr, env: Env, b: I64, env1: Env)
    requires Sem(e, true, env) == Gives(b, env1)
    ensures var a := BinaryValue(op, if x in env then env[x] else 0, b);
            Sem(Update(x, op, e), true, env) == if a.Done? then Gives(a.v, env1[x := a.v]) else Breaks(a.error, env1)
  {
    hide BinaryValue;
  }

  // x op= e takes the old value of x before e is evaluated.
  lemma UpdateLaw(x: string, op: Token, e: Expr, env: Env, b: I64, env1: Env)
    requires WellFormed(Update(x, op, e)) && Evaluates(Print(e), env, b, env1)
    ensures Updates(Print(Update(x, op, e)), env, Spell(op), if x in env then env[x] else 0, b, env1, x)
  {
    var before := if x in env then env[x] else 0;
    Meant(e, env, b, env1);
    TreeEvaluates(Update(x, op, e), env);
    assert OpLevel(op) != 0;
    BinaryMakes(op, before, b);
    UpdateSem(x, op, e, env, b, env1);
    hide Evaluates, Stops, Makes, Refuses, Print, Spell, BinaryValue, Sem, OpLevel, WellFormed;
  }

  // Both steps of x leave v in it; the one before the name gives v, too, the other one old.
  ghost predicate Steps(x: string, up: bool, env: Env, before: int, v: I64)
    requires ValidName(x)
  {
    && Congruent(v, if up then before + 1 else before - 1)
    && Evaluates(Print(PreStep(x, up)), env, v, env[x := v])
    && (-TWO_63 <= before < TWO_63 ==> Evaluates(Print(PostStep(x, up)), env, before, env[x := v]))
  }

  // ++x and --x give the new value, x++ and x-- the old one.
  lemma StepLaw(x: string, up: bool, env: Env)
    requires ValidName(x)
    ensures var before := if x in env then env[x] else 0; exists v: I64 :: Steps(x, up, env, before, v)
  {
    var before := if x in env then env[x] else 0;
    SteppedMakes(before, up);
    TreeEvaluates(PreStep(x, up), env);
    TreeEvaluates(PostStep(x, up), env);
    hide Evaluates, Print, Congruent, Stepped;
    assert Steps(x, up, env, before, Stepped(before, up));
  }

  lemma LeafLaw(n: nat, x: string, env: Env)
    requires ValidName(x)
    ensures exists v: I64 :: Congruent(v, n) && Evaluates(Print(Lit(n)), env, v, env)
    ensures Evaluates(Print(Var(x)), env, if x in env then env[x] else 0, env)
  {
    WrapMakes(n);
    TreeEvaluates(Lit(n), env);
    TreeEvaluates(Var(x), env);
    hide Evaluates, Print, Congruent, Wrap;
  }
}
