/** The laws of evaluation at texts: operators by their spelling, which of two binds tighter, and
    number literals in every base. */
module ExprTexts {
  import opened Int64
  import opened Numerals
  import opened ExprState
  import opened ExprEval
  import opened ExprSteps
  import opened ExprTree
  import opened ExprLex
  import opened ExprArith
  import opened ExprLaws

  // The rank of a binary operator, the tightest first; 0 for other texts.
  function Rank(op: string): nat {
    match op
    case "**" => 2
    case "*" => 3
    case "/" => 3
    case "%" => 3
    case "+" => 4
    case "-" => 4
    case "<<" => 5
    case ">>" => 5
    case "<" => 6
    case ">" => 6
    case "<=" => 6
    case ">=" => 6
    case "==" => 7
    case "!=" => 7
    case "&" => 8
    case "^" => 9
    case "|" => 10
    case "&&" => 11
    case "||" => 12
    case "," => 15
    case _ => 0
  }

  function TokenFor(op: string): Token {
    match op
    case "<<" => Lsh
    case ">>" => Rsh
    case "<=" => Leq
    case ">=" => Geq
    case "==" => EqEq
    case "!=" => Neq
    case "&&" => LAnd
    case "||" => LOr
    case "**" => Power
    case _ => if |op| == 1 then Ch(op[0]) else End
  }

  lemma TokenIs(op: string)
    requires Rank(op) != 0
    ensures Spell(TokenFor(op)) == op
    ensures op != "**" ==> OpLevel(TokenFor(op)) == Rank(op)
  {
  }

  // l op r as a tree.
  function Tree(op: string, l: Expr, r: Expr): Expr {
    if op == "**" then Pow(l, r) else Bin(TokenFor(op), l, r)
  }

  // Operands that store nothing, the right one without stopping even if it is passed over.
  lemma TreeSem(op: string, l: Expr, r: Expr, live: bool, a: I64, b: I64, env: Env)
    requires Rank(op) != 0 && WellFormed(l) && WellFormed(r)
    requires Sem(l, live, env) == Gives(a, env) && forall live :: Sem(r, live, env) == Gives(b, env)
    ensures WellFormed(Tree(op, l, r)) && Sem(Tree(op, l, r), live, env) == Carried(Computed(op, a, b), env)
  {
    TokenIs(op);
    if op == "**" {
      PowSem(l, r, live, a, b, env);
    } else {
      BinSem(TokenFor(op), l, r, live, a, b, env);
    }
    hide BinaryValue, PowerValue, Rank, Sem, TokenFor;
  }

  lemma BinSem(op: Token, l: Expr, r: Expr, live: bool, a: I64, b: I64, env: Env)
    requires Sem(l, live, env) == Gives(a, env) && forall live :: Sem(r, live, env) == Gives(b, env)
    ensures Sem(Bin(op, l, r), live, env) == Carried(BinaryValue(op, a, b), env)
  {
    hide BinaryValue;
  }

  lemma PowSem(l: Expr, r: Expr, live: bool, a: I64, b: I64, env: Env)
    requires Sem(l, live, env) == Gives(a, env) && Sem(r, live, env) == Gives(b, env)
    ensures Sem(Pow(l, r), live, env) == Carried(PowerValue(a, b), env)
  {
    hide PowerValue;
  }

  function Computed(op: string, a: I64, b: I64): Arith {
    if op == "**" then PowerValue(a, b) else BinaryValue(TokenFor(op), a, b)
  }

  lemma ComputedMakes(op: string, a: I64, b: I64)
    requires Rank(op) != 0
    ensures var r := Computed(op, a, b);
            if r.Done? then Makes(op, a, b, r.v) && forall e :: !Refuses(op, a, b, e) else Refuses(op, a, b, r.error)
  {
    TokenIs(op);
    hide BinaryValue, PowerValue, Makes, Refuses;
    if op == "**" {
      PowerMakes(a, b);
    } else {
      BinaryMakes(TokenFor(op), a, b);
    }
  }

  // The text of a tree that has no value but by its last operation.
  lemma TextComes(e: Expr, env: Env, op: string, a: I64, b: I64)
    requires WellFormed(e) && Rank(op) != 0 && Sem(e, true, env) == Carried(Computed(op, a, b), env)
    ensures Comes(Print(e), env, op, a, b, env)
  {
    TreeEvaluates(e, env);
    ComputedMakes(op, a, b);
    hide Evaluates, Stops, Makes, Refuses, Print, Computed, Sem;
  }

  lemma LitSem(n: nat, live: bool, env: Env)
    requires n < TWO_63
    ensures Sem(Lit(n), live, env) == Gives(n, env)
  {
  }

  lemma TextOf(x: Token)
    ensures Text(POp(x)) == Spell(x)
  {
  }

  // Operands and operators with blanks between them.
  lemma JoinOperands(p: PTok, x: Token, ts: seq<PTok>)
    requires ts != []
    ensures Join([p, POp(x)] + ts) == Text(p) + (" " + (Spell(x) + (" " + Join(ts))))
    ensures Join([p]) == Text(p)
  {
    hide Text, Spell;
    var all, rest := [p, POp(x)] + ts, [POp(x)] + ts;
    assert Text(POp(x)) == Spell(x) by { TextOf(x); }
    assert all[1..] == rest && rest[1..] == ts;
    assert Join(rest) == Spell(x) + " " + Join(ts);
    assert Text(p) + " " + (Spell(x) + " " + Join(ts)) == Text(p) + (" " + (Spell(x) + (" " + Join(ts))));
  }

  // a op b, for two numbers and any binary operator.
  lemma TwoNumbers(op: string, a: nat, b: nat, env: Env)
    requires Rank(op) != 0 && a < TWO_63 && b < TWO_63
    ensures Comes(Dec(a) + (" " + (op + (" " + Dec(b)))), env, op, a, b, env)
  {
    var t := Tree(op, Lit(a), Lit(b));
    LitSem(a, true, env);
    forall live ensures Sem(Lit(b), live, env) == Gives(b, env) { LitSem(b, live, env); }
    TreeSem(op, Lit(a), Lit(b), true, a, b, env);
    TextComes(t, env, op, a, b);
    hide Comes, Sem, Dec;
    TwoTokens(op, a, b);
    JoinOperands(PNum(a), OperatorOf(op), [PNum(b)]);
    JoinOperands(PNum(b), End, [PNum(b)]);
    SpellsIt(op);
  }

  function OperatorOf(op: string): Token { if op == "**" then Power else TokenFor(op) }

  lemma SpellsIt(op: string)
    requires Rank(op) != 0
    ensures Spell(OperatorOf(op)) == op
  {
  }

  lemma TwoTokens(op: string, a: nat, b: nat)
    requires Rank(op) != 0 && WellFormed(Tree(op, Lit(a), Lit(b)))
    ensures Toks(Tree(op, Lit(a), Lit(b)), TOP) == [PNum(a), POp(OperatorOf(op))] + [PNum(b)]
    ensures Level(Tree(op, Lit(a), Lit(b))) == Rank(op)
    ensures Raw(Tree(op, Lit(a), Lit(b))) == [PNum(a), POp(OperatorOf(op))] + [PNum(b)]
  {
    TokenIs(op);
    LitToks(a, if op == "**" then 1 else Rank(op));
    LitToks(b, if op == "**" then 2 else Rank(op) - 1);
    var t := Tree(op, Lit(a), Lit(b));
    hide Rank, TokenFor, OpLevel;
    assert Raw(t) == [PNum(a)] + [POp(OperatorOf(op))] + [PNum(b)];
  }

  lemma LitToks(n: nat, k: nat)
    ensures Toks(Lit(n), k) == [PNum(n)]
  {
  }

  // Which of two operators takes the number between them: the tighter one, of equals the left
  // one, but for powers the right one.
  predicate LeftFirst(op: string, op': string) { op' != "**" && Rank(op) <= Rank(op') }

  // text is (a op b) op' c.
  ghost predicate LeftSteps(text: string, env: Env, a: I64, op: string, b: I64, op': string, c: I64) {
    if exists e :: Refuses(op, a, b, e) then exists e :: Refuses(op, a, b, e) && Stops(text, env, e, env)
    else exists w :: Makes(op, a, b, w) && Comes(text, env, op', w, c, env)
  }

  // text is a op (b op' c).
  ghost predicate RightSteps(text: string, env: Env, a: I64, op: string, b: I64, op': string, c: I64) {
    if exists e :: Refuses(op', b, c, e) then exists e :: Refuses(op', b, c, e) && Stops(text, env, e, env)
    else exists w :: Makes(op', b, c, w) && Comes(text, env, op, a, w, env)
  }

  // a op b op' c without parentheses.
  lemma ThreeNumbers(a: nat, op: string, b: nat, op': string, c: nat, env: Env)
    requires Rank(op) != 0 && Rank(op') != 0 && a < TWO_63 && b < TWO_63 && c < TWO_63
    ensures var text := Dec(a) + (" " + (op + (" " + (Dec(b) + (" " + (op' + (" " + Dec(c))))))));
            if LeftFirst(op, op') then LeftSteps(text, env, a, op, b, op', c)
            else RightSteps(text, env, a, op, b, op', c)
  {
    var text := Dec(a) + (" " + (op + (" " + (Dec(b) + (" " + (op' + (" " + Dec(c))))))));
    var ts := [PNum(a), POp(OperatorOf(op))] + ([PNum(b), POp(OperatorOf(op'))] + [PNum(c)]);
    JoinThree(a, op, b, op', c);
    hide LeftSteps, RightSteps, Dec;
    if LeftFirst(op, op') {
      LeftTokens(a, op, b, op', c);
      LeftValue(a, op, b, op', c, env);
    } else {
      RightTokens(a, op, b, op', c);
      RightValue(a, op, b, op', c, env);
    }
  }

  lemma JoinThree(a: nat, op: string, b: nat, op': string, c: nat)
    requires Rank(op) != 0 && Rank(op') != 0
    ensures Join([PNum(a), POp(OperatorOf(op))] + ([PNum(b), POp(OperatorOf(op'))] + [PNum(c)])) ==
            Dec(a) + (" " + (op + (" " + (Dec(b) + (" " + (op' + (" " + Dec(c))))))))
  {
    hide Join, Rank, OperatorOf, Spell, Dec;
    JoinOperands(PNum(b), OperatorOf(op'), [PNum(c)]);
    JoinOperands(PNum(c), OperatorOf(op'), [PNum(c)]);
    JoinOperands(PNum(a), OperatorOf(op), [PNum(b), POp(OperatorOf(op'))] + [PNum(c)]);
    SpellsIt(op);
    SpellsIt(op');
  }

  lemma LeftTokens(a: nat, op: string, b: nat, op': string, c: nat)
    requires Rank(op) != 0 && Rank(op') != 0 && LeftFirst(op, op')
    ensures var t := Tree(op', Tree(op, Lit(a), Lit(b)), Lit(c));
            && WellFormed(t)
            && Toks(t, TOP) == [PNum(a), POp(OperatorOf(op))] + ([PNum(b), POp(OperatorOf(op'))] + [PNum(c)])
  {
    TokenIs(op);
    TokenIs(op');
    var l := Tree(op, Lit(a), Lit(b));
    TwoTokens(op, a, b);
    LitToks(c, Rank(op') - 1);
    hide Rank, TokenFor, Spell;
    var t := Tree(op', l, Lit(c));
    assert Toks(l, Rank(op')) == Raw(l);
    assert Raw(t) == Raw(l) + [POp(OperatorOf(op'))] + [PNum(c)];
  }

  lemma RightTokens(a: nat, op: string, b: nat, op': string, c: nat)
    requires Rank(op) != 0 && Rank(op') != 0 && !LeftFirst(op, op')
    ensures var t := Tree(op, Lit(a), Tree(op', Lit(b), Lit(c)));
            && WellFormed(t)
            && Toks(t, TOP) == [PNum(a), POp(OperatorOf(op))] + ([PNum(b), POp(OperatorOf(op'))] + [PNum(c)])
  {
    TokenIs(op);
    TokenIs(op');
    var r := Tree(op', Lit(b), Lit(c));
    TwoTokens(op', b, c);
    LitToks(a, if op == "**" then 1 else Rank(op));
    assert Rank(op') <= if op == "**" then 2 else Rank(op) - 1;
    hide Rank, TokenFor, Spell;
    var t := Tree(op, Lit(a), r);
    assert Toks(r, if op == "**" then 2 else Rank(op) - 1) == Raw(r);
    assert Raw(t) == [PNum(a)] + [POp(OperatorOf(op))] + Raw(r);
  }

  lemma NumbersSem(op: string, a: nat, b: nat, live: bool, env: Env)
    requires Rank(op) != 0 && a < TWO_63 && b < TWO_63
    ensures Sem(Tree(op, Lit(a), Lit(b)), live, env) == Carried(Computed(op, a, b), env)
  {
    LitSem(a, live, env);
    forall live ensures Sem(Lit(b), live, env) == Gives(b, env) { LitSem(b, live, env); }
    TreeSem(op, Lit(a), Lit(b), live, a, b, env);
  }

  lemma LeftValue(a: nat, op: string, b: nat, op': string, c: nat, env: Env)
    requires Rank(op) != 0 && Rank(op') != 0 && a < TWO_63 && b < TWO_63 && c < TWO_63
    requires WellFormed(Tree(op', Tree(op, Lit(a), Lit(b)), Lit(c)))
    ensures LeftSteps(Print(Tree(op', Tree(op, Lit(a), Lit(b)), Lit(c))), env, a, op, b, op', c)
  {
    var l := Tree(op, Lit(a), Lit(b));
    var t := Tree(op', l, Lit(c));
    NumbersSem(op, a, b, true, env);
    ComputedMakes(op, a, b);
    forall live ensures Sem(Lit(c), live, env) == Gives(c, env) { LitSem(c, live, env); }
    hide Comes, Stops, Makes, Refuses, Print, Rank, Computed;
    var r := Computed(op, a, b);
    if r.Done? {
      TreeSem(op', l, Lit(c), true, r.v, c, env);
      TextComes(t, env, op', r.v, c);
    } else {
      assert Sem(t, true, env) == Breaks(r.error, env);
      TreeEvaluates(t, env);
    }
  }

  lemma RightValue(a: nat, op: string, b: nat, op': string, c: nat, env: Env)
    requires Rank(op) != 0 && Rank(op') != 0 && a < TWO_63 && b < TWO_63 && c < TWO_63
    requires WellFormed(Tree(op, Lit(a), Tree(op', Lit(b), Lit(c))))
    ensures RightSteps(Print(Tree(op, Lit(a), Tree(op', Lit(b), Lit(c)))), env, a, op, b, op', c)
  {
    var r := Tree(op', Lit(b), Lit(c));
    var t := Tree(op, Lit(a), r);
    forall live ensures Sem(r, live, env) == Carried(Computed(op', b, c), env) { NumbersSem(op', b, c, live, env); }
    ComputedMakes(op', b, c);
    LitSem(a, true, env);
    hide Comes, Stops, Makes, Refuses, Print, Rank, Computed;
    var s := Computed(op', b, c);
    if s.Done? {
      TreeSem(op, Lit(a), r, true, a, s.v, env);
      TextComes(t, env, op, a, s.v);
    } else {
      assert Sem(t, true, env) == Breaks(s.error, env);
      TreeEvaluates(t, env);
    }
  }

  // ---- number literals ----

  // A text that strlong reads, made of what may stand in a number.
  lemma LiteralText(w: string, v: I64, env: Env)
    requires w != "" && IsDigit(w[0]) && Strlong(w) == Value(v)
    requires forall i :: 0 <= i < |w| ==> IsAlnum(w[i]) || w[i] == '#' || w[i] == '@' || w[i] == '_'
    ensures Evaluates(w, env, v, env)
  {
    hide Strlong, Encode;
    forall m: Machine | m.store == Encode(env) && m.depth == 0
      ensures EvalExp(w, m) == Valid(v, Encode(env))
    {
      LiteralValue(w, v, m.(noeval := 0));
    }
  }

  lemma LiteralValue(w: string, v: I64, m: Machine)
    requires w != "" && IsDigit(w[0]) && Strlong(w) == Value(v) && m.depth < MAX_EXPR_RECURSION_LEVEL
    requires forall i :: 0 <= i < |w| ==> IsAlnum(w[i]) || w[i] == '#' || w[i] == '@' || w[i] == '_'
    ensures SubExpr(w, m) == Ok(v, m)
  {
    hide Strlong, ReadTok, Parse, SubExpr, Primary;
    var inner := Inner(w, m);
    assert SkipWhite(w, 0) == 0;
    NumEndAt(w, 1, |w|);
    assert w[0..|w|] == w;
    ReadDigits(inner, 0, |w|, v);
    var m1 := inner.(val := v, last := inner.cur, cur := Num, tp := |w|);
    NumberThenEnd(m1);
    assert Parse(0, m1) == Primary(m1) by { ParseZero(m1); }
    SubExprIs(w, m, 0);
  }

  lemma ParseZero(m: Machine)
    ensures Parse(0, m) == Primary(m)
  {
  }

  // 0x and hexadecimal digits, 0 and octal digits, and base#digits for every base from 2 to 64
  // give the number that they spell, in 64 bits.
  lemma HexText(n: nat, x: char, s: string, env: Env)
    requires (x == 'x' || x == 'X') && Spells(s, Digits(n, 16), 16)
    ensures exists v: I64 :: Congruent(v, n) && Evaluates(['0', x] + s, env, v, env)
  {
    StrlongHex(n, x, s);
    WrapMakes(n);
    LiteralText(['0', x] + s, Wrap(n), env);
  }

  lemma OctalText(n: nat, s: string, env: Env)
    requires Spells(s, Digits(n, 8), 8)
    ensures exists v: I64 :: Congruent(v, n) && Evaluates("0" + s, env, v, env)
  {
    StrlongOctal(n, s);
    WrapMakes(n);
    LiteralText("0" + s, Wrap(n), env);
  }

  lemma BaseText(n: nat, b: nat, s: string, env: Env)
    requires 2 <= b <= 64 && Spells(s, Digits(n, b), b)
    ensures exists v: I64 :: Congruent(v, n) && Evaluates(Dec(b) + "#" + s, env, v, env)
  {
    StrlongBase(n, b, s);
    WrapMakes(n);
    LiteralText(Dec(b) + "#" + s, Wrap(n), env);
  }

  // ---- the other operators ----

  function UnaryToken(op: string): Token
    requires op == "!" || op == "~" || op == "-" || op == "+"
  {
    Ch(op[0])
  }

  lemma NumberEvaluates(n: nat, env: Env)
    requires n < TWO_63
    ensures Evaluates(Print(Lit(n)), env, n, env)
  {
    TreeEvaluates(Lit(n), env);
    LitSem(n, true, env);
  }

  lemma JoinTwo(p: PTok, q: PTok)
    ensures Join([p, q]) == Text(p) + (" " + Text(q))
  {
    assert [p, q][1..] == [q];
    assert Text(p) + " " + Text(q) == Text(p) + (" " + Text(q));
  }

  lemma JoinMore(p: PTok, ts: seq<PTok>)
    requires ts != []
    ensures Join([p] + ts) == Text(p) + (" " + Join(ts))
  {
    assert ([p] + ts)[1..] == ts;
    assert Text(p) + " " + Join(ts) == Text(p) + (" " + Join(ts));
  }

  lemma UnaryText(op: string, n: nat, env: Env)
    requires (op == "!" || op == "~" || op == "-" || op == "+") && n < TWO_63
    ensures exists v :: Turns(op, n, v) && Evaluates(op + (" " + Dec(n)), env, v, env)
  {
    var t := UnaryToken(op);
    NumberEvaluates(n, env);
    hide Evaluates, Turns, Dec;
    UnaryLaw(t, Lit(n), env, n, env);
    LitToks(n, 1);
    JoinTwo(POp(t), PNum(n));
    assert Toks(Un(t, Lit(n)), TOP) == [POp(t), PNum(n)];
  }

  // a ? b : c.
  lemma CondText(a: nat, b: nat, c: nat, env: Env)
    requires a < TWO_63 && b < TWO_63 && c < TWO_63
    ensures Evaluates(Dec(a) + (" ? " + (Dec(b) + (" : " + Dec(c)))), env, if a != 0 then b else c, env)
  {
    var t := Cond(Lit(a), Lit(b), Lit(c));
    LitSem(a, true, env);
    forall live ensures Sem(Lit(b), live, env) == Gives(b, env) { LitSem(b, live, env); }
    forall live ensures Sem(Lit(c), live, env) == Gives(c, env) { LitSem(c, live, env); }
    TreeEvaluates(t, env);
    CondTokens(a, b, c);
    assert Sem(t, true, env) == Gives(if a != 0 then b else c, env);
  }

  lemma CondTokens(a: nat, b: nat, c: nat)
    ensures Print(Cond(Lit(a), Lit(b), Lit(c))) == Dec(a) + (" ? " + (Dec(b) + (" : " + Dec(c))))
  {
    CondToks(a, b, c);
    hide Dec, Join, Toks, Raw;
    var q, s := Ch('?'), Ch(':');
    JoinOperands(PNum(b), s, [PNum(c)]);
    JoinOperands(PNum(c), s, [PNum(c)]);
    JoinOperands(PNum(a), q, [PNum(b), POp(s)] + [PNum(c)]);
    Blanks(Dec(a), "?", Dec(b), ":", Dec(c));
  }

  lemma Blanks(a: string, q: string, b: string, s: string, c: string)
    ensures a + (" " + (q + (" " + (b + (" " + (s + (" " + c))))))) ==
            a + ((" " + q + " ") + (b + ((" " + s + " ") + c)))
  {
    assert " " + (s + (" " + c)) == (" " + s + " ") + c;
    var more := b + ((" " + s + " ") + c);
    assert " " + (q + (" " + more)) == (" " + q + " ") + more;
  }

  lemma CondToks(a: nat, b: nat, c: nat)
    ensures var t := Cond(Lit(a), Lit(b), Lit(c));
            WellFormed(t) && Toks(t, TOP) == [PNum(a), POp(Ch('?'))] + ([PNum(b), POp(Ch(':'))] + [PNum(c)])
  {
    assert WellFormed(Lit(a)) && WellFormed(Lit(b)) && WellFormed(Lit(c));
    LitToks(a, 12);
    LitToks(b, 15);
    LitToks(c, 13);
    var t := Cond(Lit(a), Lit(b), Lit(c));
    assert Raw(t) == [PNum(a)] + [POp(Ch('?'))] + [PNum(b)] + [POp(Ch(':'))] + [PNum(c)];
  }

  // x = n, and x op= n.
  lemma AssignText(x: string, n: nat, env: Env)
    requires ValidName(x) && n < TWO_63
    ensures Evaluates(x + (" = " + Dec(n)), env, n, env[x := n])
  {
    NumberEvaluates(n, env);
    AssignToks(x, n);
    hide Evaluates, Dec, Join, Toks, Raw, ValidName;
    AssignLaw(x, Lit(n), env, n, env);
    var e := POp(Ch('='));
    assert Text(e) == "=" && Text(PName(x)) == x && Text(PNum(n)) == Dec(n);
    hide Text;
    JoinTwo(e, PNum(n));
    JoinMore(PName(x), [e, PNum(n)]);
    EqualsSign(x, Dec(n));
  }

  lemma EqualsSign(x: string, n: string)
    ensures x + (" " + ("=" + (" " + n))) == x + (" = " + n)
  {
    assert " " + ("=" + (" " + n)) == " = " + n;
  }

  lemma AssignToks(x: string, n: nat)
    requires ValidName(x)
    ensures var t := Assign(x, Lit(n)); WellFormed(t) && Toks(t, TOP) == [PName(x)] + [POp(Ch('=')), PNum(n)]
  {
    assert WellFormed(Lit(n));
    LitToks(n, 14);
  }

  predicate Updating(op: string) {
    || op == "*" || op == "/" || op == "%" || op == "+" || op == "-" || op == "<<" || op == ">>"
    || op == "&" || op == "^" || op == "|"
  }

  lemma UpdatingToken(op: string)
    requires Updating(op)
    ensures UpdateOp(TokenFor(op)) && Spell(TokenFor(op)) == op
  {
    TokenIs(op);
  }

  lemma UpdateText(x: string, op: string, n: nat, env: Env)
    requires ValidName(x) && n < TWO_63
    requires Updating(op)
    ensures Updates(x + (" " + (op + ("= " + Dec(n)))), env, op, if x in env then env[x] else 0, n, env, x)
  {
    var t := TokenFor(op);
    UpdatingToken(op);
    NumberEvaluates(n, env);
    UpdateToks(x, t, n);
    hide Evaluates, Stops, Makes, Refuses, Dec, Join, TokenFor, Toks, Raw, ValidName, UpdateOp, Spell, Updating;
    UpdateLaw(x, t, Lit(n), env, n, env);
    JoinTwo(PAsg(t), PNum(n));
    JoinMore(PName(x), [PAsg(t), PNum(n)]);
    assert Text(PAsg(t)) == op + "=" && Text(PName(x)) == x && Text(PNum(n)) == Dec(n);
    hide Text, Updates;
    OperatorSign(x, op, Dec(n));
  }

  lemma OperatorSign(x: string, op: string, n: string)
    ensures x + (" " + ((op + "=") + (" " + n))) == x + (" " + (op + ("= " + n)))
  {
    assert (op + "=") + (" " + n) == op + ("= " + n);
  }

  lemma UpdateToks(x: string, op: Token, n: nat)
    requires ValidName(x) && UpdateOp(op)
    ensures var t := Update(x, op, Lit(n)); WellFormed(t) && Toks(t, TOP) == [PName(x)] + [PAsg(op), PNum(n)]
  {
    assert WellFormed(Lit(n));
    LitToks(n, 14);
  }

  // ++ x, -- x, x ++ and x --.
  lemma StepTexts(x: string, up: bool)
    requires ValidName(x)
    ensures Print(PreStep(x, up)) == (if up then "++ " else "-- ") + x
    ensures Print(PostStep(x, up)) == x + (if up then " ++" else " --")
  {
    hide Join;
    var p, q := POp(if up then PreInc else PreDec), POp(if up then PostInc else PostDec);
    JoinTwo(p, PName(x));
    JoinTwo(PName(x), q);
    assert Toks(PreStep(x, up), TOP) == [p, PName(x)] && Toks(PostStep(x, up), TOP) == [PName(x), q];
    assert Text(p) + (" " + x) == (if up then "++ " else "-- ") + x;
    assert x + (" " + Text(q)) == x + (if up then " ++" else " --");
  }
}
