/** Expression trees: what they mean, and how they are written down. */
module ExprTree {
  import opened Int64
  import opened Numerals
  import opened ExprState

  datatype Expr =
    | Lit(n: nat)
    | Var(x: string)
    | Un(op: Token, e: Expr)
    | Bin(op: Token, l: Expr, r: Expr)          // every left-associative operator, && || , included
    | Pow(l: Expr, r: Expr)
    | Cond(c: Expr, t: Expr, e: Expr)
    | Assign(x: string, e: Expr)
    | Update(x: string, op: Token, e: Expr)     // x op= e
    | PreStep(x: string, up: bool)
    | PostStep(x: string, up: bool)

  // The level whose loop handles a left-associative operator, or 0.
  function OpLevel(op: Token): (k: nat)
    ensures k != 0 ==> LeftAssoc(k) && Continues(k, op)
  {
    match op
    case Ch(c) =>
      if c in "*/%" then 3 else if c in "+-" then 4 else if c in "<>" then 6
      else if c == '&' then 8 else if c == '^' then 9 else if c == '|' then 10
      else if c == ',' then 15 else 0
    case Lsh => 5
    case Rsh => 5
    case Leq => 6
    case Geq => 6
    case EqEq => 7
    case Neq => 7
    case LAnd => 11
    case LOr => 12
    case _ => 0
  }

  predicate UpdateOp(op: Token) {
    op == Lsh || op == Rsh || (op.Ch? && AssignableOp(op.c))
  }

  predicate ValidName(x: string) {
    |x| > 0 && NameStart(x[0]) && forall i :: 0 <= i < |x| ==> NameChar(x[i])
  }

  predicate WellFormed(e: Expr) {
    match e
    case Lit(_) => true
    case Var(x) => ValidName(x)
    case Un(op, e1) => Unary(op) && WellFormed(e1)
    case Bin(op, l, r) => OpLevel(op) != 0 && WellFormed(l) && WellFormed(r)
    case Pow(l, r) => WellFormed(l) && WellFormed(r)
    case Cond(c, t, e1) => WellFormed(c) && WellFormed(t) && WellFormed(e1)
    case Assign(x, e1) => ValidName(x) && WellFormed(e1)
    case Update(x, op, e1) => ValidName(x) && UpdateOp(op) && WellFormed(e1)
    case PreStep(x, _) => ValidName(x)
    case PostStep(x, _) => ValidName(x)
  }

  function Level(e: Expr): (k: nat)
    requires WellFormed(e)
    ensures k <= TOP
  {
    match e
    case Un(_, _) => 1
    case Bin(op, _, _) => OpLevel(op)
    case Pow(_, _) => 2
    case Cond(_, _, _) => 13
    case Assign(_, _) => 14
    case Update(_, _, _) => 14
    case _ => 0
  }

  // ---------- meaning ----------

  type Env = map<string, I64>

  datatype Meaning = Gives(v: I64, env: Env) | Breaks(error: Error, env: Env)

  function Get(env: Env, x: string): I64 { if x in env then env[x] else 0 }

  function Put(env: Env, x: string, v: I64, live: bool): Env {
    if live then env[x := v] else env
  }

  // Left-to-right evaluation.  In an operand that is not live nothing is stored, but its
  // errors are errors all the same.
  function Sem(e: Expr, live: bool, env: Env): Meaning {
    match e
    case Lit(n) => Gives(Wrap(n), env)
    case Var(x) => Gives(Get(env, x), env)
    case Un(op, e1) =>
      (match Sem(e1, live, env)
       case Breaks(er, en) => Breaks(er, en)
       case Gives(v, en) => Gives(UnaryValue(op, v), en))
    case Bin(op, l, r) =>
      (match Sem(l, live, env)
       case Breaks(er, en) => Breaks(er, en)
       case Gives(v1, en1) =>
         match Sem(r, live && !(op == LAnd && v1 == 0) && !(op == LOr && v1 != 0), en1)
         case Breaks(er, en) => Breaks(er, en)
         case Gives(v2, en2) =>
           match BinaryValue(op, v1, v2)
           case Bad(er) => Breaks(er, en2)
           case Done(v) => Gives(v, en2))
    case Pow(l, r) =>
      (match Sem(l, live, env)
       case Breaks(er, en) => Breaks(er, en)
       case Gives(v1, en1) =>
         match Sem(r, live, en1)
         case Breaks(er, en) => Breaks(er, en)
         case Gives(v2, en2) =>
           match PowerValue(v1, v2)
           case Bad(er) => Breaks(er, en2)
           case Done(v) => Gives(v, en2))
    case Cond(c, t, e1) =>
      (match Sem(c, live, env)
       case Breaks(er, en) => Breaks(er, en)
       case Gives(vc, en1) =>
         match Sem(t, live && vc != 0, en1)
         case Breaks(er, en) => Breaks(er, en)
         case Gives(v1, en2) =>
           match Sem(e1, live && vc == 0, en2)
           case Breaks(er, en) => Breaks(er, en)
           case Gives(v2, en3) => Gives(if vc != 0 then v1 else v2, en3))
    case Assign(x, e1) =>
      (match Sem(e1, live, env)
       case Breaks(er, en) => Breaks(er, en)
       case Gives(v, en) => Gives(v, Put(en, x, v, live)))
    case Update(x, op, e1) =>
      (match Sem(e1, live, env)
       case Breaks(er, en) => Breaks(er, en)
       case Gives(v, en) =>
         match BinaryValue(op, Get(env, x), v)
         case Bad(er) => Breaks(er, en)
         case Done(w) => Gives(w, Put(en, x, w, live)))
    case PreStep(x, up) =>
      var w := Stepped(Get(env, x), up);
      Gives(w, Put(env, x, w, live))
    case PostStep(x, up) =>
      Gives(Get(env, x), Put(env, x, Stepped(Get(env, x), up), live))
  }

  // An operand that is not live leaves the variables as they were.
  lemma {:induction false} DeadOperandIsPure(e: Expr, env: Env)
    ensures Sem(e, false, env).env == env
  {
    match e
    case Lit(_) =>
    case Var(_) =>
    case Un(_, e1) => DeadOperandIsPure(e1, env);
    case Bin(_, l, r) => DeadOperandIsPure(l, env); DeadOperandIsPure(r, env);
    case Pow(l, r) => DeadOperandIsPure(l, env); DeadOperandIsPure(r, env);
    case Cond(c, t, e1) => DeadOperandIsPure(c, env); DeadOperandIsPure(t, env); DeadOperandIsPure(e1, env);
    case Assign(_, e1) => DeadOperandIsPure(e1, env);
    case Update(_, _, e1) => DeadOperandIsPure(e1, env);
    case PreStep(_, _) =>
    case PostStep(_, _) =>
  }

  // ---------- printing ----------

  datatype PTok = PNum(n: nat) | PName(x: string) | POp(t: Token) | PAsg(op: Token)

  function TokenOf(p: PTok): Token {
    match p
    case PNum(_) => Num
    case PName(_) => Str
    case POp(t) => t
    case PAsg(_) => OpAssign
  }

  function Spell(t: Token): string {
    match t
    case EqEq => "=="
    case Neq => "!="
    case Leq => "<="
    case Geq => ">="
    case LAnd => "&&"
    case LOr => "||"
    case Lsh => "<<"
    case Rsh => ">>"
    case Power => "**"
    case PreInc => "++"
    case PostInc => "++"
    case PreDec => "--"
    case PostDec => "--"
    case Ch(c) => [c]
    case _ => ""
  }

  function Text(p: PTok): string {
    match p
    case PNum(n) => Dec(n)
    case PName(x) => x
    case POp(t) => Spell(t)
    case PAsg(op) => Spell(op) + "="
  }

  // Tokens separated by single spaces.
  function Join(ts: seq<PTok>): string {
    if ts == [] then "" else if |ts| == 1 then Text(ts[0]) else Text(ts[0]) + " " + Join(ts[1..])
  }

  // The tokens of e where a phrase of level at most k is wanted: parenthesised only when
  // its own level is looser.
  function Toks(e: Expr, k: nat): (ts: seq<PTok>)
    requires WellFormed(e)
    ensures |ts| > 0
    decreases e, 1
  {
    if Level(e) > k then [POp(Ch('('))] + Raw(e) + [POp(Ch(')'))] else Raw(e)
  }

  function Raw(e: Expr): (ts: seq<PTok>)
    requires WellFormed(e)
    ensures |ts| > 0
    decreases e, 0
  {
    match e
    case Lit(n) => [PNum(n)]
    case Var(x) => [PName(x)]
    case Un(op, e1) => [POp(op)] + Toks(e1, 1)
    case Bin(op, l, r) => Toks(l, OpLevel(op)) + [POp(op)] + Toks(r, OpLevel(op) - 1)
    case Pow(l, r) => Toks(l, 1) + [POp(Power)] + Toks(r, 2)
    case Cond(c, t, e1) => Toks(c, 12) + [POp(Ch('?'))] + Toks(t, 15) + [POp(Ch(':'))] + Toks(e1, 13)
    case Assign(x, e1) => [PName(x), POp(Ch('='))] + Toks(e1, 14)
    case Update(x, op, e1) => [PName(x), PAsg(op)] + Toks(e1, 14)
    case PreStep(x, up) => [POp(if up then PreInc else PreDec), PName(x)]
    case PostStep(x, up) => [PName(x), POp(if up then PostInc else PostDec)]
  }

  function Print(e: Expr): string
    requires WellFormed(e)
  {
    Join(Toks(e, TOP))
  }

  // ---------- the shape of printed token lists ----------

  predicate OperatorTok(t: Token) {
    match t
    case Ch(c) => ArithOp(c)
    case End => false
    case Str => false
    case Num => false
    case OpAssign => false
    case CondTok => false
    case _ => true
  }

  predicate Printable(p: PTok) {
    match p
    case PNum(_) => true
    case PName(x) => ValidName(x)
    case POp(t) => OperatorTok(t)
    case PAsg(op) => UpdateOp(op)
  }

  predicate Clean(ts: seq<PTok>) {
    forall i :: 0 <= i < |ts| ==> Printable(ts[i])
  }

  predicate IsPre(p: PTok) { p == POp(PreInc) || p == POp(PreDec) }

  predicate IsPost(p: PTok) { p == POp(PostInc) || p == POp(PostDec) }

  // May the token stand right after a name?
  predicate AfterName(p: PTok) { (p.POp? && !IsPre(p)) || p.PAsg? }

  // Can the lexer read the head of ts when the token before it is (or is not) a name?
  predicate Readable(ts: seq<PTok>, afterName: bool) {
    ts != [] ==>
      match ts[0]
      case PNum(_) => true
      case PName(_) => |ts| > 1 ==> AfterName(ts[1])
      case PAsg(_) => true
      case POp(_) =>
        if IsPre(ts[0]) then !afterName && |ts| > 1 && ts[1].PName? && (|ts| > 2 ==> AfterName(ts[2]))
        else if IsPost(ts[0]) then afterName
        else true
  }

  // What may come after a phrase of level at most k: nothing that would prolong it.
  predicate Follow(ts: seq<PTok>, k: nat) {
    ts != [] ==>
      && AfterName(ts[0]) && !IsPost(ts[0]) && TokenOf(ts[0]) != Ch('=')
      && forall j :: 0 <= j <= k ==> !Continues(j, TokenOf(ts[0]))
  }

  lemma Clean3(a: seq<PTok>, b: seq<PTok>, c: seq<PTok>)
    requires Clean(a) && Clean(b) && Clean(c)
    ensures Clean(a + b + c)
  {
  }

  lemma Clean5(a: seq<PTok>, b: seq<PTok>, c: seq<PTok>, d: seq<PTok>, e: seq<PTok>)
    requires Clean(a) && Clean(b) && Clean(c) && Clean(d) && Clean(e)
    ensures Clean(a + b + c + d + e)
  {
    Clean3(a, b, c);
    Clean3(a + b + c, d, e);
  }

  lemma Clean2(a: seq<PTok>, b: seq<PTok>)
    requires Clean(a) && Clean(b)
    ensures Clean(a + b)
  {
    hide Printable;
  }

  lemma CleanOne(p: PTok)
    ensures Clean([p]) <==> Printable(p)
  {
    hide Printable;
    if Printable(p) {
      assert forall i :: 0 <= i < |[p]| ==> [p][i] == p;
    } else {
      assert [p][0] == p;
    }
  }

  lemma {:induction false} CleanToks(e: Expr, k: nat)
    requires WellFormed(e)
    ensures Clean(Toks(e, k))
    decreases e, 1
  {
    hide Clean, Raw;
    CleanRaw(e);
    CleanOne(POp(Ch('(')));
    CleanOne(POp(Ch(')')));
    Clean3([POp(Ch('('))], Raw(e), [POp(Ch(')'))]);
  }

  lemma {:induction false} CleanRaw(e: Expr)
    requires WellFormed(e)
    ensures Clean(Raw(e))
    decreases e, 0
  {
    hide Clean, Toks;
    match e
    case Lit(n) => CleanOne(PNum(n));
    case Var(x) => CleanOne(PName(x));
    case Un(op, e1) =>
      CleanToks(e1, 1);
      CleanOne(POp(op));
      Clean2([POp(op)], Toks(e1, 1));
    case Bin(op, l, r) =>
      CleanToks(l, OpLevel(op));
      CleanToks(r, OpLevel(op) - 1);
      CleanOne(POp(op));
      Clean3(Toks(l, OpLevel(op)), [POp(op)], Toks(r, OpLevel(op) - 1));
    case Pow(l, r) =>
      CleanToks(l, 1);
      CleanToks(r, 2);
      CleanOne(POp(Power));
      Clean3(Toks(l, 1), [POp(Power)], Toks(r, 2));
    case Cond(c, t, e1) =>
      CleanToks(c, 12);
      CleanToks(t, 15);
      CleanToks(e1, 13);
      CleanOne(POp(Ch('?')));
      CleanOne(POp(Ch(':')));
      Clean5(Toks(c, 12), [POp(Ch('?'))], Toks(t, 15), [POp(Ch(':'))], Toks(e1, 13));
    case Assign(x, e1) =>
      CleanToks(e1, 14);
      CleanPair(PName(x), POp(Ch('=')));
      Clean2([PName(x), POp(Ch('='))], Toks(e1, 14));
    case Update(x, op, e1) =>
      CleanToks(e1, 14);
      CleanPair(PName(x), PAsg(op));
      Clean2([PName(x), PAsg(op)], Toks(e1, 14));
    case PreStep(x, up) => CleanPair(POp(if up then PreInc else PreDec), PName(x));
    case PostStep(x, up) => CleanPair(PName(x), POp(if up then PostInc else PostDec));
  }

  lemma CleanPair(p: PTok, q: PTok)
    requires Printable(p) && Printable(q)
    ensures Clean([p, q])
  {
    CleanOne(p);
    CleanOne(q);
    Clean2([p], [q]);
    assert [p, q] == [p] + [q];
  }

  lemma {:induction false} Starts(e: Expr, k: nat, rest: seq<PTok>)
    requires WellFormed(e)
    requires rest != [] ==> AfterName(rest[0])
    ensures Readable(Toks(e, k) + rest, false)
    decreases e, 1
  {
    if Level(e) <= k {
      StartsRaw(e, rest);
    }
  }

  lemma {:induction false} StartsRaw(e: Expr, rest: seq<PTok>)
    requires WellFormed(e)
    requires rest != [] ==> AfterName(rest[0])
    ensures Readable(Raw(e) + rest, false)
    decreases e, 0
  {
    match e
    case Lit(_) =>
    case Var(_) =>
    case Un(_, _) =>
    case Bin(op, l, r) =>
      var k := OpLevel(op);
      Starts(l, k, [POp(op)] + (Toks(r, k - 1) + rest));
      Regroup3(Toks(l, k), [POp(op)], Toks(r, k - 1), rest);
    case Pow(l, r) =>
      Starts(l, 1, [POp(Power)] + (Toks(r, 2) + rest));
      Regroup3(Toks(l, 1), [POp(Power)], Toks(r, 2), rest);
    case Cond(c, t, e1) =>
      var q, s := [POp(Ch('?'))], [POp(Ch(':'))];
      Starts(c, 12, q + (Toks(t, 15) + (s + (Toks(e1, 13) + rest))));
      Regroup5(Toks(c, 12), q, Toks(t, 15), s, Toks(e1, 13), rest);
    case Assign(_, _) =>
    case Update(_, _, _) =>
    case PreStep(_, _) =>
    case PostStep(_, _) =>
  }

  // The token a printed phrase begins with begins an operand.
  lemma {:induction false} FirstToken(e: Expr, k: nat)
    requires WellFormed(e)
    ensures OperandStart(TokenOf(Toks(e, k)[0])) && OperandStart(TokenOf(Raw(e)[0]))
    decreases e
  {
    match e
    case Bin(op, l, _) => FirstToken(l, OpLevel(op));
    case Pow(l, _) => FirstToken(l, 1);
    case Cond(c, _, _) => FirstToken(c, 12);
    case _ =>
  }

  predicate OperandStart(t: Token) {
    t == Num || t == Str || t == PreInc || t == PreDec || t == Ch('(') || Unary(t)
  }

  lemma Regroup3(a: seq<PTok>, b: seq<PTok>, c: seq<PTok>, rest: seq<PTok>)
    ensures (a + b + c) + rest == a + (b + (c + rest))
  {
  }

  lemma Regroup5(a: seq<PTok>, b: seq<PTok>, c: seq<PTok>, d: seq<PTok>, e: seq<PTok>, rest: seq<PTok>)
    ensures (a + b + c + d + e) + rest == a + (b + (c + (d + (e + rest))))
  {
  }
}
