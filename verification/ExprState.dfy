/** Tokens, operators and state of the arithmetic evaluator (expr.c). */
module ExprState {
  import opened Int64
  import opened Numerals

  // The evaluator's token codes; Ch(c) is a token that is its own character.
  datatype Token =
    | End | Str | Num
    | EqEq | Neq | Leq | Geq | LAnd | LOr | Lsh | Rsh
    | OpAssign | CondTok | Power
    | PreInc | PreDec | PostInc | PostDec
    | Ch(c: char)

  // Why an evaluation stops.  Subscript and Undefined stand for what is not modelled
  // here: an array reference, and an operation that C leaves undefined.
  datatype Error =
    | Syntax | BadNum | DivisionByZero | NegativeExponent | RecursionLimit
    | NotAVariable | Subscript | Undefined

  type Store = map<string, string>

  const MAX_EXPR_RECURSION_LEVEL: nat := 1024

  // The globals of the evaluator.  depth is the height of the context stack.
  datatype State = State(
    store: Store, depth: nat,
    text: string, tp: nat,
    cur: Token, last: Token, asg: Token,
    str: string, val: I64, noeval: nat)

  type Machine = m: State | m.tp <= |m.text| && m.depth <= MAX_EXPR_RECURSION_LEVEL
    witness State(map[], 0, "", 0, End, End, End, "", 0, 0)

  datatype Step = Go(m: Machine) | Stop(error: Error, store: Store)

  datatype Result = Ok(v: I64, m: Machine) | Fail(error: Error, store: Store)

  datatype Arith = Done(v: I64) | Bad(error: Error)

  // What is left to read, the current token included.
  function Rem(m: Machine): nat {
    |m.text| - m.tp + (if m.cur == End then 0 else 1)
  }

  // ---------- operators ----------

  // The sixteen levels of the grammar, tightest first: 0 primary (exp0), 1 unary (exp1),
  // 2 power, 3 * / %, 4 + -, 5 shifts, 6 < <= > >=, 7 == !=, 8 &, 9 ^, 10 |, 11 &&,
  // 12 ||, 13 ?:, 14 assignment, 15 comma.
  const TOP: nat := 15

  predicate LeftAssoc(k: nat) { 3 <= k <= 12 || k == 15 }

  // Does a level-k phrase go on when t comes next?
  predicate Continues(k: nat, t: Token) {
    match k
    case 2 => t == Power
    case 3 => t in {Ch('*'), Ch('/'), Ch('%')}
    case 4 => t in {Ch('+'), Ch('-')}
    case 5 => t in {Lsh, Rsh}
    case 6 => t in {Leq, Geq, Ch('<'), Ch('>')}
    case 7 => t in {EqEq, Neq}
    case 8 => t == Ch('&')
    case 9 => t == Ch('^')
    case 10 => t == Ch('|')
    case 11 => t == LAnd
    case 12 => t == LOr
    case 13 => t == Ch('?')
    case 14 => t == Ch('=') || t == OpAssign
    case 15 => t == Ch(',')
    case _ => false
  }

  predicate Unary(t: Token) { t in {Ch('!'), Ch('~'), Ch('-'), Ch('+')} }

  // Does the value so far decide && or ||, so that the right operand is not evaluated?
  predicate Skips(k: nat, v: I64) {
    (k == 11 && v == 0) || (k == 12 && v != 0)
  }

  // ++ and --.
  function Stepped(v: I64, up: bool): I64 { Wrap(v + (if up then 1 else -1)) }

  function UnaryValue(op: Token, v: I64): I64 {
    if op == Ch('!') then Truth(v == 0)
    else if op == Ch('~') then -1 - v
    else if op == Ch('-') then Wrap(0 - v)
    else v
  }

  function BinaryValue(op: Token, a: I64, b: I64): Arith {
    match op
    case Ch(c) =>
      if c == '*' then Done(Wrap(a * b))
      else if c == '/' then
        if b == 0 then Bad(DivisionByZero)
        else if a == -TWO_63 && b == -1 then Bad(Undefined)
        else QuotientFits(a, b); Done(TruncDiv(a, b))
      else if c == '%' then
        if b == 0 then Bad(DivisionByZero)
        else if a == -TWO_63 && b == -1 then Bad(Undefined)
        else RemainderFits(a, b); Done(TruncMod(a, b))
      else if c == '+' then Done(Wrap(a + b))
      else if c == '-' then Done(Wrap(a - b))
      else if c == '<' then Done(Truth(a < b))
      else if c == '>' then Done(Truth(a > b))
      else if c == '&' then Done(And(a, b))
      else if c == '^' then Done(Xor(a, b))
      else if c == '|' then Done(Or(a, b))
      else Done(b)
    case Lsh => if 0 <= b < 64 then Done(Wrap(a * Pow(2, b))) else Bad(Undefined)
    case Rsh =>
      if 0 <= b < 64 then PowPositive(b); ShiftFits(a, Pow(2, b)); Done(FloorDiv(a, Pow(2, b)))
      else Bad(Undefined)
    case Leq => Done(Truth(a <= b))
    case Geq => Done(Truth(a >= b))
    case EqEq => Done(Truth(a == b))
    case Neq => Done(Truth(a != b))
    case LAnd => Done(Truth(a != 0 && b != 0))
    case LOr => Done(Truth(a != 0 || b != 0))
    case _ => Done(b)
  }

  function PowerValue(a: I64, b: I64): Arith {
    if b == 0 then Done(1)
    else if b < 0 then Bad(NegativeExponent)
    else Done(PowLoop(1, a, b))
  }

  lemma PowPositive(n: nat)
    ensures Pow(2, n) >= 1
  {
  }

  lemma Grows(x: int, d: int)
    requires d >= 1
    ensures x >= 0 ==> x * d >= x
    ensures x <= 0 ==> x * d <= x
  {
  }

  lemma ShiftFits(a: I64, d: int)
    requires d >= 1
    ensures -TWO_63 <= FloorDiv(a, d) < TWO_63
  {
    var q := FloorDiv(a, d);
    assert q * d <= a < (q + 1) * d;
    Grows(q, d);
    Grows(q + 1, d);
  }

  lemma QuotientFits(a: I64, b: I64)
    requires b != 0 && !(a == -TWO_63 && b == -1)
    ensures -TWO_63 <= TruncDiv(a, b) < TWO_63
  {
    QuotientBound(Abs(a), Abs(b));
  }

  lemma RemainderFits(a: I64, b: I64)
    requires b != 0
    ensures -TWO_63 <= TruncMod(a, b) < TWO_63
  {
    TruncDivLaw(a, b);
  }

  // ---------- lexing without variables ----------

  predicate White(c: char) { c == ' ' || c == '\t' || c == '\n' }

  predicate NameStart(c: char) { IsLower(c) || IsUpper(c) || c == '_' }

  predicate NameChar(c: char) { IsAlnum(c) || c == '_' }

  predicate NumChar(c: char) { IsAlnum(c) || c == '#' || c == '@' || c == '_' }

  // The first position at or after i whose character is not white space.
  function SkipWhite(s: string, i: nat): (j: nat)
    requires i <= |s|
    ensures i <= j <= |s|
    ensures !White(At(s, j))
    decreases |s| - i
  {
    if White(At(s, i)) then SkipWhite(s, i + 1) else i
  }

  function NameEnd(s: string, i: nat): (j: nat)
    requires i <= |s|
    ensures i <= j <= |s|
    ensures !NameChar(At(s, j))
    decreases |s| - i
  {
    if NameChar(At(s, i)) then NameEnd(s, i + 1) else i
  }

  function NumEnd(s: string, i: nat): (j: nat)
    requires i <= |s|
    ensures i <= j <= |s|
    ensures !NumChar(At(s, j))
    decreases |s| - i
  {
    if NumChar(At(s, i)) then NumEnd(s, i + 1) else i
  }

  predicate ArithOp(c: char) { c in "=><+-*/%!()&|^~?:," }

  predicate AssignableOp(c: char) { c in "*/%+-&^|" }

  // An operator token: its code, the operator of an OP= (or the old one), and where it ends.
  datatype OpToken = OpToken(tok: Token, asg: Token, next: nat) | NoOp

  // readtok on an operator starting at i; afterName says that the current token is a name.
  function LexOp(s: string, i: nat, afterName: bool, asg: Token): (r: OpToken)
    requires i < |s| && s[i] != '\0'
    ensures r.OpToken? ==> i < r.next <= |s| && r.tok != End && r.tok != Str
  {
    var c, c1, c2 := s[i], At(s, i + 1), At(s, i + 2);
    if c == '=' && c1 == '=' then OpToken(EqEq, asg, i + 2)
    else if c == '!' && c1 == '=' then OpToken(Neq, asg, i + 2)
    else if c == '>' && c1 == '=' then OpToken(Geq, asg, i + 2)
    else if c == '<' && c1 == '=' then OpToken(Leq, asg, i + 2)
    else if c == '<' && c1 == '<' then
      if c2 == '=' then OpToken(OpAssign, Lsh, i + 3) else OpToken(Lsh, asg, i + 2)
    else if c == '>' && c1 == '>' then
      if c2 == '=' then OpToken(OpAssign, Rsh, i + 3) else OpToken(Rsh, asg, i + 2)
    else if c == '&' && c1 == '&' then OpToken(LAnd, asg, i + 2)
    else if c == '|' && c1 == '|' then OpToken(LOr, asg, i + 2)
    else if c == '*' && c1 == '*' then OpToken(Power, asg, i + 2)
    else if (c == '-' || c == '+') && c1 == c && afterName then
      OpToken(if c == '-' then PostDec else PostInc, asg, i + 2)
    else if (c == '-' || c == '+') && c1 == c then
      if NameStart(At(s, SkipWhite(s, i + 2))) then OpToken(if c == '-' then PreDec else PreInc, asg, i + 2)
      else OpToken(Ch(c), asg, i + 1)
    else if c1 == '=' && AssignableOp(c) then OpToken(OpAssign, Ch(c), i + 2)
    else if ArithOp(c) then OpToken(Ch(c), asg, i + 1)
    else NoOp
  }
}
