/** The lexer reads back the tokens that a printed expression is made of. */
module ExprLex {
  import opened Int64
  import opened Numerals
  import opened ExprState
  import opened ExprEval
  import opened ExprSteps
  import opened ExprTree

  // ---------- where the next token is ----------

  // From position p on, white space apart, text s is the tokens ts.
  ghost predicate Ahead(s: string, p: nat, ts: seq<PTok>) {
    p <= |s| && s[SkipWhite(s, p)..] == Join(ts)
  }

  // At i the text is w, and a blank or the end follows.
  ghost predicate Spelled(s: string, i: nat, w: string) {
    && i + |w| <= |s|
    && (forall k :: 0 <= k < |w| ==> At(s, i + k) == w[k])
    && (At(s, i + |w|) == ' ' || At(s, i + |w|) == '\0')
  }

  lemma TextShape(t: PTok)
    requires Printable(t)
    ensures |Text(t)| > 0 && !White(Text(t)[0]) && Text(t)[0] != '\0'
  {
  }

  // What follows a token's text when the tokens ts come after it.
  function Tail(ts: seq<PTok>): string { if ts == [] then "" else " " + Join(ts) }

  lemma TailShape(ts: seq<PTok>)
    ensures Tail(ts) == "" || Tail(ts)[0] == ' '
  {
  }

  lemma JoinCut(ts: seq<PTok>)
    requires ts != []
    ensures Join(ts) == Text(ts[0]) + Tail(ts[1..])
  {
  }

  lemma Cut(s: string, i: nat, w: string, rest: string)
    requires i <= |s| && s[i..] == w + rest
    requires rest == "" || rest[0] == ' '
    ensures Spelled(s, i, w)
    ensures s[i..i + |w|] == w && s[i + |w|..] == rest
  {
    var u := s[i..];
    assert |u| == |w| + |rest|;
    forall k | 0 <= k < |w|
      ensures At(s, i + k) == w[k]
    {
      assert s[i + k] == u[k];
    }
    assert s[i..i + |w|] == u[..|w|];
    assert s[i + |w|..] == u[|w|..];
    if rest != "" {
      assert s[i + |w|] == s[i + |w|..][0];
    }
  }

  lemma AheadTail(s: string, p: nat, ts: seq<PTok>)
    requires p <= |s| && s[p..] == Tail(ts) && Clean(ts)
    ensures Ahead(s, p, ts)
  {
    if ts == [] {
      assert p == |s|;
    } else {
      var u := s[p..];
      TextShape(ts[0]);
      JoinCut(ts);
      assert s[p] == u[0] == ' ';
      assert s[p + 1] == u[1] == Join(ts)[0];
      assert SkipWhite(s, p + 1) == p + 1;
      assert s[p + 1..] == u[1..];
    }
  }

  // The next token's text lies in the window from its start on, a blank or the end follows,
  // and behind it the remaining tokens are ahead.
  lemma Window(s: string, p: nat, ts: seq<PTok>)
    requires Ahead(s, p, ts) && ts != [] && Clean(ts)
    ensures WindowAt(s, SkipWhite(s, p), Text(ts[0]), ts[1..])
  {
    JoinCut(ts);
    TailShape(ts[1..]);
    WindowCut(s, SkipWhite(s, p), Text(ts[0]), ts[1..]);
  }

  ghost predicate WindowAt(s: string, i: nat, w: string, rest: seq<PTok>) {
    Spelled(s, i, w) && s[i..i + |w|] == w && Ahead(s, i + |w|, rest)
  }

  lemma WindowCut(s: string, i: nat, w: string, rest: seq<PTok>)
    requires i <= |s| && s[i..] == w + Tail(rest) && Clean(rest)
    requires Tail(rest) == "" || Tail(rest)[0] == ' '
    ensures WindowAt(s, i, w, rest)
  {
    hide Tail, Ahead, Clean;
    Cut(s, i, w, Tail(rest));
    AheadTail(s, i + |w|, rest);
  }

  lemma AheadNothing(s: string, p: nat)
    requires Ahead(s, p, [])
    ensures At(s, SkipWhite(s, p)) == '\0'
  {
  }

  lemma {:induction false} NameEndAt(s: string, i: nat, n: nat)
    requires i <= n <= |s|
    requires forall k :: i <= k < n ==> NameChar(s[k])
    requires !NameChar(At(s, n))
    ensures NameEnd(s, i) == n
    decreases n - i
  {
    if i < n {
      NameEndAt(s, i + 1, n);
    }
  }

  lemma {:induction false} NumEndAt(s: string, i: nat, n: nat)
    requires i <= n <= |s|
    requires forall k :: i <= k < n ==> NumChar(s[k])
    requires !NumChar(At(s, n))
    ensures NumEnd(s, i) == n
    decreases n - i
  {
    if i < n {
      NumEndAt(s, i + 1, n);
    }
  }

  // ---------- operators ----------

  function AsgOf(t: PTok, asg: Token): Token { if t.PAsg? then t.op else asg }

  // An operator's spelling, with a blank or the end after it, is read as that operator.
  lemma LexSpelling(s: string, i: nat, t: PTok, afterName: bool, asg: Token)
    requires Printable(t) && (t.POp? || t.PAsg?)
    requires Spelled(s, i, Text(t))
    requires IsPost(t) ==> afterName
    requires IsPre(t) ==> !afterName && NameStart(At(s, SkipWhite(s, i + 2)))
    ensures i < |s| && s[i] != '\0' && !NameStart(s[i]) && !IsDigit(s[i])
    ensures LexOp(s, i, afterName, asg) == OpToken(TokenOf(t), AsgOf(t, asg), i + |Text(t)|)
  {
    if t.PAsg? {
      LexAssignment(s, i, t.op, afterName, asg);
    } else if t.t.Ch? {
      LexSingle(s, i, t.t.c, afterName, asg);
    } else {
      LexDouble(s, i, t.t, afterName, asg);
    }
  }

  lemma LexAssignment(s: string, i: nat, op: Token, afterName: bool, asg: Token)
    requires UpdateOp(op) && Spelled(s, i, Spell(op) + "=")
    ensures i < |s| && s[i] != '\0' && !NameStart(s[i]) && !IsDigit(s[i])
    ensures LexOp(s, i, afterName, asg) == OpToken(OpAssign, op, i + |Spell(op)| + 1)
  {
    var w := Spell(op) + "=";
    assert At(s, i + 0) == w[0] && At(s, i + 1) == w[1];
    if op == Lsh || op == Rsh {
      assert At(s, i + 2) == w[2];
    }
  }

  lemma LexSingle(s: string, i: nat, c: char, afterName: bool, asg: Token)
    requires ArithOp(c) && Spelled(s, i, [c])
    ensures i < |s| && s[i] != '\0' && !NameStart(s[i]) && !IsDigit(s[i])
    ensures LexOp(s, i, afterName, asg) == OpToken(Ch(c), asg, i + 1)
  {
    assert At(s, i + 0) == [c][0];
  }

  lemma LexDouble(s: string, i: nat, t: Token, afterName: bool, asg: Token)
    requires OperatorTok(t) && !t.Ch? && Spelled(s, i, Spell(t))
    requires IsPost(POp(t)) ==> afterName
    requires IsPre(POp(t)) ==> !afterName && NameStart(At(s, SkipWhite(s, i + 2)))
    ensures i < |s| && s[i] != '\0' && !NameStart(s[i]) && !IsDigit(s[i])
    ensures LexOp(s, i, afterName, asg) == OpToken(t, asg, i + 2)
  {
    var w := Spell(t);
    assert At(s, i + 0) == w[0] && At(s, i + 1) == w[1];
  }

  lemma NameValue(m: Machine, i: nat, cp: nat, peek: Machine, v: I64) returns (m': Machine)
    requires m.tp <= i < cp <= |m.text| && (m.noeval > 0 ==> peek.store == m.store)
    requires var back := Saved(m, i, cp).(asg := peek.asg, store := peek.store);
             VariableValue(back.str, back) == Ok(v, back)
    ensures NameToken(m, i, cp, peek) == Go(m')
    ensures m' == Saved(m, i, cp).(asg := peek.asg, store := peek.store, val := m'.val,
                                   last := m.cur, cur := Str, tp := cp)
    ensures m'.val == v || peek.cur == Ch('=')
  {
    hide VariableValue;
    m' := NameToken(m, i, cp, peek).m;
  }

  // ---------- variables that hold integers ----------

  // The store in which every variable of env holds its value, printed in decimal.
  function Encode(env: Env): Store { map x | x in env :: Itos(env[x]) }

  lemma EncodePut(env: Env, x: string, v: I64)
    ensures Encode(env[x := v]) == Encode(env)[x := Itos(v)]
  {
  }

  lemma ClimbOne(k: nat, m: Machine)
    requires 2 <= k <= TOP
    requires Parse(k - 1, m).Ok? && !Continues(k, Parse(k - 1, m).m.cur)
    ensures Parse(k, m) == Parse(k - 1, m)
  {
    var r := Parse(k - 1, m);
    assert Above(k, r.v, r.m) == r;
  }

  // A phrase of level j, with nothing after it that a level up to k would take, is a
  // phrase of level k.
  lemma {:induction false} Climb(j: nat, k: nat, m: Machine)
    requires j <= k <= TOP
    requires j == 0 ==> !Unary(m.cur)
    requires Parse(j, m).Ok? ==> forall i :: j < i <= k ==> !Continues(i, Parse(j, m).m.cur)
    ensures Parse(k, m) == Parse(j, m)
    decreases k
  {
    if j < k {
      Climb(j, k - 1, m);
      if k > 1 && Parse(j, m).Ok? {
        ClimbOne(k, m);
      }
    }
  }

  lemma DecNumber(s: string, i: nat, n: nat)
    requires i <= |s| && s[i..] == Dec(n)
    ensures i < |s| && IsDigit(s[i]) && NumEnd(s, i + 1) == |s| && s[i..|s|] == Dec(n)
    ensures Strlong(s[i..|s|]) == Value(Wrap(n))
  {
    forall k | i <= k < |s|
      ensures IsDigit(s[k])
    {
      assert s[k] == Dec(n)[k - i];
    }
    NumEndAt(s, i + 1, |s|);
    StrlongDecimal(n);
    assert s[i..|s|] == s[i..];
  }

  function AtNumber(m: Machine, n: nat): Machine {
    m.(val := Wrap(n), last := m.cur, cur := Num, tp := |m.text|)
  }

  function AtEnd(m: Machine): Machine { m.(last := m.cur, cur := End, tp := |m.text|) }

  // Reading a decimal number that ends the text, and then the end.
  lemma LastNumber(m: Machine, n: nat)
    requires m.text[m.tp..] == Dec(n)
    ensures ReadTok(m) == Go(AtNumber(m, n))
    ensures Primary(AtNumber(m, n)) == Ok(Wrap(n), AtEnd(AtNumber(m, n)))
  {
    DecNumber(m.text, m.tp, n);
    assert SkipWhite(m.text, m.tp) == m.tp;
    ReadDigits(m, m.tp, |m.text|, Wrap(n));
    NumberThenEnd(AtNumber(m, n));
  }

  lemma NumberThenEnd(m: Machine)
    requires m.cur == Num && m.tp == |m.text|
    ensures Primary(m) == Ok(m.val, AtEnd(m))
  {
    hide Parse, VariableValue, SubExpr;
    assert ReadTok(m) == Go(AtEnd(m));
  }

  // A whole text that reads as one phrase, with nothing behind it, evaluates to that phrase.
  lemma SubExprIs(expr: string, m: Machine, j: nat)
    requires m.depth < MAX_EXPR_RECURSION_LEVEL
    requires At(expr, SkipWhite(expr, 0)) != '\0'
    requires j <= TOP && ReadTok(Inner(expr, m)).Go?
    requires j == 0 ==> !Unary(ReadTok(Inner(expr, m)).m.cur)
    requires var r := Parse(j, ReadTok(Inner(expr, m)).m); r.Ok? && r.m.cur == End
    ensures var r := Parse(j, ReadTok(Inner(expr, m)).m);
            SubExpr(expr, m) == Ok(r.v, m.(store := r.m.store, asg := r.m.asg))
  {
    var m' := ReadTok(Inner(expr, m)).m;
    Climb(j, TOP, m');
    hide Parse, ReadTok, Unary, Inner, SkipWhite, At;
    assert Parse(TOP, m') == Parse(j, m');
  }

  // Evaluating the text of an integer gives the integer and touches nothing.
  lemma IntegerText(v: I64, m: Machine)
    requires m.depth < MAX_EXPR_RECURSION_LEVEL
    ensures SubExpr(Itos(v), m) == Ok(v, m)
  {
    var n: int := v;
    if n >= 0 {
      var inner := Inner(Itos(v), m);
      assert inner.text[0..] == Dec(n);
      LastNumber(inner, n);
      SubExprIs(Itos(v), m, 0);
    } else {
      NegativeText(n, m);
    }
  }

  lemma NegativeText(n: int, m: Machine)
    requires m.depth < MAX_EXPR_RECURSION_LEVEL && -TWO_63 <= n < 0
    ensures SubExpr("-" + Dec(-n), m) == Ok(n, m)
  {
    hide ReadTok, Parse, SubExpr, UnaryLevel, Primary, VariableValue, AtEnd, AtNumber, Keeps, Rem, Inner;
    var expr := "-" + Dec(-n);
    var inner := Inner(expr, m);
    var m1 := ReadMinus(inner, -n) by { FreshState(expr, m); }
    LastNumber(m1, -n);
    var m2 := AtNumber(m1, -n);
    EndsAt(m1, -n);
    Negation(m1, m2, AtEnd(m2));
    NegateWrapped(n);
    FreshState(expr, m);
    SubExprIs(expr, m, 1);
  }

  lemma FreshState(expr: string, m: Machine)
    requires m.depth < MAX_EXPR_RECURSION_LEVEL
    ensures Inner(expr, m).text == expr && Inner(expr, m).tp == 0
    ensures Inner(expr, m).store == m.store && Inner(expr, m).asg == m.asg && Inner(expr, m).cur == End
  {
  }

  lemma ReadMinus(inner: Machine, n: nat) returns (m1: Machine)
    requires inner.text == "-" + Dec(n) && inner.tp == 0 && inner.cur == End
    ensures ReadTok(inner) == Go(m1) && m1.cur == Ch('-') && m1.text[m1.tp..] == Dec(n)
    ensures m1.store == inner.store && m1.asg == inner.asg
    ensures At(inner.text, SkipWhite(inner.text, 0)) != '\0'
  {
    hide ReadTok, Dec;
    var s := inner.text;
    m1 := inner.(last := End, cur := Ch('-'), tp := 1);
    assert s[1] == Dec(n)[0] && s[1..] == Dec(n);
    assert SkipWhite(s, 0) == 0;
    ReadOperator(inner, 0, Ch('-'), inner.asg, 1);
  }

  lemma EndsAt(m: Machine, n: nat)
    ensures AtNumber(m, n).cur == Num && AtNumber(m, n).val == Wrap(n)
    ensures var e := AtEnd(AtNumber(m, n)); e.cur == End && e.store == m.store && e.asg == m.asg
  {
  }

  lemma Negation(m1: Machine, m2: Machine, m3: Machine)
    requires m1.cur == Ch('-') && ReadTok(m1) == Go(m2)
    requires m2.cur == Num && Primary(m2) == Ok(m2.val, m3)
    ensures Parse(1, m1) == Ok(Wrap(0 - m2.val), m3)
  {
    hide ReadTok, Primary;
    assert UnaryLevel(m2) == Primary(m2);
    assert UnaryLevel(m1) == Ok(UnaryValue(Ch('-'), m2.val), m3);
  }

  lemma NegateWrapped(n: int)
    requires -TWO_63 <= n < 0
    ensures Wrap(0 - Wrap(-n)) == n
  {
    if n == -TWO_63 {
      assert Wrap(TWO_63) == -TWO_63;
    }
  }

  lemma VariableInteger(x: string, m: Machine, env: Env)
    requires m.store == Encode(env) && m.depth < MAX_EXPR_RECURSION_LEVEL && m.tp < |m.text|
    ensures VariableValue(x, m) == Ok(Get(env, x), m)
  {
    if x in env {
      assert m.store[x] == Itos(env[x]) != "";
      IntegerText(env[x], m);
    }
  }

  // ---------- reading one printed token ----------

  // The machine's current token is the head of ts and the rest of ts is ahead of it.
  ghost predicate On(m: Machine, ts: seq<PTok>, env: Env) {
    && Clean(ts) && m.store == Encode(env) && m.depth < MAX_EXPR_RECURSION_LEVEL
    && if ts == [] then m.cur == End && Ahead(m.text, m.tp, [])
       else
         && m.cur == TokenOf(ts[0]) && Ahead(m.text, m.tp, ts[1..])
         && match ts[0]
            case PNum(n) => m.val == Wrap(n)
            case PName(x) =>
              m.str == x && ((|ts| > 1 && ts[1] == POp(Ch('='))) || m.val == Get(env, x))
            case PAsg(op) => m.asg == op
            case POp(_) => true
  }

  // A machine m' that has moved from m onto ts, having changed nothing else that the
  // parser still needs.
  ghost predicate Landed(m: Machine, m': Machine, ts: seq<PTok>, env: Env) {
    && On(m', ts, env)
    && m'.last == m.cur
    && (ts == [] || !ts[0].PName? ==> m'.str == m.str)
    && (ts == [] || ts[0].POp? || ts[0].PAsg? ==> m'.val == m.val)
  }

  // The lexer can be asked for ts.
  ghost predicate Before(m: Machine, ts: seq<PTok>, env: Env) {
    && Ahead(m.text, m.tp, ts) && Clean(ts)
    && Readable(ts, m.cur.Str?)
    && m.store == Encode(env) && m.depth < MAX_EXPR_RECURSION_LEVEL
  }

  lemma ArriveEnd(m: Machine, env: Env) returns (m': Machine)
    requires Before(m, [], env)
    ensures ReadTok(m) == Go(m') && Landed(m, m', [], env)
  {
    AheadNothing(m.text, m.tp);
    var i := SkipWhite(m.text, m.tp);
    m' := m.(last := m.cur, cur := End, tp := i);
    assert SkipWhite(m.text, i) == i;
  }

  lemma PeekReadable(ts: seq<PTok>, afterName: bool)
    requires |ts| > 1 && Clean(ts) && ts[0].PName? && Readable(ts, afterName)
    ensures Clean(ts[1..]) && Readable(ts[1..], true) && (ts[1].POp? || ts[1].PAsg?)
  {
  }

  // The operator t is the next token; it starts at i and ends before next.
  ghost predicate OperatorAt(m: Machine, t: PTok, i: nat, next: nat, rest: seq<PTok>) {
    && i == SkipWhite(m.text, m.tp) && i < |m.text|
    && m.text[i] != '\0' && !NameStart(m.text[i]) && !IsDigit(m.text[i])
    && LexOp(m.text, i, m.cur == Str, m.asg) == OpToken(TokenOf(t), AsgOf(t, m.asg), next)
    && Ahead(m.text, next, rest)
  }

  lemma FindOperator(m: Machine, ts: seq<PTok>) returns (i: nat, next: nat)
    requires Ahead(m.text, m.tp, ts) && Clean(ts) && ts != [] && (ts[0].POp? || ts[0].PAsg?)
    requires Readable(ts, m.cur.Str?)
    ensures next <= |m.text| && OperatorAt(m, ts[0], i, next, ts[1..])
  {
    hide Join, Ahead, LexOp, Text;
    var t := ts[0];
    i := SkipWhite(m.text, m.tp);
    next := i + |Text(t)|;
    Window(m.text, m.tp, ts);
    if IsPre(t) {
      PreSpelling(m.text, i, ts);
    }
    LexSpelling(m.text, i, t, m.cur == Str, m.asg);
  }

  lemma ArriveOperator(m: Machine, ts: seq<PTok>, env: Env) returns (m': Machine)
    requires Before(m, ts, env) && ts != [] && (ts[0].POp? || ts[0].PAsg?)
    ensures ReadTok(m) == Go(m') && Landed(m, m', ts, env)
  {
    hide ReadTok, Ahead, Encode, SkipWhite, LexOp, Keeps, Rem, On, Landed, Clean, Readable, TokenOf, AsgOf;
    var i, next := FindOperator(m, ts);
    ReadOperator(m, i, TokenOf(ts[0]), AsgOf(ts[0], m.asg), next);
    m' := LandOperator(m, ts, env, next);
  }

  lemma LandOperator(m: Machine, ts: seq<PTok>, env: Env, next: nat) returns (m': Machine)
    requires Before(m, ts, env) && ts != [] && (ts[0].POp? || ts[0].PAsg?)
    requires next <= |m.text| && Ahead(m.text, next, ts[1..])
    ensures m' == m.(asg := AsgOf(ts[0], m.asg), last := m.cur, cur := TokenOf(ts[0]), tp := next)
    ensures Landed(m, m', ts, env)
  {
    hide ReadTok, Ahead, Encode, Text, Join, Tail, SkipWhite, NumEnd, NameEnd, Strlong, Dec, Keeps, Rem;
    m' := m.(asg := AsgOf(ts[0], m.asg), last := m.cur, cur := TokenOf(ts[0]), tp := next);
  }

  lemma LandNumber(m: Machine, ts: seq<PTok>, env: Env, next: nat) returns (m': Machine)
    requires Before(m, ts, env) && ts != [] && ts[0].PNum?
    requires next <= |m.text| && Ahead(m.text, next, ts[1..])
    ensures m' == m.(val := Wrap(ts[0].n), last := m.cur, cur := Num, tp := next)
    ensures Landed(m, m', ts, env)
  {
    hide ReadTok, Ahead, Encode, Text, Join, Tail, SkipWhite, NumEnd, NameEnd, Strlong, Dec, Keeps, Rem;
    m' := m.(val := Wrap(ts[0].n), last := m.cur, cur := Num, tp := next);
  }

  lemma PreSpelling(s: string, i: nat, ts: seq<PTok>)
    requires |ts| > 1 && Clean(ts) && IsPre(ts[0]) && ts[1].PName?
    requires Ahead(s, i + |Text(ts[0])|, ts[1..])
    ensures i + 2 <= |s| && NameStart(At(s, SkipWhite(s, i + 2)))
  {
    assert |Text(ts[0])| == 2;
    Window(s, i + 2, ts[1..]);
    assert At(s, SkipWhite(s, i + 2) + 0) == Text(ts[1])[0];
  }

  // The number n is the next token; it starts at i and ends before next.
  ghost predicate NumberAt(m: Machine, n: nat, i: nat, next: nat, rest: seq<PTok>) {
    && i == SkipWhite(m.text, m.tp) && IsDigit(At(m.text, i))
    && next == NumEnd(m.text, i + 1) && Strlong(m.text[i..next]) == Value(Wrap(n))
    && Ahead(m.text, next, rest)
  }

  lemma FindNumber(m: Machine, ts: seq<PTok>) returns (i: nat, next: nat)
    requires Ahead(m.text, m.tp, ts) && Clean(ts) && ts != [] && ts[0].PNum?
    ensures i == SkipWhite(m.text, m.tp) && i < |m.text| && next <= |m.text|
    ensures NumberAt(m, ts[0].n, i, next, ts[1..])
  {
    hide Join, Ahead, Dec;
    i := SkipWhite(m.text, m.tp);
    next := i + |Dec(ts[0].n)|;
    Window(m.text, m.tp, ts);
    NumberSpelling(m.text, i, ts[0].n);
  }

  lemma ArriveNumber(m: Machine, ts: seq<PTok>, env: Env) returns (m': Machine)
    requires Before(m, ts, env) && ts != [] && ts[0].PNum?
    ensures ReadTok(m) == Go(m') && Landed(m, m', ts, env)
  {
    hide ReadTok, Ahead, Encode, SkipWhite, NumEnd, Strlong, Keeps, Rem, On, Landed, Clean, Readable, Wrap;
    var i, next := FindNumber(m, ts);
    ReadDigits(m, i, next, Wrap(ts[0].n));
    m' := LandNumber(m, ts, env, next);
  }

  lemma NumberSpelling(s: string, i: nat, n: nat)
    requires Spelled(s, i, Dec(n)) && s[i..i + |Dec(n)|] == Dec(n)
    ensures IsDigit(At(s, i)) && NumEnd(s, i + 1) == i + |Dec(n)|
    ensures Strlong(s[i..i + |Dec(n)|]) == Value(Wrap(n))
  {
    var w := Dec(n);
    assert At(s, i + 0) == w[0];
    forall k | i + 1 <= k < i + |w|
      ensures NumChar(s[k])
    {
      assert At(s, i + (k - i)) == w[k - i];
    }
    NumEndAt(s, i + 1, i + |w|);
    StrlongDecimal(n);
  }

  // The name x is the next token; it starts at i, and the tokens rest come behind it.
  ghost predicate NameAt(m: Machine, x: string, i: nat, rest: seq<PTok>) {
    && i == SkipWhite(m.text, m.tp) && NameStart(At(m.text, i))
    && i + |x| <= |m.text| && m.text[i..i + |x|] == x
    && NameEnd(m.text, i + 1) == i + |x| && At(m.text, i + |x|) != '['
    && Ahead(m.text, i + |x|, rest)
  }

  lemma NameSpelling(s: string, i: nat, x: string)
    requires Spelled(s, i, x) && ValidName(x)
    ensures NameStart(At(s, i)) && NameEnd(s, i + 1) == i + |x|
  {
    assert At(s, i + 0) == x[0];
    forall k | i + 1 <= k < i + |x|
      ensures NameChar(s[k])
    {
      assert At(s, i + (k - i)) == x[k - i];
    }
    NameEndAt(s, i + 1, i + |x|);
  }

  lemma FindName(m: Machine, ts: seq<PTok>)
    requires Ahead(m.text, m.tp, ts) && Clean(ts) && ts != [] && ts[0].PName?
    ensures NameAt(m, ts[0].x, SkipWhite(m.text, m.tp), ts[1..])
  {
    hide Join, Ahead;
    Window(m.text, m.tp, ts);
    NameSpelling(m.text, SkipWhite(m.text, m.tp), ts[0].x);
  }

  // The state in which the token behind a name is looked at.
  function Peeking(m: Machine, x: string, i: nat): Machine
    requires i + |x| <= |m.text|
  {
    Saved(m, i, i + |x|).(tp := i + |x|, noeval := 1, cur := Str)
  }

  // The look at the token behind a name.
  lemma PeekAfterName(ahead: Machine, ts: seq<PTok>, afterName: bool, env: Env) returns (peek: Machine)
    requires ts != [] && Clean(ts) && ts[0].PName? && Readable(ts, afterName)
    requires Ahead(ahead.text, ahead.tp, ts[1..]) && ahead.cur == Str
    requires ahead.store == Encode(env) && ahead.depth < MAX_EXPR_RECURSION_LEVEL
    ensures ReadTok(ahead) == Go(peek) && On(peek, ts[1..], env)
  {
    hide ReadTok, Ahead, Encode, Text, Join, Keeps, Rem;
    if |ts| == 1 {
      assert ts[1..] == [];
      peek := ArriveEnd(ahead, env);
    } else {
      PeekReadable(ts, afterName);
      peek := ArriveOperator(ahead, ts[1..], env);
    }
  }

  lemma ArriveName(m: Machine, ts: seq<PTok>, env: Env) returns (m': Machine)
    requires Before(m, ts, env) && ts != [] && ts[0].PName?
    ensures ReadTok(m) == Go(m') && Landed(m, m', ts, env)
  {
    hide ReadTok, Ahead, Encode, Landed, On, Keeps, Rem;
    var i := SkipWhite(m.text, m.tp);
    FindName(m, ts);
    var peek := PeekAfterName(Peeking(m, ts[0].x, i), ts, m.cur.Str?, env);
    m' := FromPeek(m, ts, i, peek, env);
  }

  lemma FromPeek(m: Machine, ts: seq<PTok>, i: nat, peek: Machine, env: Env) returns (m': Machine)
    requires Before(m, ts, env) && ts != [] && ts[0].PName?
    requires NameAt(m, ts[0].x, i, ts[1..])
    requires ReadTok(Peeking(m, ts[0].x, i)) == Go(peek) && On(peek, ts[1..], env)
    ensures ReadTok(m) == Go(m') && Landed(m, m', ts, env)
  {
    hide ReadTok, Ahead, Encode, SkipWhite, NameEnd, Keeps, Rem, On, Landed, Clean, Readable, NameToken, VariableValue;
    var x := ts[0].x;
    var back := Saved(m, i, i + |x|).(asg := peek.asg, store := peek.store);
    PeekIsAssign(peek, ts, env);
    VariableInteger(x, back, env);
    ReadName(m, i, i + |x|);
    m' := NameValue(m, i, i + |x|, peek, Get(env, x));
    LandName(m, m', ts, env);
  }

  lemma LandName(m: Machine, m': Machine, ts: seq<PTok>, env: Env)
    requires ts != [] && ts[0].PName? && Clean(ts)
    requires m'.store == Encode(env) && m'.depth < MAX_EXPR_RECURSION_LEVEL
    requires m'.cur == Str && m'.last == m.cur && m'.str == ts[0].x && Ahead(m'.text, m'.tp, ts[1..])
    requires m'.val == Get(env, ts[0].x) || (|ts| > 1 && ts[1] == POp(Ch('=')))
    ensures Landed(m, m', ts, env)
  {
    hide Ahead, Encode;
  }

  lemma PeekIsAssign(peek: Machine, ts: seq<PTok>, env: Env)
    requires ts != [] && On(peek, ts[1..], env)
    ensures peek.store == Encode(env)
    ensures peek.cur == Ch('=') ==> |ts| > 1 && ts[1] == POp(Ch('='))
  {
  }

  lemma Arrive(m: Machine, ts: seq<PTok>, env: Env) returns (m': Machine)
    requires Before(m, ts, env)
    ensures ReadTok(m) == Go(m') && Landed(m, m', ts, env)
  {
    hide ReadTok, Ahead, Encode, Text, Join, Tail, SkipWhite, NumEnd, NameEnd, Strlong, Dec, Keeps, Rem;
    if ts == [] {
      m' := ArriveEnd(m, env);
    } else {
      match ts[0]
      case PNum(_) => m' := ArriveNumber(m, ts, env);
      case PName(_) => m' := ArriveName(m, ts, env);
      case _ => m' := ArriveOperator(m, ts, env);
    }
  }
}
