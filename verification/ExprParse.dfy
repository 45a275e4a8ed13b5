/** The evaluator agrees with the expression tree: evaluating what a tree prints as gives
    the tree's value, or its error, and its final store. */
module ExprParse {
  import opened Int64
  import opened Numerals
  import opened ExprState
  import opened ExprEval
  import opened ExprSteps
  import opened ExprTree
  import opened ExprLex

  // Result r of a grammar function that started at m is what s says, and what is left is rest.
  ghost predicate Reads(r: Result, s: Meaning, m: Machine, rest: seq<PTok>) {
    match s
    case Gives(v, env) => r.Ok? && r.v == v && On(r.m, rest, env) && r.m.noeval == m.noeval
    case Breaks(e, env) => r == Fail(e, Encode(env))
  }

  lemma NextToken(ts: seq<PTok>, rest: seq<PTok>, k: nat)
    requires Follow(rest, k)
    ensures Readable(rest, true) && Readable(rest, false)
  {
  }

  // ---------- climbing from level to level ----------

  lemma ClimbReads(j: nat, k: nat, m: Machine, s: Meaning, rest: seq<PTok>)
    requires j <= k <= TOP && Follow(rest, k)
    requires j == 0 ==> !Unary(m.cur)
    requires Reads(Parse(j, m), s, m, rest)
    ensures Reads(Parse(k, m), s, m, rest)
  {
    hide ReadTok, Parse, Encode, Ahead;
    Climb(j, k, m);
  }

  // ---------- operands ----------

  lemma OwnLit(n: nat, m: Machine, rest: seq<PTok>, env: Env)
    requires Clean(rest) && Follow(rest, 0)
    requires On(m, [PNum(n)] + rest, env)
    ensures Reads(Parse(0, m), Gives(Wrap(n), env), m, rest)
  {
    hide ReadTok, Encode, Ahead, Follow;
    NextToken([], rest, 0);
    assert ([PNum(n)] + rest)[1..] == rest;
    var m1 := Arrive(m, rest, env);
    assert Finish(m.val, m) == Ok(m.val, m1);
  }

  // A name that is not incremented: its value was read with it, and it is the last token.
  lemma OwnName(x: string, m: Machine, rest: seq<PTok>, env: Env) returns (m': Machine)
    requires Clean(rest) && (rest != [] ==> AfterName(rest[0]) && !IsPost(rest[0]))
    requires On(m, [PName(x)] + rest, env)
    ensures Parse(0, m) == Ok(m.val, m')
    ensures On(m', rest, env) && m'.last == Str && m'.str == x && m'.noeval == m.noeval
  {
    hide ReadTok, Encode, Ahead, Rem;
    assert ([PName(x)] + rest)[1..] == rest;
    var peek := Arrive(m.(str := "", noeval := 1), rest, env);
    var back := m.(asg := peek.asg, store := peek.store);
    m' := Arrive(back, rest, env);
    assert peek.cur != PostInc && peek.cur != PostDec;
    assert Primary(m) == Finish(m.val, back);
  }

  lemma OwnVar(x: string, m: Machine, rest: seq<PTok>, env: Env)
    requires Clean(rest) && Follow(rest, 0)
    requires On(m, [PName(x)] + rest, env)
    ensures Reads(Parse(0, m), Gives(Get(env, x), env), m, rest)
  {
    hide ReadTok, Encode, Ahead, Rem, Parse;
    var m' := OwnName(x, m, rest, env);
  }

  lemma OwnPost(x: string, up: bool, m: Machine, rest: seq<PTok>, env: Env)
    requires Clean(rest) && Follow(rest, 0)
    requires ValidName(x) && On(m, Raw(PostStep(x, up)) + rest, env)
    ensures Reads(Parse(0, m), Sem(PostStep(x, up), m.noeval == 0, env), m, rest)
  {
    hide ReadTok, Ahead, Rem, Itos, Primary, Parse, Encode;
    var op := POp(if up then PostInc else PostDec);
    assert (Raw(PostStep(x, up)) + rest)[1..] == [op] + rest;
    var peek := Arrive(m.(str := "", noeval := 1), [op] + rest, env);
    assert ([op] + rest)[1..] == rest;
    var w := Stepped(m.val, up);
    var m1 := peek.(str := m.str, noeval := m.noeval, last := Str, cur := Num);
    var m2 := Bind(m1, x, w);
    EncodePut(env, x, w);
    NextToken([], rest, 0);
    var m3 := Arrive(m2, rest, Put(env, x, w, m.noeval == 0));
    PostIs(m, peek, up, m3);
  }

  lemma PostIs(m: Machine, peek: Machine, up: bool, m3: Machine)
    requires m.cur == Str && ReadTok(m.(str := "", noeval := 1)) == Go(peek)
    requires peek.cur == if up then PostInc else PostDec
    requires var m1 := peek.(str := m.str, noeval := m.noeval, last := Str, cur := Num);
             ReadTok(Bind(m1, m.str, Stepped(m.val, up))) == Go(m3)
    ensures Parse(0, m) == Ok(m.val, m3)
  {
    hide ReadTok, Bind, Stepped, Parse, Primary;
    PrimaryIs(m);
  }

  lemma OwnPre(x: string, up: bool, m: Machine, rest: seq<PTok>, env: Env)
    requires Clean(rest) && Follow(rest, 0)
    requires ValidName(x) && On(m, Raw(PreStep(x, up)) + rest, env)
    ensures Reads(Parse(0, m), Sem(PreStep(x, up), m.noeval == 0, env), m, rest)
  {
    hide ReadTok, Ahead, Rem, Itos, Primary, Parse, Encode;
    assert (Raw(PreStep(x, up)) + rest)[1..] == [PName(x)] + rest;
    var m1 := Arrive(m.(last := m.cur), [PName(x)] + rest, env);
    assert ([PName(x)] + rest)[1..] == rest;
    var w := Stepped(m1.val, up);
    var m2 := Bind(m1, x, w).(cur := Num);
    EncodePut(env, x, w);
    NextToken([], rest, 0);
    var m3 := Arrive(m2, rest, Put(env, x, w, m.noeval == 0));
    PreIs(m, m1, up, m3);
  }

  lemma PreIs(m: Machine, m1: Machine, up: bool, m3: Machine)
    requires m.cur == (if up then PreInc else PreDec)
    requires ReadTok(m.(last := m.cur)) == Go(m1) && m1.cur == Str
    requires var w := Stepped(m1.val, up);
             ReadTok(Bind(m1, m1.str, w).(cur := Num)) == Go(m3)
    ensures Parse(0, m) == Ok(Stepped(m1.val, up), m3)
  {
    hide ReadTok, Itos, Bind, Stepped;
    var w := Stepped(m1.val, up);
    assert Finish(w, Bind(m1, m1.str, w).(cur := Num)) == Ok(w, m3);
    PreUnfold(m, up);
  }

  lemma PreUnfold(m: Machine, up: bool)
    requires m.cur == (if up then PreInc else PreDec)
    ensures Parse(0, m) == ExprEval.PreStep(m, up)
  {
    hide ReadTok, ExprEval.PreStep;
  }

  // ---------- phrases, by structural induction ----------

  // The tokens of e are ahead where a phrase of level k is wanted.
  ghost predicate Wanted(e: Expr, k: nat, m: Machine, rest: seq<PTok>, env: Env)
    requires WellFormed(e)
  {
    Clean(rest) && On(m, Toks(e, k) + rest, env)
  }

  lemma {:induction false} ParseTree(e: Expr, k: nat, m: Machine, rest: seq<PTok>, env: Env)
    requires WellFormed(e) && k <= TOP
    requires Wanted(e, k, m, rest, env) && Follow(rest, k)
    ensures Reads(Parse(k, m), Sem(e, m.noeval == 0, env), m, rest)
    decreases e, 5
  {
    hide ReadTok, Parse, Encode, Ahead, Sem, Raw, Clean, Follow, Reads;
    if Level(e) <= k {
      FollowLess(rest, Level(e), k);
      ParseOwn(e, m, rest, env);
      FirstToken(e, k);
      OwnStart(e, m, rest, env);
      ClimbReads(Level(e), k, m, Sem(e, m.noeval == 0, env), rest);
    } else {
      FollowLess(rest, 0, k);
      Parenthesised(e, m, rest, env);
      ClimbReads(0, k, m, Sem(e, m.noeval == 0, env), rest);
    }
  }

  lemma FollowLess(rest: seq<PTok>, j: nat, k: nat)
    requires j <= k && Follow(rest, k)
    ensures Follow(rest, j)
  {
  }

  // A level-0 phrase does not begin with a unary operator.
  lemma OwnStart(e: Expr, m: Machine, rest: seq<PTok>, env: Env)
    requires WellFormed(e) && On(m, Raw(e) + rest, env)
    ensures Level(e) == 0 ==> !Unary(m.cur)
  {
    hide Encode, Ahead, Toks, Clean;
    assert (Raw(e) + rest)[0] == Raw(e)[0];
  }

  lemma {:induction false} Parenthesised(e: Expr, m: Machine, rest: seq<PTok>, env: Env)
    requires WellFormed(e) && Clean(rest) && Follow(rest, 0)
    requires On(m, [POp(Ch('('))] + Raw(e) + [POp(Ch(')'))] + rest, env)
    ensures Reads(Parse(0, m), Sem(e, m.noeval == 0, env), m, rest) && !Unary(m.cur)
    decreases e, 4
  {
    hide ReadTok, Parse, Encode, Ahead, Sem, Raw, Clean, Rem;
    var close := [POp(Ch(')'))] + rest;
    var all := [POp(Ch('('))] + Raw(e) + [POp(Ch(')'))] + rest;
    assert all[1..] == Raw(e) + close && all[0] == POp(Ch('('));
    CleanRaw(e);
    CleanCons(POp(Ch(')')), rest);
    CleanBoth(Raw(e), close);
    StartsRaw(e, close);
    var m1 := Arrive(m, Raw(e) + close, env);
    FollowClose(close);
    FollowLess(close, Level(e), TOP);
    ParseOwn(e, m1, close, env);
    OwnStart(e, m1, close, env);
    ClimbReads(Level(e), TOP, m1, Sem(e, m.noeval == 0, env), close);
    NextToken([], rest, 0);
    ParenStep(m, m1, Sem(e, m.noeval == 0, env), rest);
  }

  lemma CleanCons(t: PTok, rest: seq<PTok>)
    requires Printable(t) && Clean(rest)
    ensures Clean([t] + rest)
  {
  }

  lemma CleanBoth(a: seq<PTok>, b: seq<PTok>)
    requires Clean(a) && Clean(b)
    ensures Clean(a + b)
  {
  }

  lemma FollowClose(close: seq<PTok>)
    requires close != [] && close[0] == POp(Ch(')'))
    ensures Follow(close, TOP)
  {
  }

  lemma ParenStep(m: Machine, m1: Machine, s: Meaning, rest: seq<PTok>)
    requires m.cur == Ch('(') && ReadTok(m) == Go(m1)
    requires Reads(Parse(TOP, m1), s, m1, [POp(Ch(')'))] + rest)
    requires Readable(rest, false)
    ensures Reads(Parse(0, m), s, m, rest)
  {
    hide ReadTok, Encode, Ahead, Rem;
    var close := [POp(Ch(')'))] + rest;
    assert Parse(0, m) == Primary(m);
    if s.Gives? {
      var m2 := Parse(TOP, m1).m;
      assert close[0] == POp(Ch(')')) && close[1..] == rest;
      assert Clean(rest) by {
        forall i | 0 <= i < |rest| ensures Printable(rest[i]) {
          assert rest[i] == close[i + 1];
        }
      }
      var m3 := Arrive(m2, rest, s.env);
      assert Finish(s.v, m2) == Ok(s.v, m3);
    }
  }

  lemma {:induction false} ParseOwn(e: Expr, m: Machine, rest: seq<PTok>, env: Env)
    requires WellFormed(e) && Clean(rest) && Follow(rest, Level(e))
    requires On(m, Raw(e) + rest, env)
    ensures Reads(Parse(Level(e), m), Sem(e, m.noeval == 0, env), m, rest)
    decreases e, 3
  {
    hide ReadTok, Parse, Encode, Ahead, Clean, Follow, Reads;
    match e
    case Lit(n) => OwnLit(n, m, rest, env);
    case Var(x) => OwnVar(x, m, rest, env);
    case PreStep(x, up) => OwnPre(x, up, m, rest, env);
    case PostStep(x, up) => OwnPost(x, up, m, rest, env);
    case Un(_, _) => OwnUn(e, m, rest, env);
    case Bin(_, _, _) => OwnBin(e, m, rest, env);
    case Pow(_, _) => OwnPow(e, m, rest, env);
    case Cond(_, _, _) => OwnCond(e, m, rest, env);
    case Assign(_, _) => OwnAssign(e, m, rest, env);
    case Update(_, _, _) => OwnUpdate(e, m, rest, env);
  }

  // The operand e comes next, at level k: read its first token.
  lemma Fetch(e: Expr, k: nat, p: Machine, rest: seq<PTok>, env: Env) returns (m1: Machine)
    requires WellFormed(e) && k <= TOP && Clean(rest) && Follow(rest, k)
    requires Ahead(p.text, p.tp, Toks(e, k) + rest) && !p.cur.Str?
    requires p.store == Encode(env) && p.depth < MAX_EXPR_RECURSION_LEVEL
    ensures ReadTok(p) == Go(m1) && OperandStart(m1.cur) && m1.noeval == p.noeval
    ensures Wanted(e, k, m1, rest, env)
  {
    hide ReadTok, Encode, Ahead, Raw, Toks, Rem;
    CleanToks(e, k);
    CleanBoth(Toks(e, k), rest);
    Starts(e, k, rest);
    FirstToken(e, k);
    assert (Toks(e, k) + rest)[0] == Toks(e, k)[0];
    m1 := Arrive(p, Toks(e, k) + rest, env);
  }

  // Read and evaluate the operand e that comes next, at level k.
  lemma {:induction false} Operand(e: Expr, k: nat, p: Machine, rest: seq<PTok>, env: Env) returns (m1: Machine)
    requires WellFormed(e) && k <= TOP && Clean(rest) && Follow(rest, k)
    requires Ahead(p.text, p.tp, Toks(e, k) + rest) && !p.cur.Str?
    requires p.store == Encode(env) && p.depth < MAX_EXPR_RECURSION_LEVEL
    ensures ReadTok(p) == Go(m1)
    ensures Reads(Parse(k, m1), Sem(e, p.noeval == 0, env), m1, rest) && m1.noeval == p.noeval
    decreases e, 6
  {
    hide ReadTok, Parse, Encode, Ahead, Sem, Raw, Toks, Reads, Wanted;
    m1 := Fetch(e, k, p, rest, env);
    ParseTree(e, k, m1, rest, env);
  }

  lemma {:induction false} OwnUn(e: Expr, m: Machine, rest: seq<PTok>, env: Env)
    requires WellFormed(e) && e.Un? && Clean(rest) && Follow(rest, 1)
    requires On(m, Raw(e) + rest, env)
    ensures Reads(Parse(1, m), Sem(e, m.noeval == 0, env), m, rest)
    decreases e, 2
  {
    hide ReadTok, Encode, Ahead, Follow, Clean, Toks;
    assert (Raw(e) + rest)[1..] == Toks(e.e, 1) + rest;
    var m1 := Operand(e.e, 1, m, rest, env);
    hide Parse;
    UnaryStep(m, m1);
  }

  lemma UnaryStep(m: Machine, m1: Machine)
    requires Unary(m.cur) && ReadTok(m) == Go(m1)
    ensures Parse(1, m) ==
            match Parse(1, m1)
            case Fail(e, st) => Fail(e, st)
            case Ok(v, m2) => Ok(UnaryValue(m.cur, v), m2)
  {
    hide ReadTok, Primary;
    assert Parse(1, m1) == UnaryLevel(m1);
  }

  // ---------- left-associative operators ----------

  // Level k of the grammar has read a left operand that means s and is in its loop at m'.
  ghost predicate Looping(k: nat, m: Machine, m': Machine, s: Meaning, rest: seq<PTok>)
    requires LeftAssoc(k)
  {
    match s
    case Gives(v, env) => Parse(k, m) == LeftLoop(k, v, m') && On(m', rest, env) && m'.noeval == m.noeval
    case Breaks(e, env) => Parse(k, m) == Fail(e, Encode(env))
  }

  lemma {:induction false} LeftOperand(e: Expr, k: nat, m: Machine, rest: seq<PTok>, env: Env) returns (m': Machine)
    requires WellFormed(e) && LeftAssoc(k) && Clean(rest) && Follow(rest, k - 1)
    requires On(m, Toks(e, k) + rest, env)
    ensures Looping(k, m, m', Sem(e, m.noeval == 0, env), rest)
    decreases e, 6
  {
    hide ReadTok, Encode, Ahead, Follow, Clean, Sem, Raw, LeftLoop;
    if e.Bin? && OpLevel(e.op) == k {
      m' := LeftChain(e, m, rest, env);
    } else {
      assert Level(e) != k;
      assert Toks(e, k) == Toks(e, k - 1);
      ParseTree(e, k - 1, m, rest, env);
      m' := LeftStart(k, m, Sem(e, m.noeval == 0, env), rest);
    }
  }

  lemma LeftStart(k: nat, m: Machine, s: Meaning, rest: seq<PTok>) returns (m': Machine)
    requires LeftAssoc(k) && Reads(Parse(k - 1, m), s, m, rest)
    ensures Looping(k, m, m', s, rest)
  {
    hide ReadTok, Encode, Ahead, LeftLoop, On;
    m' := m;
    if s.Gives? {
      m' := Parse(k - 1, m).m;
      ParseNext(k, m, s.v, m');
    }
  }

  lemma OperatorLevel(op: Token, j: nat)
    requires OpLevel(op) != 0 && Continues(j, op)
    ensures j == OpLevel(op)
  {
  }

  lemma FollowOperator(op: Token, rest: seq<PTok>)
    requires OpLevel(op) != 0 && rest != [] && rest[0] == POp(op)
    ensures Follow(rest, OpLevel(op) - 1) && Printable(POp(op))
  {
    forall j | 0 <= j <= OpLevel(op) - 1
      ensures !Continues(j, op)
    {
      if Continues(j, op) {
        OperatorLevel(op, j);
      }
    }
  }

  lemma {:induction false} LeftChain(e: Expr, m: Machine, rest: seq<PTok>, env: Env) returns (m': Machine)
    requires WellFormed(e) && e.Bin? && Clean(rest) && Follow(rest, OpLevel(e.op) - 1)
    requires On(m, Raw(e) + rest, env)
    ensures Looping(OpLevel(e.op), m, m', Sem(e, m.noeval == 0, env), rest)
    decreases e, 1
  {
    hide ReadTok, Encode, Ahead, Follow, Clean, Toks, Parse, LeftLoop, BinaryValue, Reads, Rem, Keeps;
    var op, k, live := e.op, OpLevel(e.op), m.noeval == 0;
    var more := Toks(e.r, k - 1) + rest;
    var mid := [POp(op)] + more;
    Regroup3(Toks(e.l, k), [POp(op)], Toks(e.r, k - 1), rest);
    FollowOperator(op, mid);
    CleanToks(e.r, k - 1);
    CleanBoth(Toks(e.r, k - 1), rest);
    CleanCons(POp(op), more);
    var m1 := LeftOperand(e.l, k, m, mid, env);
    var sl := Sem(e.l, live, env);
    m' := m1;
    if sl.Gives? {
      assert mid[1..] == more && mid[0] == POp(op);
      var p := Raised(k, sl.v, m1);
      var m2 := Operand(e.r, k - 1, p, rest, sl.env);
      LiveOperand(op, sl.v, live);
      m' := LeftStep(op, k, sl.v, m, m1, m2, Sem(e.r, p.noeval == 0, sl.env), rest);
    }
  }

  lemma LiveOperand(op: Token, v: I64, live: bool)
    requires OpLevel(op) != 0
    ensures (live && !Skips(OpLevel(op), v)) <==> (live && !(op == LAnd && v == 0) && !(op == LOr && v != 0))
  {
  }

  // The loop takes one operator and its right operand.
  lemma LeftStep(op: Token, k: nat, v: I64, m: Machine, m1: Machine, m2: Machine, sr: Meaning, rest: seq<PTok>)
    returns (m': Machine)
    requires LeftAssoc(k) && Continues(k, op) && m1.cur == op && m1.noeval == m.noeval
    requires Parse(k, m) == LeftLoop(k, v, m1)
    requires ReadTok(Raised(k, v, m1)) == Go(m2)
    requires Reads(Parse(k - 1, m2), sr, m2, rest)
    ensures sr.Breaks? ==> Parse(k, m) == Fail(sr.error, Encode(sr.env))
    ensures sr.Gives? ==>
              match BinaryValue(op, v, sr.v)
              case Bad(e) => Parse(k, m) == Fail(e, Encode(sr.env))
              case Done(w) => Looping(k, m, m', Gives(w, sr.env), rest)
  {
    hide ReadTok, Encode, Ahead, Parse, LeftLoop, BinaryValue, Rem, Keeps;
    var r := Parse(k - 1, m2);
    LoopStep(k, v, m1, m2, r);
    m' := if r.Ok? then Settled(k, m1, r.m) else m1;
  }

  lemma {:induction false} OwnBin(e: Expr, m: Machine, rest: seq<PTok>, env: Env)
    requires WellFormed(e) && e.Bin? && Clean(rest) && Follow(rest, OpLevel(e.op))
    requires On(m, Raw(e) + rest, env)
    ensures Reads(Parse(OpLevel(e.op), m), Sem(e, m.noeval == 0, env), m, rest)
    decreases e, 2
  {
    hide ReadTok, Encode, Ahead, Clean, Toks, Raw, Parse, LeftLoop, Sem;
    FollowLess(rest, OpLevel(e.op) - 1, OpLevel(e.op));
    var m' := LeftChain(e, m, rest, env);
    var s := Sem(e, m.noeval == 0, env);
    if s.Gives? {
      LoopEnd(OpLevel(e.op), s.v, m');
    }
  }

  // ---------- the other levels ----------

  lemma FollowPlain(t: PTok, rest: seq<PTok>, k: nat)
    requires rest != [] && rest[0] == t
    requires (t == POp(Power) && k == 1) || (t == POp(Ch('?')) && k == 12) || (t == POp(Ch(':')) && k == TOP)
    ensures Follow(rest, k) && Printable(t)
  {
  }

  // What comes after an operand and before rest: an operator and another operand.
  lemma Between(t: PTok, e: Expr, k: nat, rest: seq<PTok>)
    requires WellFormed(e) && Clean(rest) && Printable(t)
    ensures var more := Toks(e, k) + rest;
            Clean(more) && Clean([t] + more) && ([t] + more)[0] == t && ([t] + more)[1..] == more
  {
    CleanToks(e, k);
    CleanBoth(Toks(e, k), rest);
    CleanCons(t, Toks(e, k) + rest);
  }

  lemma {:induction false} OwnPow(e: Expr, m: Machine, rest: seq<PTok>, env: Env)
    requires WellFormed(e) && e.Pow? && Clean(rest) && Follow(rest, Level(e))
    requires On(m, Raw(e) + rest, env)
    ensures Reads(Parse(Level(e), m), Sem(e, m.noeval == 0, env), m, rest)
    decreases e, 2
  {
    hide ReadTok, Encode, Ahead, Follow, Clean, Toks, Parse, PowerValue, Rem;
    var live, mid := m.noeval == 0, [POp(Power)] + (Toks(e.r, 2) + rest);
    Regroup3(Toks(e.l, 1), [POp(Power)], Toks(e.r, 2), rest);
    FollowPlain(POp(Power), mid, 1);
    Between(POp(Power), e.r, 2, rest);
    ParseTree(e.l, 1, m, mid, env);
    var sl := Sem(e.l, live, env);
    if sl.Gives? {
      var m1 := Parse(1, m).m;
      var m2 := Operand(e.r, 2, m1, rest, sl.env);
      PowerStep(m, m1, m2, sl.v, Sem(e.r, live, sl.env), rest);
    } else {
      PowerFails(m);
    }
  }

  lemma PowerFails(m: Machine)
    requires Parse(1, m).Fail?
    ensures Parse(2, m) == Parse(1, m)
  {
    hide ReadTok, PowerLoop, UnaryLevel;
  }

  // What Reads comes to, with a possible error in the last operation.
  ghost predicate Ends(r: Result, a: Arith, env: Env, env': Env, m: Machine, rest: seq<PTok>) {
    match a
    case Bad(e) => r == Fail(e, Encode(env))
    case Done(w) => Reads(r, Gives(w, env'), m, rest)
  }

  lemma PowerStep(m: Machine, m1: Machine, m2: Machine, v: I64, sr: Meaning, rest: seq<PTok>)
    requires Parse(1, m) == Ok(v, m1) && m1.cur == Power && ReadTok(m1) == Go(m2)
    requires Reads(Parse(2, m2), sr, m2, rest) && Follow(rest, 2) && m2.noeval == m.noeval
    ensures sr.Breaks? ==> Parse(2, m) == Fail(sr.error, Encode(sr.env))
    ensures sr.Gives? ==> Ends(Parse(2, m), PowerValue(v, sr.v), sr.env, sr.env, m, rest)
  {
    hide ReadTok, Encode, Ahead, Rem, PowerValue, PowerLoop, Parse, Clean, Follow;
    ParseNext(2, m, v, m1);
    if sr.Gives? {
      NotProlonged(Parse(2, m2).m, rest, sr.env, 2);
      PowerLoopStep(v, m1, m2, Parse(2, m2));
    } else {
      PowerLoopStep(v, m1, m2, Parse(2, m2));
    }
  }

  lemma NotProlonged(m: Machine, rest: seq<PTok>, env: Env, k: nat)
    requires On(m, rest, env) && Follow(rest, k)
    ensures !Continues(k, m.cur)
  {
    hide Encode, Ahead;
  }

  lemma {:induction false} OwnCond(e: Expr, m: Machine, rest: seq<PTok>, env: Env)
    requires WellFormed(e) && e.Cond? && Clean(rest) && Follow(rest, Level(e))
    requires On(m, Raw(e) + rest, env)
    ensures Reads(Parse(Level(e), m), Sem(e, m.noeval == 0, env), m, rest)
    decreases e, 2
  {
    hide ReadTok, Encode, Ahead, Follow, Clean, Toks, Parse, Rem;
    var q, s := POp(Ch('?')), POp(Ch(':'));
    var live := m.noeval == 0;
    var mid2 := [s] + (Toks(e.e, 13) + rest);
    var mid1 := [q] + (Toks(e.t, 15) + mid2);
    Regroup5(Toks(e.c, 12), [q], Toks(e.t, 15), [s], Toks(e.e, 13), rest);
    FollowPlain(q, mid1, 12);
    FollowPlain(s, mid2, TOP);
    Between(s, e.e, 13, rest);
    Between(q, e.t, 15, mid2);
    ParseTree(e.c, 12, m, mid1, env);
    var sc := Sem(e.c, live, env);
    if sc.Gives? {
      var m1 := Parse(12, m).m;
      Arms(e, m, m1, sc.v, mid2, rest, sc.env);
    } else {
      CondNone(m);
    }
  }

  // The two arms of a conditional whose value c has been read.
  lemma {:induction false} Arms(e: Expr, m: Machine, m1: Machine, c: I64, mid2: seq<PTok>, rest: seq<PTok>, env: Env)
    requires WellFormed(e) && e.Cond? && Clean(rest) && Follow(rest, 13)
    requires mid2 == [POp(Ch(':'))] + (Toks(e.e, 13) + rest) && Clean(mid2) && Follow(mid2, 15)
    requires Parse(12, m) == Ok(c, m1) && m1.noeval == m.noeval
    requires On(m1, [POp(Ch('?'))] + (Toks(e.t, 15) + mid2), env)
    ensures var live := m.noeval == 0;
            match Sem(e.t, live && c != 0, env)
            case Breaks(er, en) => Reads(Parse(13, m), Breaks(er, en), m, rest)
            case Gives(v1, en1) =>
              match Sem(e.e, live && c == 0, en1)
              case Breaks(er, en) => Reads(Parse(13, m), Breaks(er, en), m, rest)
              case Gives(v2, en2) => Reads(Parse(13, m), Gives(if c != 0 then v1 else v2, en2), m, rest)
    decreases e, 1
  {
    hide ReadTok, Encode, Ahead, Follow, Clean, Toks, Parse, Rem, Sem;
    var mid1 := [POp(Ch('?'))] + (Toks(e.t, 15) + mid2);
    assert mid1[0] == POp(Ch('?')) && mid1[1..] == Toks(e.t, 15) + mid2;
    var m2 := Fetch(e.t, 15, m1, mid2, env);
    var p2 := Lifted(m2, c == 0);
    ParseTree(e.t, 15, p2, mid2, env);
    var st := Sem(e.t, m.noeval == 0 && c != 0, env);
    if st.Gives? {
      SecondArm(e, m, m1, m2, c, st, mid2, rest);
    } else {
      CondFails(m, m1, m2, c);
    }
  }

  // The second arm, after the first came out as st.
  lemma {:induction false} SecondArm(e: Expr, m: Machine, m1: Machine, m2: Machine, c: I64, st: Meaning,
                                     mid2: seq<PTok>, rest: seq<PTok>)
    requires WellFormed(e) && e.Cond? && Clean(rest) && Follow(rest, 13)
    requires mid2 == [POp(Ch(':'))] + (Toks(e.e, 13) + rest) && Clean(mid2)
    requires Parse(12, m) == Ok(c, m1) && m1.noeval == m.noeval && m1.cur == Ch('?')
    requires ReadTok(m1) == Go(m2) && OperandStart(m2.cur) && m2.noeval == m.noeval && st.Gives?
    requires Reads(Parse(15, Lifted(m2, c == 0)), st, Lifted(m2, c == 0), mid2)
    ensures match Sem(e.e, m.noeval == 0 && c == 0, st.env)
            case Breaks(er, en) => Reads(Parse(13, m), Breaks(er, en), m, rest)
            case Gives(v2, en2) => Reads(Parse(13, m), Gives(if c != 0 then st.v else v2, en2), m, rest)
    decreases e, 0
  {
    hide ReadTok, Encode, Ahead, Follow, Clean, Toks, Parse, Rem, Sem;
    var m3 := Parse(15, Lifted(m2, c == 0)).m.(noeval := m.noeval);
    assert mid2[0] == POp(Ch(':')) && mid2[1..] == Toks(e.e, 13) + rest;
    var m4 := Fetch(e.e, 13, m3, rest, st.env);
    ParseTree(e.e, 13, Lifted(m4, c != 0), rest, st.env);
    CondStep(m, m1, m2, m4, c, st, Sem(e.e, m.noeval == 0 && c == 0, st.env), mid2, rest);
  }

  lemma CondNone(m: Machine)
    requires Parse(12, m).Fail?
    ensures Parse(13, m) == Parse(12, m)
  {
    hide ReadTok, CondTail, LeftLoop;
  }

  lemma CondFails(m: Machine, m1: Machine, m2: Machine, c: I64)
    requires Parse(12, m) == Ok(c, m1) && m1.cur == Ch('?') && ReadTok(m1) == Go(m2)
    requires OperandStart(m2.cur) && Parse(15, Lifted(m2, c == 0)).Fail?
    ensures Parse(13, m) == Parse(15, Lifted(m2, c == 0))
  {
    hide ReadTok, LeftLoop, Parse;
    ParseNext(13, m, c, m1);
  }

  lemma CondStep(m: Machine, m1: Machine, m2: Machine, m4: Machine, c: I64, st: Meaning, se: Meaning,
                 mid2: seq<PTok>, rest: seq<PTok>)
    requires Parse(12, m) == Ok(c, m1) && m1.cur == Ch('?') && m1.noeval == m.noeval
    requires ReadTok(m1) == Go(m2) && OperandStart(m2.cur)
    requires st.Gives? && mid2 != [] && mid2[0] == POp(Ch(':'))
    requires Reads(Parse(15, Lifted(m2, c == 0)), st, Lifted(m2, c == 0), mid2)
    requires ReadTok(Parse(15, Lifted(m2, c == 0)).m.(noeval := m.noeval)) == Go(m4) && OperandStart(m4.cur)
    requires m4.noeval == m.noeval
    requires Reads(Parse(13, Lifted(m4, c != 0)), se, Lifted(m4, c != 0), rest)
    ensures se.Breaks? ==> Parse(13, m) == Fail(se.error, Encode(se.env))
    ensures se.Gives? ==> Reads(Parse(13, m), Gives(if c != 0 then st.v else se.v, se.env), m, rest)
  {
    hide ReadTok, LeftLoop, Encode, Ahead, Rem, Parse;
    ParseNext(13, m, c, m1);
  }

  // The left-hand side of an assignment, seen as the phrase it is parsed as.
  lemma LeftHandSide(x: string, t: PTok, m: Machine, more: seq<PTok>, env: Env) returns (m': Machine)
    requires t == POp(Ch('=')) || t.PAsg?
    requires Clean([t] + more) && On(m, [PName(x)] + ([t] + more), env)
    ensures Parse(13, m) == Ok(m.val, m')
    ensures On(m', [t] + more, env) && m'.last == Str && m'.str == x && m'.noeval == m.noeval
  {
    hide ReadTok, Encode, Ahead, Parse, Rem;
    m' := OwnName(x, m, [t] + more, env);
    AssignmentEnds(t, m', more, env);
    hide On;
    Climb(0, 13, m);
  }

  lemma AssignmentEnds(t: PTok, m: Machine, more: seq<PTok>, env: Env)
    requires t == POp(Ch('=')) || t.PAsg?
    requires On(m, [t] + more, env)
    ensures forall i :: 0 < i <= 13 ==> !Continues(i, m.cur)
  {
    hide Ahead, Encode, Clean;
    assert ([t] + more)[0] == t;
  }

  lemma {:induction false} OwnAssign(e: Expr, m: Machine, rest: seq<PTok>, env: Env)
    requires WellFormed(e) && e.Assign? && Clean(rest) && Follow(rest, Level(e))
    requires On(m, Raw(e) + rest, env)
    ensures Reads(Parse(Level(e), m), Sem(e, m.noeval == 0, env), m, rest)
    decreases e, 2
  {
    hide ReadTok, Encode, Ahead, Follow, Clean, Toks, Parse, Rem;
    var t, more := POp(Ch('=')), Toks(e.e, 14) + rest;
    assert Raw(e) + rest == [PName(e.x)] + ([t] + more);
    assert Printable(t);
    Between(t, e.e, 14, rest);
    var m1 := LeftHandSide(e.x, t, m, more, env);
    var m2 := Operand(e.e, 14, m1, rest, env);
    AssignStep(m, m1, m2, m.val, e.x, Sem(e.e, m.noeval == 0, env), rest);
  }

  // = or OP= after the left-hand side x.
  lemma AssignStep(m: Machine, m1: Machine, m2: Machine, lhs: I64, x: string, sr: Meaning, rest: seq<PTok>)
    requires Parse(13, m) == Ok(lhs, m1) && (m1.cur == Ch('=') || m1.cur == OpAssign)
    requires m1.last == Str && m1.str == x && m1.noeval == m.noeval
    requires ReadTok(m1) == Go(m2) && m2.noeval == m.noeval && Reads(Parse(14, m2), sr, m2, rest)
    requires Follow(rest, 14)
    ensures sr.Breaks? ==> Parse(14, m) == Fail(sr.error, Encode(sr.env))
    ensures sr.Gives? ==>
              var a := NewValue(m1, lhs, sr.v);
              Ends(Parse(14, m), a, sr.env, if a.Done? then Put(sr.env, x, a.v, m.noeval == 0) else sr.env, m, rest)
  {
    hide ReadTok, Ahead, Rem, NewValue, Itos, Parse, Encode, AssignTail, Bind, Put, Clean, Follow;
    FollowLess(rest, 0, 14);
    ParseNext(14, m, lhs, m1);
    AssignTailStep(lhs, m1, m2, Parse(14, m2));
    if sr.Gives? {
      var a := NewValue(m1, lhs, sr.v);
      if a.Done? {
        Stored(Parse(14, m2).m, x, a.v, rest, sr.env);
      }
    }
  }

  // Storing w in x, unless noeval is set, is what the tree's store says.
  lemma Stored(m: Machine, x: string, w: I64, rest: seq<PTok>, env: Env)
    requires On(m, rest, env) && Follow(rest, 0)
    ensures On(Bind(m, x, w).(str := ""), rest, Put(env, x, w, m.noeval == 0))
    ensures Bind(m, x, w).noeval == m.noeval
  {
    hide Ahead, Itos;
    EncodePut(env, x, w);
  }

  lemma {:induction false} OwnUpdate(e: Expr, m: Machine, rest: seq<PTok>, env: Env)
    requires WellFormed(e) && e.Update? && Clean(rest) && Follow(rest, Level(e))
    requires On(m, Raw(e) + rest, env)
    ensures Reads(Parse(Level(e), m), Sem(e, m.noeval == 0, env), m, rest)
    decreases e, 2
  {
    hide ReadTok, Encode, Ahead, Follow, Clean, Toks, Parse, Rem, BinaryValue;
    var t, more := PAsg(e.op), Toks(e.e, 14) + rest;
    assert Raw(e) + rest == [PName(e.x)] + ([t] + more);
    assert Printable(t);
    Between(t, e.e, 14, rest);
    var m1 := LeftHandSide(e.x, t, m, more, env);
    var m2 := Operand(e.e, 14, m1, rest, env);
    AssignStep(m, m1, m2, m.val, e.x, Sem(e.e, m.noeval == 0, env), rest);
  }

  // ---------- the evaluator agrees with the tree ----------

  // For every well-formed tree and every store of integers, evalexp on the printed tree
  // returns the tree's value, or fails with its error, and leaves its store.
  lemma {:induction false} EvaluatesPrintedTree(e: Expr, env: Env, start: Machine)
    requires WellFormed(e) && start.store == Encode(env) && start.depth == 0
    ensures EvalExp(Print(e), start) ==
            match Sem(e, true, env)
            case Gives(v, env') => Valid(v, Encode(env'))
            case Breaks(er, env') => Invalid(er, Encode(env'))
  {
    var m: Machine := start.(noeval := 0);
    hide ReadTok, Encode, Raw, Toks, Rem, Keeps, Parse, Sem;
    var ts := Toks(e, TOP);
    assert ts + [] == ts;
    var expr := Print(e);
    var inner := Inner(expr, m);
    PrintStarts(e);
    var m1 := Fetch(e, TOP, inner, [], env);
    ParseTree(e, TOP, m1, [], env);
  }

  lemma PrintStarts(e: Expr)
    requires WellFormed(e)
    ensures Ahead(Print(e), 0, Toks(e, TOP)) && At(Print(e), SkipWhite(Print(e), 0)) != '\0'
  {
    hide Toks, Raw;
    var ts := Toks(e, TOP);
    CleanToks(e, TOP);
    TextShape(ts[0]);
    JoinCut(ts);
    var s := Print(e);
    assert s[0] == Text(ts[0])[0];
    assert SkipWhite(s, 0) == 0;
    assert s[0..] == s;
  }
}
