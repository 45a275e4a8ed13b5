/** What an operand that is not to be evaluated may still store, for any text: && and || raise
    noeval before the operand's first token is read, ?: only behind it. */
module ExprDead {
  import opened Int64
  import opened Numerals
  import opened ExprState
  import opened ExprEval
  import opened ExprSteps
  import L = ExprLex

  function StoreOf(r: Result): Store { if r.Ok? then r.m.store else r.store }

  function StoreBehind(s: Step): Store { if s.Go? then s.m.store else s.store }

  // Every variable is empty or holds the print of an integer.
  ghost predicate Integers(st: Store) {
    forall x :: x in st ==> Integer(st[x])
  }

  ghost predicate Integer(s: string) { s == "" || exists v: I64 :: s == Itos(v) }

  // ---------- reading tokens stores nothing while the variables hold integers ----------

  lemma VariablePure(name: string, m: Machine)
    requires Integers(m.store) && m.tp < |m.text|
    ensures StoreOf(VariableValue(name, m)) == m.store
  {
    hide ReadTok, Parse;
    if name in m.store && m.store[name] != "" {
      assert Integer(m.store[name]);
      var v: I64 :| m.store[name] == Itos(v);
      if m.depth < MAX_EXPR_RECURSION_LEVEL {
        hide SubExpr;
        L.IntegerText(v, m);
      }
    }
  }

  lemma NameTokenPure(m: Machine, i: nat, cp: nat, peek: Machine)
    requires m.tp <= i < cp <= |m.text| && peek.store == m.store && Integers(m.store)
    ensures StoreBehind(NameToken(m, i, cp, peek)) == m.store
  {
    hide VariableValue, Integers;
    var back := Saved(m, i, cp).(asg := peek.asg, store := peek.store);
    VariablePure(back.str, back);
  }

  // Any token of any text, well-formed or not, and at any depth.
  lemma ReadTokPure(m: Machine)
    requires Integers(m.store)
    ensures StoreBehind(ReadTok(m)) == m.store
  {
    var i := SkipWhite(m.text, m.tp);
    if NameStart(At(m.text, i)) {
      var cp := NameEnd(m.text, i + 1);
      hide ReadTok, NameToken, SkipWhite, NameEnd, Integers;
      if At(m.text, cp) == '[' {
        ReadSubscript(m, i);
      } else {
        ReadName(m, i, cp);
        var r := ReadTok(Saved(m, i, cp).(tp := cp, noeval := 1, cur := Str));
        if r.Go? {
          NameTokenPure(m, i, cp, r.m);
        }
      }
    } else {
      hide SkipWhite, NameEnd, NumEnd, Strlong, LexOp, Integers;
    }
  }

  // ---------- and evaluation keeps them integers ----------

  lemma BindIntegers(m: Machine, name: string, v: I64)
    requires Integers(m.store)
    ensures Integers(Bind(m, name, v).store)
  {
    assert Integer(Itos(v));
    hide Integer;
  }

  // Every store of an evaluation that starts with integers holds integers, whatever the text.
  lemma {:induction false} ParseIntegers(k: nat, m: Machine)
    requires k <= TOP && Integers(m.store)
    ensures Integers(StoreOf(Parse(k, m)))
    decreases Limit(m), Rem(m), 2 * k + 4
  {
    hide ReadTok, Primary, UnaryLevel, Above, Integers;
    if k == 0 {
      PrimaryIntegers(m);
    } else if k == 1 {
      UnaryIntegers(m);
    } else {
      ParseIntegers(k - 1, m);
      var first := Parse(k - 1, m);
      if first.Ok? {
        AboveIntegers(k, first.v, first.m);
      }
    }
  }

  lemma {:induction false} AboveIntegers(k: nat, v: I64, m: Machine)
    requires 2 <= k <= TOP && Integers(m.store)
    ensures Integers(StoreOf(Above(k, v, m)))
    decreases Limit(m), Rem(m), 2 * k + 3
  {
    hide ReadTok, Parse, PowerLoop, CondTail, AssignTail, LeftLoop, Integers;
    if k == 2 {
      PowerIntegers(v, m);
    } else if k == 13 {
      CondIntegers(v, m);
    } else if k == 14 {
      AssignIntegers(v, m);
    } else {
      LoopIntegers(k, v, m);
    }
  }

  lemma {:induction false} LoopIntegers(k: nat, v: I64, m: Machine)
    requires LeftAssoc(k) && Integers(m.store)
    ensures Integers(StoreOf(LeftLoop(k, v, m)))
    decreases Limit(m), Rem(m), 2 * k + 2
  {
    hide ReadTok, Parse, LeftLoop, Integers, BinaryValue;
    if !Continues(k, m.cur) {
      LoopEnd(k, v, m);
    } else {
      var s := ReadTok(Raised(k, v, m));
      ReadTokPure(Raised(k, v, m));
      if s.Stop? {
        LoopStop(k, v, m, s.error, s.store);
      } else {
        var r := Parse(k - 1, s.m);
        ParseIntegers(k - 1, s.m);
        LoopStep(k, v, m, s.m, r);
        if r.Ok? && BinaryValue(m.cur, v, r.v).Done? {
          LoopIntegers(k, BinaryValue(m.cur, v, r.v).v, Settled(k, m, r.m));
        }
      }
    }
  }

  lemma {:induction false} PowerIntegers(v: I64, m: Machine)
    requires Integers(m.store)
    ensures Integers(StoreOf(PowerLoop(v, m)))
    decreases Limit(m), Rem(m), 6
  {
    hide ReadTok, Parse, Integers, PowerValue;
    if m.cur == Power {
      ReadTokPure(m);
      var s := ReadTok(m);
      if s.Go? {
        ParseIntegers(2, s.m);
        var r := Parse(2, s.m);
        if r.Ok? && PowerValue(v, r.v).Done? {
          PowerIntegers(PowerValue(v, r.v).v, r.m);
        }
      }
    }
  }

  lemma {:induction false} CondIntegers(c: I64, m: Machine)
    requires Integers(m.store)
    ensures Integers(StoreOf(CondTail(c, m)))
    decreases Limit(m), Rem(m), 28
  {
    hide ReadTok, Parse, CondTail, Integers;
    CondUnfold(c, m);
    if m.cur == Ch('?') {
      ReadTokPure(m);
      var s := ReadTok(m);
      if s.Go? && s.m.cur != End && s.m.cur != Ch(':') {
        ParseIntegers(TOP, Lifted(s.m, c == 0));
        var r := Parse(TOP, Lifted(s.m, c == 0));
        if r.Ok? && r.m.cur == Ch(':') {
          var m2 := r.m.(noeval := m.noeval);
          ElseUnfold(c, r.v, m, m2);
          ReadTokPure(m2);
          if ReadTok(m2).Go? {
            ParseIntegers(13, Lifted(ReadTok(m2).m, c != 0));
          }
        }
      }
    }
  }

  lemma {:induction false} AssignIntegers(lhs: I64, m: Machine)
    requires Integers(m.store)
    ensures Integers(StoreOf(AssignTail(lhs, m)))
    decreases Limit(m), Rem(m), 30
  {
    hide ReadTok, Parse, Integers, Bind, NewValue;
    if (m.cur == Ch('=') || m.cur == OpAssign) && m.last == Str {
      ReadTokPure(m);
      var s := ReadTok(m);
      if s.Go? {
        ParseIntegers(14, s.m);
        var r := Parse(14, s.m);
        if r.Ok? && NewValue(m, lhs, r.v).Done? {
          BindIntegers(r.m, m.str, NewValue(m, lhs, r.v).v);
        }
      }
    }
  }

  lemma {:induction false} UnaryIntegers(m: Machine)
    requires Integers(m.store)
    ensures Integers(StoreOf(UnaryLevel(m)))
    decreases Limit(m), Rem(m), 2
  {
    hide ReadTok, Parse, Primary, Integers;
    if Unary(m.cur) {
      ReadTokPure(m);
      if ReadTok(m).Go? {
        UnaryIntegers(ReadTok(m).m);
      }
    } else {
      PrimaryIntegers(m);
    }
  }

  lemma {:induction false} PrimaryIntegers(m: Machine)
    requires Integers(m.store)
    ensures Integers(StoreOf(Primary(m)))
    decreases Limit(m), Rem(m), 1
  {
    hide ReadTok, Parse, Primary, PreStep, Integers, Bind;
    assert Primary(m) == Parse(0, m) by { UnaryIs(m); }
    PrimaryIs(m);
    ReadTokPure(m);
    if m.cur == PreInc || m.cur == PreDec {
      PreStepIntegers(m, m.cur == PreInc);
    } else if m.cur == Str {
      NameIntegers(m);
    } else if m.cur == Ch('(') && ReadTok(m).Go? {
      ParseIntegers(TOP, ReadTok(m).m);
      var r := Parse(TOP, ReadTok(m).m);
      if r.Ok? {
        ReadTokPure(r.m);
      }
    }
  }

  lemma NameIntegers(m: Machine)
    requires m.cur == Str && Integers(m.store)
    ensures Integers(StoreOf(NameResult(m)))
  {
    hide ReadTok, Integers, Bind;
    var s := ReadTok(m.(str := "", noeval := 1));
    if s.Go? {
      BindIntegers(s.m.(str := m.str, noeval := m.noeval, last := Str, cur := Num), m.str,
                   Stepped(m.val, s.m.cur == PostInc));
      ReadTokPure(AfterPeek(m, s.m));
    }
  }

  lemma PreStepIntegers(m: Machine, up: bool)
    requires m.cur != End && Integers(m.store)
    ensures Integers(StoreOf(PreStep(m, up)))
  {
    hide ReadTok, Integers, Bind;
    ReadTokPure(m.(last := m.cur));
    var s := ReadTok(m.(last := m.cur));
    if s.Go? {
      BindIntegers(s.m, s.m.str, Stepped(s.m.val, up));
      var next := Bind(s.m, s.m.str, Stepped(s.m.val, up)).(cur := Num);
      ReadTokPure(next);
    }
  }

  // ---------- dead operands ----------

  // The right operand of && and || that the left one makes superfluous, with the token that
  // begins it: on any text and any store it stores nothing.
  lemma DeadRight(k: nat, v: I64, m: Machine)
    requires (k == 11 || k == 12) && Continues(k, m.cur) && Skips(k, v)
    ensures StoreBehind(ReadTok(Raised(k, v, m))) == m.store
    ensures var s := ReadTok(Raised(k, v, m)); s.Go? ==> StoreOf(Parse(k - 1, s.m)) == m.store
  {
    hide ReadTok, Parse;
  }

  // The arms of ?: at the question mark and at the colon: the first token, then the rest with
  // noeval raised in the arm that is not taken.
  function Arm(k: nat, m: Machine, dead: bool): Result
    requires k <= TOP
  {
    match ReadTok(m)
    case Stop(e, st) => Fail(e, st)
    case Go(m1) => Parse(k, Lifted(m1, dead))
  }

  // An arm that is not taken leaves the store alone exactly if reading its first token does.
  lemma DeadArm(k: nat, m: Machine)
    requires k <= TOP
    ensures StoreOf(Arm(k, m, true)) == StoreBehind(ReadTok(m))
    ensures StoreOf(Arm(k, m, true)) == m.store <==> StoreBehind(ReadTok(m)) == m.store
  {
    hide ReadTok, Parse;
  }

  // So on integers the store after ?: is what the condition and the arm taken leave, for any
  // text that it accepts.
  lemma DeadArmIsPure(c: I64, m: Machine)
    requires m.cur == Ch('?') && Integers(m.store) && CondTail(c, m).Ok?
    ensures var first := Arm(TOP, m, c == 0);
            && first.Ok?
            && var second := Arm(13, first.m.(noeval := m.noeval), c != 0);
               && second.Ok?
               && (if c != 0 then StoreOf(CondTail(c, m)) == first.m.store
                   else first.m.store == m.store && StoreOf(CondTail(c, m)) == second.m.store)
  {
    hide ReadTok, Parse, CondTail, Integers;
    CondUnfold(c, m);
    ReadTokPure(m);
    var s := ReadTok(m);
    ParseIntegers(TOP, Lifted(s.m, c == 0));
    var r := Parse(TOP, Lifted(s.m, c == 0));
    var m2 := r.m.(noeval := m.noeval);
    ElseUnfold(c, r.v, m, m2);
    ReadTokPure(m2);
    DeadArm(TOP, m);
    DeadArm(13, m2);
  }

  // ---------- a dead arm that stores ----------

  lemma LexOne(s: string, i: nat, c: char, afterName: bool, asg: Token)
    requires i < |s| && s[i] == c && (c == '?' || c == ':' || (c == '=' && At(s, i + 1) != '='))
    ensures LexOp(s, i, afterName, asg) == OpToken(Ch(c), asg, i + 1)
  {
  }

  predicate Mark(s: string, i: nat) {
    i < |s| && (s[i] == '?' || s[i] == ':' || (s[i] == '=' && At(s, i + 1) != '='))
  }

  // One of these characters next.
  lemma ReadMark(m: Machine)
    requires Mark(m.text, m.tp)
    ensures ReadTok(m) == Go(m.(last := m.cur, cur := Ch(m.text[m.tp]), tp := m.tp + 1))
  {
    hide ReadTok, LexOp;
    LexOne(m.text, m.tp, m.text[m.tp], m.cur == Str, m.asg);
    assert SkipWhite(m.text, m.tp) == m.tp;
    ReadOperator(m, m.tp, Ch(m.text[m.tp]), m.asg, m.tp + 1);
  }

  // A name as an operand, with one of them behind it.
  lemma NameThenMark(m: Machine)
    requires m.cur == Str && Mark(m.text, m.tp)
    ensures Parse(0, m) == Ok(m.val, m.(last := Str, cur := Ch(m.text[m.tp]), tp := m.tp + 1))
  {
    hide ReadTok, Mark;
    PrimaryIs(m);
    ReadMark(m.(str := "", noeval := 1));
    ReadMark(m);
    assert AfterPeek(m, ReadTok(m.(str := "", noeval := 1)).m) == m;
  }

  // A name of one letter, with one of them behind it.
  lemma OneLetter(m: Machine)
    requires m.tp < |m.text| && IsLower(m.text[m.tp]) && Mark(m.text, m.tp + 1)
    ensures var back := Saved(m, m.tp, m.tp + 1);
            var peek := back.(tp := m.tp + 2, noeval := 1, cur := Ch(m.text[m.tp + 1]), last := Str);
            ReadTok(m) == NameToken(m, m.tp, m.tp + 1, peek)
  {
    hide ReadTok, NameToken;
    var i := m.tp;
    assert SkipWhite(m.text, i) == i && NameEnd(m.text, i + 1) == i + 1;
    ReadName(m, i, i + 1);
    ReadMark(Saved(m, i, i + 1).(tp := i + 1, noeval := 1, cur := Str));
  }

  // The last digit of a text.
  lemma LastDigit(m: Machine, n: nat)
    requires n < 10 && m.tp + 1 == |m.text| && m.text[m.tp] == '0' + n as char
    ensures ReadTok(m) == Go(L.AtNumber(m, n)) && Parse(0, L.AtNumber(m, n)) == Ok(n, L.AtEnd(L.AtNumber(m, n)))
  {
    hide ReadTok, Primary;
    assert m.text[m.tp..] == Dec(n);
    L.LastNumber(m, n);
    PrimaryIs(L.AtNumber(m, n));
    UnaryIs(L.AtNumber(m, n));
  }

  // The value z=5 of a variable assigns z.
  lemma StoredAssignment(m: Machine)
    requires m.depth < MAX_EXPR_RECURSION_LEVEL && m.noeval == 0
    ensures SubExpr("z=5", m) == Ok(5, m.(store := m.store["z" := "5"]))
  {
    hide ReadTok, Parse, SubExpr, AssignTail, LexOp, Primary, UnaryLevel, VariableValue, L.AtNumber;
    var m1 := FirstName(m);
    var m2 := m1.(last := Str, cur := Ch('='), tp := 2);
    NameThenMark(m1);
    L.Climb(0, 13, m1);
    ParseNext(14, m1, 0, m2);
    AssignsFive(m2);
    L.SubExprIs("z=5", m, 14);
  }

  lemma AssignsFive(m: Machine)
    requires m.cur == Ch('=') && m.last == Str && m.noeval == 0 && m.tp + 1 == |m.text| && m.text[m.tp] == '5'
    ensures var r := AssignTail(0, m);
            r.Ok? && r.v == 5 && r.m.cur == End && r.m.store == m.store[m.str := "5"] && r.m.asg == m.asg
  {
    hide ReadTok, Parse, AssignTail;
    LastDigit(m, 5);
    var m1 := L.AtNumber(m, 5);
    L.EndsAt(m, 5);
    L.Climb(0, 14, m1);
    AssignTailIs(m, m1, L.AtEnd(m1));
  }

  lemma FirstName(m: Machine) returns (m1: Machine)
    requires m.depth < MAX_EXPR_RECURSION_LEVEL && m.noeval == 0
    ensures m1 == Inner("z=5", m).(str := "z", val := 0, last := End, cur := Str, tp := 1)
    ensures ReadTok(Inner("z=5", m)) == Go(m1)
  {
    hide ReadTok, Parse, SubExpr, VariableValue, LexOp;
    var inner := Inner("z=5", m);
    OneLetter(inner);
    assert inner.text[0..1] == "z";
    m1 := inner.(str := "z", val := 0, last := End, cur := Str, tp := 1);
  }

  lemma AssignTailIs(m: Machine, m1: Machine, m2: Machine)
    requires m.cur == Ch('=') && m.last == Str && ReadTok(m) == Go(m1) && Parse(14, m1) == Ok(5, m2) && m2.noeval == 0
    ensures AssignTail(0, m) == Ok(5, m2.(store := m2.store[m.str := "5"], str := ""))
  {
    hide ReadTok, Parse;
    assert Itos(5) == "5";
  }

  // 0?y:1 with z=5 in y sets z, although y is the arm not taken: the exact condition of
  // DeadArm fails at the token y.
  lemma DeadArmStores(m: Machine)
    requires m.depth < MAX_EXPR_RECURSION_LEVEL - 1 && m.store == map["y" := "z=5"]
    ensures EvalExp("0?y:1", m) == Valid(1, map["y" := "z=5", "z" := "5"])
  {
    hide ReadTok, Parse, SubExpr, CondTail, VariableValue, LexOp, Primary, UnaryLevel;
    var m0 := m.(noeval := 0);
    var m1 := FirstZero(m0);
    var m2 := m1.(last := Num, cur := Ch('?'), tp := 2);
    PrimaryIs(m1);
    ReadMark(m1);
    L.Climb(0, 12, m1);
    ParseNext(13, m1, 0, m2);
    var r := DeadArmTaken(m2);
    L.SubExprIs("0?y:1", m0, 13);
  }

  lemma FirstZero(m: Machine) returns (m1: Machine)
    requires m.depth < MAX_EXPR_RECURSION_LEVEL
    ensures m1 == Inner("0?y:1", m).(val := 0, last := End, cur := Num, tp := 1)
    ensures ReadTok(Inner("0?y:1", m)) == Go(m1)
  {
    hide ReadTok, Parse, SubExpr;
    var inner := Inner("0?y:1", m);
    m1 := inner.(val := 0, last := End, cur := Num, tp := 1);
    assert inner.text[0..1] == Dec(0) && Dec(0)[0..] == Dec(0);
    StrlongDecimal(0);
    ReadDigits(inner, 0, 1, 0);
  }

  lemma DeadArmTaken(m: Machine) returns (m': Machine)
    requires m.text == "0?y:1" && m.tp == 2 && m.cur == Ch('?') && m.last == Num && m.noeval == 0
    requires m.depth < MAX_EXPR_RECURSION_LEVEL && m.store == map["y" := "z=5"]
    ensures CondTail(0, m) == Ok(1, m') && m'.cur == End && m'.store == map["y" := "z=5", "z" := "5"]
    ensures StoreOf(Arm(TOP, m, true)) != m.store
  {
    hide ReadTok, Parse, SubExpr, CondTail, LexOp;
    var st := map["y" := "z=5", "z" := "5"];
    OneLetter(m);
    var back := Saved(m, 2, 3);
    assert back.str == "y";
    StoredAssignment(back);
    assert m.store["z" := "5"] == st;
    var m1 := back.(store := st, val := 5, last := Ch('?'), cur := Str, tp := 3);
    assert ReadTok(m) == Go(m1);
    var dead := Lifted(m1, true);
    NameThenMark(dead);
    L.Climb(0, TOP, dead);
    CondUnfold(0, m);
    var m2 := dead.(last := Str, cur := Ch(':'), tp := 4, noeval := 0);
    ElseUnfold(0, 5, m, m2);
    LastDigit(m2, 1);
    var m3 := L.AtNumber(m2, 1);
    L.Climb(0, 13, m3);
    m' := L.AtEnd(m3).(noeval := 0, last := CondTok);
    DeadArm(TOP, m);
    assert "z" in st && "z" !in m.store;
  }
}
