/** The evaluator of expr.c with its state in fields: one method for each of its functions,
    each proved to do what ExprEval says. */
module ExprMachine {
  import opened Int64
  import opened Numerals
  import opened ExprState
  import S = ExprEval
  import L = ExprSteps

  datatype Status = Fine | Failed(error: Error)

  // What pushexp saves and popexp restores.
  datatype Context = Context(text: string, cur: Token, last: Token, tp: nat, val: I64, str: string, noeval: nat)

  class Evaluator {
    var store: Store
    var text: string
    var tp: nat
    var cur: Token
    var last: Token
    var asg: Token
    var str: string
    var val: I64
    var noeval: nat
    var stack: seq<Context>

    // Context c holds the token state of m.
    static ghost predicate Keeps(c: Context, m: Machine) {
      c == Context(m.text, m.cur, m.last, m.tp, m.val, m.str, m.noeval)
    }

    ghost predicate Valid()
      reads this
    {
      tp <= |text| && |stack| <= MAX_EXPR_RECURSION_LEVEL
    }

    ghost function Snapshot(): Machine
      requires Valid()
      reads this
    {
      State(store, |stack|, text, tp, cur, last, asg, str, val, noeval)
    }

    // A lexer step that started with the context stack at stack0 did what r says.  When it
    // fails, contexts that it pushed may still be there, but none is missing.
    ghost predicate Advanced(r: Step, s: Status, stack0: seq<Context>)
      reads this
    {
      match r
      case Go(m) => s == Fine && Valid() && Snapshot() == m && stack == stack0
      case Stop(e, st) => s == Failed(e) && store == st && |stack| >= |stack0|
    }

    // A grammar function that started with the context stack at stack0 did what r says.
    ghost predicate Ended(r: Result, v: I64, s: Status, stack0: seq<Context>)
      reads this
    {
      match r
      case Ok(w, m) => s == Fine && v == w && Valid() && Snapshot() == m && stack == stack0
      case Fail(e, st) => s == Failed(e) && store == st && |stack| >= |stack0|
    }

    constructor (store: Store)
      ensures Valid() && stack == [] && this.store == store && noeval == 0
    {
      this.store := store;
      text, tp, cur, last, asg, str, val, noeval := "", 0, End, End, End, "", 0, 0;
      stack := [];
    }

    static method SkipBlanks(s: string, i: nat) returns (j: nat)
      requires i <= |s|
      ensures j == SkipWhite(s, i)
    {
      j := i;
      while White(At(s, j))
        invariant i <= j <= |s| && SkipWhite(s, j) == SkipWhite(s, i)
        decreases |s| - j
      {
        j := j + 1;
      }
    }

    method ReadTok() returns (s: Status)
      requires Valid()
      modifies this
      ensures Advanced(S.ReadTok(old(Snapshot())), s, old(stack))
      decreases MAX_EXPR_RECURSION_LEVEL - |stack|, |text| - tp, 2
    {
      hide S.ReadTok, S.Keeps, Rem, LexOp, Strlong;
      ghost var m0 := Snapshot();
      var i := SkipBlanks(text, tp);
      var c := At(text, i);
      if c == '\0' {
        L.ReadEnd(m0, i);
        last, cur, tp := cur, End, i;
        return Fine;
      }
      if NameStart(c) {
        s := ReadName(i);
      } else if IsDigit(c) {
        var cp := i + 1;
        while NumChar(At(text, cp))
          invariant i < cp <= |text| && NumEnd(text, cp) == NumEnd(text, i + 1)
          decreases |text| - cp
        {
          cp := cp + 1;
        }
        var n := ReadNumber(text[i..cp]);
        if n == BadNumber {
          L.ReadBadDigits(m0, i, cp);
          return Failed(BadNum);
        }
        L.ReadDigits(m0, i, cp, n.value);
        val, last, cur, tp := n.value, cur, Num, cp;
        s := Fine;
      } else {
        var t := LexOp(text, i, cur == Str, asg);
        if t == NoOp {
          L.ReadNoOperator(m0, i);
          return Failed(Syntax);
        }
        L.ReadOperator(m0, i, t.tok, t.asg, t.next);
        asg, last, cur, tp := t.asg, cur, t.tok, t.next;
        s := Fine;
      }
    }

    // The branch of readtok for a name that starts at i: look at the token behind it, go
    // back, and read the variable unless it is about to be assigned.
    method ReadName(i: nat) returns (s: Status)
      requires Valid() && i == SkipWhite(text, tp) && NameStart(At(text, i))
      modifies this
      ensures Advanced(S.ReadTok(old(Snapshot())), s, old(stack))
      decreases MAX_EXPR_RECURSION_LEVEL - |stack|, |text| - i, 1
    {
      hide S.ReadTok, S.NameToken, S.VariableValue, S.Keeps, Rem;
      ghost var m0 := Snapshot();
      var cp := SkipName(i);
      if At(text, cp) == '[' {
        L.ReadSubscript(m0, i);
        return Failed(Subscript);
      }
      L.ReadName(m0, i, cp);
      var peek;
      ghost var peeked;
      s, peek, peeked := PeekBehind(i, cp);
      if s == Fine {
        s := NameToken(cp, peek, m0, peeked);
      }
    }

    // The look at the token behind the name from i to cp, and back to the name.
    method PeekBehind(i: nat, cp: nat) returns (s: Status, peek: Token, ghost peeked: Machine)
      requires Valid() && tp <= i < cp <= |text|
      modifies this
      ensures var m := S.Saved(old(Snapshot()), i, cp);
              match S.ReadTok(m.(tp := cp, noeval := 1, cur := Str))
              case Stop(_, _) => Advanced(S.ReadTok(m.(tp := cp, noeval := 1, cur := Str)), s, old(stack))
              case Go(m') =>
                && s == Fine && Valid() && stack == old(stack) && peeked == m' && peek == m'.cur && tp == i
                && Snapshot() == m.(asg := m'.asg, store := m'.store) && m'.store == m.store
      decreases MAX_EXPR_RECURSION_LEVEL - |stack|, |text| - i, 0
    {
      hide S.ReadTok, Rem;
      ghost var m := S.Saved(Snapshot(), i, cp).(tp := cp, noeval := 1, cur := Str);
      str := text[i..cp];
      var name, cur0, last0, val0, noeval0 := str, cur, last, val, noeval;
      tp, noeval, cur := cp, 1, Str;
      assert Snapshot() == m;
      s := ReadTok();
      peek := cur;
      if s == Fine {
        peeked := Snapshot();
        assert S.ReadTok(m) == Go(peeked);
        cur, last, tp, val, str, noeval := cur0, last0, i, val0, name, noeval0;
      } else {
        peeked := m;
      }
    }

    // Where the name that starts at i ends.
    method SkipName(i: nat) returns (cp: nat)
      requires i < |text|
      ensures i < cp <= |text| && cp == NameEnd(text, i + 1)
    {
      cp := i + 1;
      while NameChar(At(text, cp))
        invariant i < cp <= |text| && NameEnd(text, cp) == NameEnd(text, i + 1)
        decreases |text| - cp
      {
        cp := cp + 1;
      }
    }

    // The rest of that branch, back at the name: read the variable unless it is assigned.
    method NameToken(cp: nat, peek: Token, ghost m0: Machine, ghost peeked: Machine) returns (s: Status)
      requires Valid() && tp < cp <= |text| && m0.tp <= tp && text == m0.text
      requires Snapshot() == S.Saved(m0, tp, cp).(asg := peeked.asg, store := peeked.store)
      requires peek == peeked.cur && (m0.noeval > 0 ==> peeked.store == m0.store)
      modifies this
      ensures Advanced(S.NameToken(m0, old(tp), cp, peeked), s, old(stack))
      decreases MAX_EXPR_RECURSION_LEVEL - |stack|, 0, 4
    {
      hide S.ReadTok, S.VariableValue, S.Keeps, Rem;
      if last == PreInc || last == PreDec || peek != Ch('=') {
        var v;
        v, s := ExprStreval(str);
        if s != Fine {
          return;
        }
        val := v;
      } else {
        val := 0;
        s := Fine;
      }
      last, cur, tp := cur, Str, cp;
    }

    // expr_bind_variable, unless noeval is set.
    method BindVariable(name: string, v: I64)
      requires Valid()
      modifies this`store
      ensures Valid() && Snapshot() == S.Bind(old(Snapshot()), name, v)
    {
      if noeval == 0 {
        store := store[name := Itos(v)];
      }
    }

    method ExprStreval(name: string) returns (v: I64, s: Status)
      requires Valid() && tp < |text|
      modifies this
      ensures Ended(S.VariableValue(name, old(Snapshot())), v, s, old(stack))
      decreases MAX_EXPR_RECURSION_LEVEL - |stack|, 0, 3
    {
      if name in store && store[name] != "" {
        v, s := SubExpr(store[name]);
      } else {
        v, s := 0, Fine;
      }
    }

    method SubExpr(expr: string) returns (v: I64, s: Status)
      requires Valid()
      modifies this
      ensures Ended(S.SubExpr(expr, old(Snapshot())), v, s, old(stack))
      ensures s != Fine ==> stack != []
      decreases MAX_EXPR_RECURSION_LEVEL - |stack|, 0, 2
    {
      v := 0;
      var p := SkipBlanks(expr, 0);
      if At(expr, p) == '\0' {
        return 0, Fine;
      }
      if |stack| >= MAX_EXPR_RECURSION_LEVEL {
        return 0, Failed(RecursionLimit);
      }
      ghost var m0 := Snapshot();
      L.SubExprUnfold(expr, m0);
      hide S.SubExpr, S.ReadTok, S.Parse, S.Inner, L.Popped, SkipWhite;
      PushExp(expr);
      v, s := Evaluate(m0);
      assert stack == old(stack) || s != Fine;
    }

    // The rest of subexpr, in the fresh token state: evaluate and go back to the state of m0.
    method Evaluate(ghost m0: Machine) returns (v: I64, s: Status)
      requires Valid() && |stack| == m0.depth + 1 && Keeps(stack[m0.depth], m0)
      modifies this
      ensures Ended(L.Popped(m0, S.ReadTok(old(Snapshot()))), v, s, old(stack)[..m0.depth])
      ensures s != Fine ==> |stack| >= |old(stack)|
      decreases MAX_EXPR_RECURSION_LEVEL - |stack|, Rem(Snapshot()), 34
    {
      hide S.ReadTok, S.Parse;
      v := 0;
      s := ReadTok();
      if s != Fine {
        return;
      }
      v, s := ExpComma();
      if s != Fine {
        return;
      }
      if cur != End {
        return 0, Failed(Syntax);
      }
      PopExp(m0);
    }

    // pushexp, and the fresh token state in which expr is read.
    method PushExp(expr: string)
      requires Valid() && |stack| < MAX_EXPR_RECURSION_LEVEL
      modifies this
      ensures Valid() && Snapshot() == S.Inner(expr, old(Snapshot()))
      ensures |stack| == |old(stack)| + 1 && stack[..|old(stack)|] == old(stack)
      ensures Keeps(stack[|old(stack)|], old(Snapshot()))
    {
      stack := stack + [Context(text, cur, last, tp, val, str, noeval)];
      text, tp, cur, last, str, val := expr, 0, End, End, "", 0;
    }

    // popexp: everything but the store and the operator of the last OP= comes back.
    method PopExp(ghost m0: Machine)
      requires Valid() && |stack| == m0.depth + 1 && Keeps(stack[|stack| - 1], m0)
      modifies this
      ensures Valid() && stack == old(stack)[..|old(stack)| - 1]
      ensures Snapshot() == m0.(store := old(store), asg := old(asg))
    {
      var saved := stack[|stack| - 1];
      stack := stack[..|stack| - 1];
      text, cur, last, tp, val, str, noeval :=
        saved.text, saved.cur, saved.last, saved.tp, saved.val, saved.str, saved.noeval;
    }

    // The context stack, the text and noeval come back, so the grammar functions can rely
    // on them without saying so again.

    method ExpComma() returns (v: I64, s: Status)
      requires Valid()
      modifies this
      ensures Ended(S.Parse(15, old(Snapshot())), v, s, old(stack))
      decreases MAX_EXPR_RECURSION_LEVEL - |stack|, Rem(Snapshot()), 33
    {
      hide S.ReadTok, S.Parse, S.LeftLoop, BinaryValue;
      ghost var m0 := Snapshot();
      v, s := ExpAssign();
      if s != Fine {
        L.ParseFails(15, m0);
        return;
      }
      L.ParseNext(15, m0, v, Snapshot());
      while cur == Ch(',')
        invariant Valid() && stack == old(stack) && s == Fine && Rem(Snapshot()) <= Rem(m0)
        invariant S.Parse(15, m0) == S.LeftLoop(15, v, Snapshot())
        decreases Rem(Snapshot())
      {
        ghost var m, v0 := Snapshot(), v;
        s := ReadTok();
        if s != Fine {
          L.LoopStop(15, v0, m, s.error, store);
          return;
        }
        ghost var m1 := Snapshot();
        v, s := ExpAssign();
        L.LoopStep(15, v0, m, m1, S.Parse(14, m1));
        if s != Fine {
          return;
        }
        assert BinaryValue(Ch(','), v0, v) == Done(v) by { L.CommaValue(v0, v); }
        assert L.Settled(15, m, Snapshot()) == Snapshot();
      }
      L.LoopEnd(15, v, Snapshot());
    }

    method ExpAssign() returns (v: I64, s: Status)
      requires Valid()
      modifies this
      ensures Ended(S.Parse(14, old(Snapshot())), v, s, old(stack))
      decreases MAX_EXPR_RECURSION_LEVEL - |stack|, Rem(Snapshot()), 31
    {
      hide S.ReadTok, S.Parse, S.AssignTail, S.Bind, S.NewValue, BinaryValue;
      ghost var m0 := Snapshot();
      v, s := ExpCond();
      if s != Fine {
        L.ParseFails(14, m0);
        return;
      }
      ghost var m, lhs := Snapshot(), v;
      L.ParseNext(14, m0, v, m);
      if cur == Ch('=') || cur == OpAssign {
        if last != Str {
          L.AssignNoName(lhs, m);
          return 0, Failed(NotAVariable);
        }
        var special, op, oldValue, name := cur == OpAssign, asg, v, str;
        s := ReadTok();
        if s != Fine {
          L.AssignTailStop(lhs, m, s.error, store);
          return;
        }
        ghost var m1 := Snapshot();
        v, s := ExpAssign();
        L.AssignTailStep(lhs, m, m1, S.Parse(14, m1));
        if s != Fine {
          return;
        }
        v, s := Assign(special, op, oldValue, name, v, m);
      } else {
        L.AssignNone(lhs, m);
      }
    }

    // The rest of expassign, with the right-hand side read: name gets its value.
    method Assign(special: bool, op: Token, oldValue: I64, name: string, rhs: I64, ghost m: Machine)
      returns (v: I64, s: Status)
      requires Valid() && special == (m.cur == OpAssign) && op == m.asg && name == m.str
      modifies this
      ensures Ended(S.Assigned(Ok(rhs, old(Snapshot())), m, oldValue), v, s, old(stack))
    {
      hide S.Bind, BinaryValue;
      v, s := rhs, Fine;
      if special {
        var a := BinaryValue(op, oldValue, v);
        if a.Bad? {
          return 0, Failed(a.error);
        }
        v := a.v;
      }
      BindVariable(name, v);
      str := "";
    }

    method ExpCond() returns (v: I64, s: Status)
      requires Valid()
      modifies this
      ensures Ended(S.Parse(13, old(Snapshot())), v, s, old(stack))
      decreases MAX_EXPR_RECURSION_LEVEL - |stack|, Rem(Snapshot()), 29
    {
      hide S.ReadTok, S.Parse, S.CondTail;
      ghost var m0 := Snapshot();
      v, s := ExpLor();
      if s != Fine {
        L.ParseFails(13, m0);
        return;
      }
      ghost var m, c0 := Snapshot(), v;
      L.ParseNext(13, m0, v, m);
      L.CondUnfold(c0, m);
      if cur == Ch('?') {
        var cval := v;
        s := ReadTok();
        if s != Fine {
          return;
        }
        if cur == End || cur == Ch(':') {
          return 0, Failed(Syntax);
        }
        if cval == 0 {
          noeval := noeval + 1;
        }
        var val1;
        val1, s := ExpComma();
        if s != Fine {
          return;
        }
        if cval == 0 {
          noeval := noeval - 1;
        }
        if cur != Ch(':') {
          return 0, Failed(Syntax);
        }
        v, s := ExpElse(cval, val1, m);
      }
    }

    // ?: from its colon on.
    method ExpElse(cval: I64, val1: I64, ghost m: Machine) returns (v: I64, s: Status)
      requires Valid() && cur == Ch(':') && noeval == m.noeval
      modifies this
      ensures Ended(L.Elsed(cval, val1, m, old(Snapshot())), v, s, old(stack))
      decreases MAX_EXPR_RECURSION_LEVEL - |stack|, Rem(Snapshot()), 2
    {
      hide S.ReadTok, S.Parse;
      L.ElseUnfold(cval, val1, m, Snapshot());
      v := 0;
      s := ReadTok();
      if s != Fine {
        return;
      }
      if cur == End {
        return 0, Failed(Syntax);
      }
      if cval != 0 {
        noeval := noeval + 1;
      }
      var val2;
      val2, s := ExpCond();
      if s != Fine {
        return;
      }
      if cval != 0 {
        noeval := noeval - 1;
      }
      v := if cval != 0 then val1 else val2;
      last := CondTok;
    }

    method ExpLor() returns (v: I64, s: Status)
      requires Valid()
      modifies this
      ensures Ended(S.Parse(12, old(Snapshot())), v, s, old(stack))
      decreases MAX_EXPR_RECURSION_LEVEL - |stack|, Rem(Snapshot()), 27
    {
      hide S.ReadTok, S.Parse, S.LeftLoop, BinaryValue;
      ghost var m0 := Snapshot();
      v, s := ExpLand();
      if s != Fine {
        L.ParseFails(12, m0);
        return;
      }
      L.ParseNext(12, m0, v, Snapshot());
      while cur == LOr
        invariant Valid() && stack == old(stack) && s == Fine && Rem(Snapshot()) <= Rem(m0)
        invariant S.Parse(12, m0) == S.LeftLoop(12, v, Snapshot())
        decreases Rem(Snapshot())
      {
        v, s := LogicStep(12, v);
        if s != Fine {
          return;
        }
      }
      L.LoopEnd(12, v, Snapshot());
    }

    method ExpLand() returns (v: I64, s: Status)
      requires Valid()
      modifies this
      ensures Ended(S.Parse(11, old(Snapshot())), v, s, old(stack))
      decreases MAX_EXPR_RECURSION_LEVEL - |stack|, Rem(Snapshot()), 25
    {
      hide S.ReadTok, S.Parse, S.LeftLoop, BinaryValue;
      ghost var m0 := Snapshot();
      v, s := Binary(10);
      if s != Fine {
        L.ParseFails(11, m0);
        return;
      }
      L.ParseNext(11, m0, v, Snapshot());
      while cur == LAnd
        invariant Valid() && stack == old(stack) && s == Fine && Rem(Snapshot()) <= Rem(m0)
        invariant S.Parse(11, m0) == S.LeftLoop(11, v, Snapshot())
        decreases Rem(Snapshot())
      {
        v, s := LogicStep(11, v);
        if s != Fine {
          return;
        }
      }
      L.LoopEnd(11, v, Snapshot());
    }

    // The body of the loops of explor (level 12) and expland (level 11): read the operator's
    // right operand, with noeval raised if the left one decides the value.
    method LogicStep(k: nat, val1: I64) returns (v: I64, s: Status)
      requires Valid() && ((k == 12 && cur == LOr) || (k == 11 && cur == LAnd))
      modifies this
      ensures s != Fine ==> S.LeftLoop(k, val1, old(Snapshot())) == Fail(s.error, store) && |stack| >= |old(stack)|
      ensures s == Fine ==> Valid() && stack == old(stack) && Rem(Snapshot()) < old(Rem(Snapshot()))
      ensures s == Fine ==> S.LeftLoop(k, val1, old(Snapshot())) == S.LeftLoop(k, v, Snapshot())
      decreases MAX_EXPR_RECURSION_LEVEL - |stack|, Rem(Snapshot()), 2
    {
      hide S.ReadTok, S.Parse, S.LeftLoop, BinaryValue, L.Settled, L.Raised, Continues, LeftAssoc;
      ghost var m := Snapshot();
      L.LogicLevel(k, val1, m);
      var op := cur;
      var setNoeval := if k == 12 then val1 != 0 else val1 == 0;
      if setNoeval {
        noeval := noeval + 1;
      }
      assert Snapshot() == L.Raised(k, val1, m);
      v := 0;
      s := ReadTok();
      if s != Fine {
        L.LoopStop(k, val1, m, s.error, store);
        return;
      }
      ghost var m1 := Snapshot();
      var val2;
      if k == 12 {
        val2, s := ExpLand();
      } else {
        val2, s := Binary(10);
      }
      L.LoopStep(k, val1, m, m1, S.Parse(k - 1, m1));
      if s != Fine {
        return;
      }
      v := Truncate(k, val1, val2, op, m);
    }

    // The end of the loop body: noeval comes back down, and the value is 0 or 1.
    method Truncate(k: nat, val1: I64, val2: I64, op: Token, ghost m: Machine) returns (v: I64)
      requires Valid() && ((k == 12 && op == LOr) || (k == 11 && op == LAnd)) && op == m.cur
      requires noeval == L.Raised(k, val1, m).noeval
      modifies this`noeval, this`last
      ensures Valid() && Snapshot() == L.Settled(k, m, old(Snapshot()))
      ensures BinaryValue(op, val1, val2) == Done(v)
    {
      if if k == 12 then val1 != 0 else val1 == 0 {
        noeval := noeval - 1;
      }
      last := op;
      L.LogicValue(op, val1, val2);
      v := if k == 12 then Truth(val1 != 0 || val2 != 0) else Truth(val1 != 0 && val2 != 0);
    }

    // expbor, expbxor, expband, exp5, exp4, expshift, exp3 and exp2, from level 10 down to
    // level 3: they differ only in the operators of the loop (Continues) and in what these
    // compute (BinaryValue).
    method Binary(k: nat) returns (v: I64, s: Status)
      requires Valid() && 3 <= k <= 10
      modifies this
      ensures Ended(S.Parse(k, old(Snapshot())), v, s, old(stack))
      decreases MAX_EXPR_RECURSION_LEVEL - |stack|, Rem(Snapshot()), 2 * k + 3
    {
      hide S.ReadTok, S.Parse, S.LeftLoop, BinaryValue;
      ghost var m0 := Snapshot();
      if k == 3 {
        v, s := ExpPower();
      } else {
        v, s := Binary(k - 1);
      }
      if s != Fine {
        L.ParseFails(k, m0);
        return;
      }
      L.ParseNext(k, m0, v, Snapshot());
      while Continues(k, cur)
        invariant Valid() && stack == old(stack) && s == Fine && Rem(Snapshot()) <= Rem(m0)
        invariant S.Parse(k, m0) == S.LeftLoop(k, v, Snapshot())
        decreases Rem(Snapshot())
      {
        ghost var m, v0 := Snapshot(), v;
        var op := cur;
        s := ReadTok();
        if s != Fine {
          L.LoopStop(k, v0, m, s.error, store);
          return;
        }
        ghost var m1 := Snapshot();
        var val2;
        if k == 3 {
          val2, s := ExpPower();
        } else {
          val2, s := Binary(k - 1);
        }
        L.LoopStep(k, v0, m, m1, S.Parse(k - 1, m1));
        if s != Fine {
          return;
        }
        var a := BinaryValue(op, v, val2);
        if a.Bad? {
          return 0, Failed(a.error);
        }
        v := a.v;
        assert L.Settled(k, m, Snapshot()) == Snapshot();
      }
      L.LoopEnd(k, v, Snapshot());
    }

    method ExpPower() returns (v: I64, s: Status)
      requires Valid()
      modifies this
      ensures Ended(S.Parse(2, old(Snapshot())), v, s, old(stack))
      decreases MAX_EXPR_RECURSION_LEVEL - |stack|, Rem(Snapshot()), 8
    {
      hide S.ReadTok, S.Parse, S.PowerLoop, PowLoop;
      ghost var m0 := Snapshot();
      v, s := Exp1();
      if s != Fine {
        L.ParseFails(2, m0);
        return;
      }
      L.ParseNext(2, m0, v, Snapshot());
      while cur == Power
        invariant Valid() && stack == old(stack) && s == Fine && Rem(Snapshot()) <= Rem(m0)
        invariant S.Parse(2, m0) == S.PowerLoop(v, Snapshot())
        decreases Rem(Snapshot())
      {
        ghost var m, v0 := Snapshot(), v;
        s := ReadTok();
        if s != Fine {
          L.PowerLoopStop(v0, m, s.error, store);
          return;
        }
        ghost var m1 := Snapshot();
        var val2;
        val2, s := ExpPower();
        L.PowerLoopNext(v0, m, m1, S.Parse(2, m1));
        if s != Fine {
          return;
        }
        if val2 == 0 {
          return 1, Fine;
        }
        if val2 < 0 {
          return 0, Failed(NegativeExponent);
        }
        v := Repeat(v, val2);
      }
      L.PowerLoopEnd(v, Snapshot());
    }

    // The inner loop of exppower.
    method Repeat(val1: I64, val2: I64) returns (c: I64)
      requires val2 >= 0
      ensures c == PowLoop(1, val1, val2)
    {
      c := 1;
      var n := val2;
      while n > 0
        invariant n >= 0 && PowLoop(1, val1, val2) == PowLoop(c, val1, n)
      {
        c := Wrap(c * val1);
        n := n - 1;
      }
    }

    method Exp1() returns (v: I64, s: Status)
      requires Valid()
      modifies this
      ensures Ended(S.Parse(1, old(Snapshot())), v, s, old(stack))
      decreases MAX_EXPR_RECURSION_LEVEL - |stack|, Rem(Snapshot()), 6
    {
      hide S.ReadTok, S.Primary;
      ghost var m0 := Snapshot();
      L.UnaryIs(m0);
      if Unary(cur) {
        var op := cur;
        s := ReadTok();
        if s != Fine {
          return 0, s;
        }
        v, s := Exp1();
        if s != Fine {
          return;
        }
        v := UnaryValue(op, v);
      } else {
        v, s := Exp0();
      }
    }

    method Exp0() returns (v: I64, s: Status)
      requires Valid()
      modifies this
      ensures Ended(S.Parse(0, old(Snapshot())), v, s, old(stack))
      decreases MAX_EXPR_RECURSION_LEVEL - |stack|, Rem(Snapshot()), 4
    {
      hide S.ReadTok, S.Parse, S.Primary, S.PreStep;
      L.PrimaryIs(Snapshot());
      if cur == PreInc || cur == PreDec {
        v, s := PreStep();
      } else if cur == Ch('(') {
        s := ReadTok();
        if s != Fine {
          return 0, s;
        }
        v, s := ExpComma();
        if s != Fine {
          return;
        }
        if cur != Ch(')') {
          return 0, Failed(Syntax);
        }
        s := ReadTok();
      } else if cur == Num {
        v := val;
        s := ReadTok();
      } else if cur == Str {
        v, s := NameOperand();
      } else {
        v, s := 0, Failed(Syntax);
      }
    }

    // ++x and --x.
    method PreStep() returns (v: I64, s: Status)
      requires Valid() && (cur == PreInc || cur == PreDec)
      modifies this
      ensures Ended(S.PreStep(old(Snapshot()), old(cur) == PreInc), v, s, old(stack))
      decreases MAX_EXPR_RECURSION_LEVEL - |stack|, Rem(Snapshot()), 3
    {
      hide S.ReadTok;
      var stok := cur;
      v, last := 0, cur;
      s := ReadTok();
      if s != Fine {
        return;
      }
      if cur != Str {
        return 0, Failed(Syntax);
      }
      v := Stepped(val, stok == PreInc);
      BindVariable(str, v);
      cur := Num;
      s := ReadTok();
    }

    // A name: look for ++ or -- behind it, and go back if there is none.
    method NameOperand() returns (v: I64, s: Status)
      requires Valid() && cur == Str
      modifies this
      ensures Ended(L.NameResult(old(Snapshot())), v, s, old(stack))
      decreases MAX_EXPR_RECURSION_LEVEL - |stack|, Rem(Snapshot()), 3
    {
      hide S.ReadTok, L.AfterPeek;
      ghost var m0 := Snapshot();
      v := val;
      var saved := Context(text, cur, last, tp, val, str, noeval);
      str, noeval := "", 1;
      s := ReadTok();
      if s != Fine {
        return;
      }
      ghost var peeked := Snapshot();
      PostOrBack(saved, m0);
      s := ReadTok();
    }

    // With ++ or -- behind the name, step the variable; otherwise go back to the name.
    method PostOrBack(saved: Context, ghost m0: Machine)
      requires Valid() && Keeps(saved, m0) && text == m0.text && |stack| == m0.depth
      requires m0.noeval > 0 ==> store == m0.store
      requires m0.cur == Str && Rem(Snapshot()) <= Rem(m0)
      modifies this
      ensures Valid() && stack == old(stack) && Rem(Snapshot()) <= Rem(m0)
      ensures Snapshot() == L.AfterPeek(m0, old(Snapshot()))
    {
      hide S.Bind;
      var stok := cur;
      if stok == PostInc || stok == PostDec {
        str, noeval, last := saved.str, saved.noeval, Str;
        var v2 := Stepped(saved.val, stok == PostInc);
        cur := Num;
        BindVariable(str, v2);
      } else {
        cur, last, tp, val, str, noeval := saved.cur, saved.last, saved.tp, saved.val, saved.str, saved.noeval;
      }
    }

    // expr_unwind: counts the depth down to the outermost context and frees every context
    // once.  With an empty stack it would start below the array.
    method Unwind() returns (freed: seq<Context>)
      requires stack != []
      modifies this`stack, this`noeval
      ensures stack == [] && noeval == 0
      ensures |freed| == |old(stack)| && forall k :: 0 <= k < |freed| ==> freed[k] == old(stack)[|freed| - 1 - k]
    {
      freed := [];
      var depth := |stack| - 1;
      while depth > 0
        invariant 0 <= depth == |stack| - 1 - |freed|
        invariant forall k :: 0 <= k < |freed| ==> freed[k] == stack[|stack| - 1 - k]
      {
        freed := freed + [stack[depth]];
        depth := depth - 1;
      }
      freed := freed + [stack[depth]];
      stack, noeval := stack[..depth], 0;
    }

    // evalexp.  An evaluation that fails leaves at least the context it was started in on
    // the stack, so the unwinding takes the depth back to 0.
    method EvalExp(expr: string) returns (value: I64, valid: bool)
      requires Valid() && stack == []
      modifies this
      ensures Valid() && stack == []
      ensures match S.EvalExp(expr, old(Snapshot()))
              case Valid(v, st) => valid && value == v && store == st
              case Invalid(_, st) => !valid && value == 0 && store == st
    {
      hide S.SubExpr;
      noeval := 0;
      var s;
      value, s := SubExpr(expr);
      valid := s == Fine;
      if !valid {
        var _ := Unwind();
        value, text, tp, str := 0, "", 0, "";
      }
    }
  }
}
