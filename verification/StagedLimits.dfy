/** Programs outside the conditions of StagedTheorems, and what goes wrong. */
module StagedLimits {
  import opened CString
  import opened Values
  import opened Script
  import opened Staged
  import opened StagedTheorems

  const TRUE: Cond := Cond.Holds(Lit(Bool(true)))
  const FALSE: Cond := Cond.Holds(Lit(Bool(false)))

  lemma ExecSet(name: cstring, t: Term, st: State)
    requires st.status == Running && Eval(t, st).1 == st && !IsSetenv(t)
    ensures Exec(Assigned(name, t), st) == SetVariable(st, name, Some(Lit(Eval(t, st).0)))
  {
    hide Eval;
  }

  lemma ReduceTwo(a: Term, b: Term, st: State, fuel: nat)
    requires Reduce(a, st, fuel).1 == st && Reduce(b, st, fuel).1 == st
    ensures ReduceAll([a, b], st, fuel) == ([Reduce(a, st, fuel).0, Reduce(b, st, fuel).0], st)
  {
    hide Reduce;
    assert [a, b][1..] == [b] && [b][1..] == [];
    var q, r := Reduce(a, st, fuel).0, Reduce(b, st, fuel).0;
    assert ReduceAll([], st, fuel) == ([], st);
    assert ReduceAll([b], st, fuel) == ([r] + [], st) && [r] + [] == [r];
    assert ReduceAll([a, b], st, fuel) == ([q] + [r], st) && [q] + [r] == [q, r];
  }

  /** Reducing `name = t` reduces t. */
  lemma ReduceSet(name: cstring, t: Term, st: State, fuel: nat)
    requires Reduce(t, st, fuel).1 == st
    ensures Reduce(Assigned(name, t), st, fuel) == (Assigned(name, Reduce(t, st, fuel).0), st)
  {
    assert Reduce(Ident(name), st, fuel) == (Ident(name), st);
    hide Reduce;
    ReduceTwo(Ident(name), t, st, fuel);
    FunReduces(Assign, [Ident(name), t], st, fuel);
  }

  lemma FunReduces(fn: Fn, ps: seq<Term>, st: State, fuel: nat)
    ensures Reduce(Fun(fn, ps), st, fuel) == (Fun(fn, ReduceAll(ps, st, fuel).0), ReduceAll(ps, st, fuel).1)
  {
    hide ReduceAll;
  }

  const ONE: Term := Lit(Num(1))
  const ZERO: Term := Lit(Num(0))
  const MINUS_X: Term := Neg(Ident("x"))

  lemma MinusXIsZero(st: State, fuel: nat)
    requires Sound(st) && st.status == Running && "x" !in st.store && fuel >= 1
    ensures Reduce(MINUS_X, st, fuel) == (ZERO, st)
  {
    IdentNumber("x", st, fuel);
    assert ToNumber(Str("")) == 0;
  }

  lemma EarlyBuilt(st: State, fuel: nat)
    requires Sound(st) && st.status == Running && "x" !in st.store && fuel >= 1
    ensures ReduceAll([Assigned("x", ONE), Assigned("y", MINUS_X)], st, fuel)
            == ([Assigned("x", ONE), Assigned("y", ZERO)], st)
  {
    assert Reduce(ONE, st, fuel) == (ONE, st);
    hide Reduce, ReduceAll, Assigned, ONE, ZERO, MINUS_X;
    MinusXIsZero(st, fuel);
    ReduceSet("x", ONE, st, fuel);
    ReduceSet("y", MINUS_X, st, fuel);
    ReduceTwo(Assigned("x", ONE), Assigned("y", MINUS_X), st, fuel);
  }

  /** After `x = 1`, the text and what was built from it differ. */
  lemma EarlyResults(st: State)
    requires st.status == Running
    ensures ValueOf(ExecAll([Assigned("x", ONE), Assigned("y", ZERO)], st), "y") == Num(0)
    ensures ValueOf(ExecAll([Assigned("x", ONE), Assigned("y", MINUS_X)], st), "y") == Num(-1)
  {
    var s1 := SetVariable(st, "x", Some(ONE));
    assert Eval(ONE, st) == (Num(1), st) && Eval(ZERO, s1) == (Num(0), s1) && Eval(MINUS_X, s1) == (Num(-1), s1);
    hide Exec, ExecAll, Eval, Assigned;
    ExecSet("x", ONE, st);
    ExecSet("y", ZERO, s1);
    ExecSet("y", MINUS_X, s1);
    ExecTwo(Assigned("x", ONE), Assigned("y", ZERO), st);
    ExecTwo(Assigned("x", ONE), Assigned("y", MINUS_X), st);
  }

  lemma SetIsRunnable(name: cstring, v: Value, st: State, fuel: nat)
    requires Sound(st) && fuel >= 3
    ensures RunnableAction(Assigned(name, Lit(v)), st, fuel)
  {
    var ps := [Ident(name), Lit(v)];
    assert ps[1..] == [Lit(v)] && [Lit(v)][1..] == [];
    assert DepthAll([Lit(v)]) == 1;
    assert DepthAll(ps) == 1;
  }

  lemma Decided(b: bool, st: State, fuel: nat)
    requires st.status == Running
    ensures ReduceCond(Cond.Holds(Lit(Bool(b))), st, fuel) == (b, st)
    ensures EvalCond(Cond.Holds(Lit(Bool(b))), st) == (b, st)
  {
  }

  lemma MinusXIsClean()
    ensures CleanAction(Assigned("x", ONE)) && CleanAction(Assigned("y", MINUS_X))
  {
  }

  /** `true -> { x = 1  y = -x }` with x unset: the negation is computed before
      the block runs, so y becomes 0; from left to right it would become -1. */
  lemma EarlyNegation(st: State, fuel: nat)
    requires Sound(st) && st.status == Running && "x" !in st.store && fuel >= 3
    ensures var stmt := Rule(TRUE, [Assigned("x", ONE), Assigned("y", MINUS_X)]);
            CleanStmt(stmt)
            && ValueOf(StagedStmt(stmt, st, fuel), "y") == Num(0)
            && ValueOf(DirectStmt(stmt, st), "y") == Num(-1)
  {
    MinusXIsClean();
    assert ONE == Lit(Num(1)) && ZERO == Lit(Num(0));
    hide ReduceAll, ReduceCond, RunAll, ExecAll, EvalCond, CleanAction, Assigned, MINUS_X, ValueOf, RunnableAction;
    Decided(true, st, fuel);
    EarlyBuilt(st, fuel);
    EarlyResults(st);
    SetIsRunnable("x", Num(1), st, fuel);
    SetIsRunnable("y", Num(0), st, fuel);
    RunAllSound([Assigned("x", ONE), Assigned("y", ZERO)], st, fuel);
  }

  const CALL: Term := Fun(Cmd, [Lit(Str("c"))])

  lemma CallEffect(st: State)
    requires st.status == Running
    ensures Eval(CALL, st).1 == Log(st, Called(Cmd, ["c"], []))
  {
    var c := Lit(Str("c"));
    EvalOne(c, st);
    assert Eval(c, st) == (Str("c"), st);
    assert TextsOf([Str("c")]) == ["c"] + TextsOf([]) && ["c"] + TextsOf([]) == ["c"];
    assert Used(Cmd, [c]) == [c];
  }

  lemma CallIsBuilt(st: State, fuel: nat)
    requires Sound(st) && fuel >= 3
    ensures Reduce(CALL, st, fuel) == (CALL, st) && Runnable(CALL, st, fuel)
  {
    var c := Lit(Str("c"));
    assert [c][1..] == [] && Reduce(c, st, fuel) == (c, st);
    assert ReduceAll([], st, fuel) == ([], st);
    assert ReduceAll([c], st, fuel) == ([c] + [], st) && [c] + [] == [c];
    assert DepthAll([c]) == 1;
  }

  /** `false -> { x = -cmd("c") }`: the command runs although the rule does not. */
  lemma NegationRunsInDeadBlock(st: State, fuel: nat)
    requires Sound(st) && st.status == Running && fuel >= 3
    ensures var stmt := Rule(FALSE, [Fun(Print, [Neg(CALL)])]);
            CleanStmt(stmt)
            && StagedStmt(stmt, st, fuel).effects == st.effects + [Called(Cmd, ["c"], [])]
            && DirectStmt(stmt, st) == st
  {
    var neg := Neg(CALL);
    var action := Fun(Print, [neg]);
    assert CleanAction(action);
    Decided(false, st, fuel);
    CallIsBuilt(st, fuel);
    CallEffect(st);
    hide ReduceCond, EvalCond, CleanAction, RunAll, ExecAll, CALL, Number, Eval, Runnable;
    NumberOf(CALL, st, fuel);
    var s1 := Reduce(neg, st, fuel).1;
    assert s1 == Eval(CALL, st).1;
    ReduceOne(neg, st, fuel);
    ReduceOne(action, st, fuel);
  }

  lemma ReduceOne(t: Term, st: State, fuel: nat)
    ensures ReduceAll([t], st, fuel).1 == Reduce(t, st, fuel).1
  {
    hide Reduce;
    assert [t][1..] == [];
    assert ReduceAll([], Reduce(t, st, fuel).1, fuel).1 == Reduce(t, st, fuel).1;
  }

  /** An assignment stores whatever its right side resolves to. */
  lemma SetStores(name: cstring, t: Term, st: State, fuel: nat)
    requires st.status == Running && fuel >= 1
    requires Resolve(Some(t), st, fuel - 1).1.status == Running
    ensures var (r, s1) := Resolve(Some(t), st, fuel - 1);
            Resolve(Some(Assigned(name, t)), st, fuel) == (r, SetVariable(s1, name, r))
  {
    var ps := [Ident(name), t];
    assert ps[1] == t && ps[0] == Ident(name);
    assert Resolve(Some(Assigned(name, t)), st, fuel) == RunFunction(Assign, ps, st, fuel);
  }

  /** Exactly: assigning the result of a call leaves values in all variables if and
      only if the call is one whose result is a value, or a setenv of one. */
  lemma AssignedCallIsValue(name: cstring, fn: Fn, ps: seq<Term>, st: State, fuel: nat)
    requires RunnableAction(Fun(fn, ps), st, fuel) && fn != Assign && st.status == Running
    ensures var t := Resolve(Some(Assigned(name, Fun(fn, ps))), st, fuel + 1).1;
            t.status == Running ==> (Ground(t) <==> IsValueFn(fn) || (fn == Setenv && ps[1].Lit?))
    ensures CleanAction(Assigned(name, Fun(fn, ps))) <==> IsValueFn(fn) || (fn == Setenv && ps[1].Lit?)
  {
    var call := Fun(fn, ps);
    var (r, s1) := Resolve(Some(call), st, fuel);
    CleanIsExact(name, fn, ps);
    if s1.status == Running {
      RunsAction(call, st, fuel);
      CallGives(fn, ps, st, fuel);
      StoredIsGround(s1, name, r);
      hide *;
      SetStores(name, call, st, fuel + 1);
    } else {
      hide *;
      AssignStops(name, call, st, fuel);
    }
  }

  lemma StoredIsGround(st: State, name: cstring, r: Option<Term>)
    requires Ground(st)
    ensures Ground(SetVariable(st, name, r)) <==> r.Some? && r.value.Lit?
  {
    var t := SetVariable(st, name, r);
    assert t.store[name] == r;
  }

  /** What a call with values resolves to. */
  lemma CallGives(fn: Fn, ps: seq<Term>, st: State, fuel: nat)
    requires RunnableAction(Fun(fn, ps), st, fuel) && fn != Assign && st.status == Running
    ensures var (r, s1) := Resolve(Some(Fun(fn, ps)), st, fuel);
            s1.status == Running ==> (r.Some? && r.value.Lit? <==> IsValueFn(fn) || (fn == Setenv && ps[1].Lit?))
  {
    var call := Fun(fn, ps);
    assert Resolve(Some(call), st, fuel) == RunFunction(fn, ps, st, fuel);
    if IsValueFn(fn) {
      hide Resolve, RunFunction, Eval;
      RunsToValue(call, st, fuel);
    } else if fn == Setenv {
      hide Resolve, RunFunction, Exec, RunSetenv;
      SetenvRuns(ps, st, fuel);
    } else {
      hide Resolve, RunFunction;
      NoResult(fn, ps, st, fuel);
    }
  }

  lemma CleanIsExact(name: cstring, fn: Fn, ps: seq<Term>)
    requires CleanAction(Fun(fn, ps)) && Built(Fun(fn, ps)) && fn != Assign
    ensures CleanAction(Assigned(name, Fun(fn, ps))) <==> IsValueFn(fn) || (fn == Setenv && ps[1].Lit?)
  {
    var t := Assigned(name, Fun(fn, ps));
    assert t.params[1] == Fun(fn, ps);
    assert PlainAction(t) <==> ValueTerm(Fun(fn, ps));
    assert fn == Setenv ==> Built(ps[1]);
  }

  lemma AssignStops(name: cstring, t: Term, st: State, fuel: nat)
    requires st.status == Running && Resolve(Some(t), st, fuel).1.status != Running
    ensures Resolve(Some(Assigned(name, t)), st, fuel + 1).1.status != Running
  {
    var ps := [Ident(name), t];
    assert ps[1] == t;
    assert Resolve(Some(Assigned(name, t)), st, fuel + 1) == RunFunction(Assign, ps, st, fuel + 1);
  }

  lemma NoResult(fn: Fn, ps: seq<Term>, st: State, fuel: nat)
    requires fn in {Print, Vars, Sleep, Reboot, Poweroff, Loadenv, Saveenv}
    ensures RunFunction(fn, ps, st, fuel).0 == None
  {
  }

  /** `x = vars()` stores NULL, and reading x afterwards is fatal. */
  lemma NullIsFatal(st: State, fuel: nat)
    requires Sound(st) && st.status == Running && fuel >= 2
    ensures var s1 := Resolve(Some(Assigned("x", Fun(Vars, []))), st, fuel).1;
            "x" in s1.store && s1.store["x"] == None && Resolve(Some(Ident("x")), s1, fuel).1.status == Crashed
  {
    var t := Fun(Vars, []);
    assert Resolve(Some(t), st, fuel - 1) == RunFunction(Vars, [], st, fuel - 1) == (None, DoVars(st));
    hide Assigned;
    SetStores("x", t, st, fuel);
    var s1 := SetVariable(DoVars(st), "x", None);
    assert Resolve(None, s1, fuel - 1).1.status == Crashed;
  }

  /** Resolving a variable that holds its own name never ends, however many
      recursions there is room for. */
  lemma {:induction false} SelfReferenceNeverEnds(st: State, fuel: nat)
    requires st.status == Running && "x" in st.store && st.store["x"] == Some(Ident("x"))
    ensures Resolve(Some(Ident("x")), st, fuel).1.status == OutOfFuel
  {
    if fuel > 0 {
      SelfReferenceNeverEnds(st, fuel - 1);
    }
  }

  lemma SetenvReturnsItsParameter(st: State, fuel: nat)
    requires Sound(st) && st.status == Running && fuel >= 2
    ensures var t := Fun(Setenv, [Lit(Str("a")), Ident("x")]);
            Resolve(Some(t), st, fuel).0 == Some(Ident("x")) && Resolve(Some(t), st, fuel).1.status == Running
  {
    var ps := [Lit(Str("a")), Ident("x")];
    assert Resolve(Some(Fun(Setenv, ps)), st, fuel) == RunFunction(Setenv, ps, st, fuel);
    hide Text, DoSetenv, ToText;
    TextOf(ps[0], st, fuel - 1);
    TextOf(ps[1], st, fuel - 1);
    assert Eval(ps[0], st).1 == st && Eval(ps[1], st).1 == st;
    SetenvKeepsStatus(st, "a", ToText(ValueOf(st, "x")));
  }

  lemma SetenvKeepsStatus(st: State, name: cstring, value: cstring)
    ensures DoSetenv(st, name, value).status == st.status
  {
  }

  /** `x = setenv("a", x)` makes such a variable. */
  lemma SetenvMakesSelfReference(st: State, fuel: nat)
    requires Sound(st) && st.status == Running && fuel >= 3
    ensures var s1 := Resolve(Some(Assigned("x", Fun(Setenv, [Lit(Str("a")), Ident("x")]))), st, fuel).1;
            forall n: nat :: Resolve(Some(Ident("x")), s1, n).1.status == OutOfFuel
  {
    var t := Fun(Setenv, [Lit(Str("a")), Ident("x")]);
    hide Resolve, Assigned;
    SetenvReturnsItsParameter(st, fuel - 1);
    SetStores("x", t, st, fuel);
    var s1 := Resolve(Some(Assigned("x", t)), st, fuel).1;
    forall n: nat
      ensures Resolve(Some(Ident("x")), s1, n).1.status == OutOfFuel
    {
      SelfReferenceNeverEnds(s1, n);
    }
  }
}
