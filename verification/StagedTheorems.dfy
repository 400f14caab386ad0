/** Clean programs never go wrong, and staging them changes nothing as long as
    no negation reads what an earlier action of its block writes. */
module StagedTheorems {
  import opened CString
  import opened Values
  import opened EnvBlock
  import opened EnvMap
  import opened Script
  import opened Staged

  // ----- A built value term runs to the value of the direct semantics ---------

  lemma {:induction false} DepthAt(ps: seq<Term>, i: nat)
    requires i < |ps|
    ensures Depth(ps[i]) <= DepthAll(ps)
  {
    if i > 0 {
      DepthAt(ps[1..], i - 1);
    }
  }

  lemma {:induction false} DepthPrefix(ps: seq<Term>, k: nat)
    requires k <= |ps|
    ensures DepthAll(ps[..k]) <= DepthAll(ps)
  {
    if k > 0 {
      assert ps[..k][1..] == ps[1..][..k - 1];
      DepthPrefix(ps[1..], k - 1);
    }
  }

  predicate Runnable(t: Term, st: State, fuel: nat) {
    ValueTerm(t) && Built(t) && Sound(st) && fuel >= Depth(t)
  }

  predicate AllRunnable(ps: seq<Term>, st: State, fuel: nat) {
    Sound(st) && fuel >= DepthAll(ps) && forall i :: 0 <= i < |ps| ==> ValueTerm(ps[i]) && Built(ps[i])
  }

  /** The machine against the direct semantics, on one built term. */
  ghost predicate SameValue(r: (Option<Term>, State), e: (Value, State)) {
    r.1 == e.1 && Sound(r.1) && (r.1.status == Running ==> r.0 == Some(Lit(e.0)))
  }

  lemma SoundAfter(a: State, b: State)
    requires Sound(a) && OnlyEffects(a, b)
    ensures Sound(b)
  {
  }

  lemma {:induction false} RunsToValue(t: Term, st: State, fuel: nat)
    requires Runnable(t, st, fuel)
    ensures SameValue(Resolve(Some(t), st, fuel), Eval(t, st))
    decreases t, 1
  {
    EvalOnlyEffects(t, st);
    SoundAfter(st, Eval(t, st).1);
    match t
    case Lit(_) =>
    case Ident(_) =>
    case Fun(fn, ps) =>
      if st.status == Running {
        FunctionRunsToValue(fn, ps, st, fuel);
      }
  }

  lemma {:induction false} NumberOf(t: Term, st: State, fuel: nat)
    requires Runnable(t, st, fuel)
    ensures var (n, s) := Number(t, st, fuel); var (v, s') := Eval(t, st);
            s == s' && Sound(s) && (s.status == Running ==> n == ToNumber(v))
    decreases t, 2
  {
    hide Resolve, Eval, ToNumber;
    RunsToValue(t, st, fuel);
  }

  lemma {:induction false} TextOf(t: Term, st: State, fuel: nat)
    requires Runnable(t, st, fuel)
    ensures var (x, s) := Text(Some(t), st, fuel); var (v, s') := Eval(t, st);
            s == s' && Sound(s) && (s.status == Running ==> x == ToText(v))
    decreases t, 2
  {
    hide Resolve, Eval, ToText;
    RunsToValue(t, st, fuel);
  }

  lemma {:induction false} TextsOfAll(ps: seq<Term>, st: State, fuel: nat)
    requires AllRunnable(ps, st, fuel)
    ensures var (xs, s) := Texts(ps, st, fuel); var (vs, s') := EvalAll(ps, st);
            s == s' && Sound(s) && (s.status == Running ==> xs == TextsOf(vs))
    decreases ps, 3
  {
    if ps != [] {
      hide Text, Eval, ToText;
      TextOf(ps[0], st, fuel);
      TextsOfAll(ps[1..], Eval(ps[0], st).1, fuel);
      EvalAllOnlyEffects(ps[1..], ps[1..], Eval(ps[0], st).1);
    }
  }

  lemma {:induction false} FunctionRunsToValue(fn: Fn, ps: seq<Term>, st: State, fuel: nat)
    requires Runnable(Fun(fn, ps), st, fuel) && st.status == Running
    ensures SameValue(RunFunction(fn, ps, st, fuel), Eval(Fun(fn, ps), st))
    decreases ps, 5
  {
    hide RunFunction, Eval, SameValue, Sound;
    if fn == Add || fn == Subtract {
      ArithmeticRuns(fn, ps, st, fuel);
    } else if fn == FwupRevert {
      RevertRuns(ps, st, fuel);
    } else {
      AskRuns(fn, ps, st, fuel);
    }
  }

  lemma ArithmeticRuns(fn: Fn, ps: seq<Term>, st: State, fuel: nat)
    requires Runnable(Fun(fn, ps), st, fuel) && st.status == Running && fn in {Add, Subtract}
    ensures SameValue(RunFunction(fn, ps, st, fuel), Eval(Fun(fn, ps), st))
    decreases ps, 4
  {
    hide Number, EvalAll, ToNumber, ToInt, Sound;
    TwoNumbers(ps, st, fuel - 1);
  }

  lemma RevertRuns(ps: seq<Term>, st: State, fuel: nat)
    requires Runnable(Fun(FwupRevert, ps), st, fuel) && st.status == Running
    ensures SameValue(RunFunction(FwupRevert, ps, st, fuel), Eval(Fun(FwupRevert, ps), st))
    decreases ps, 4
  {
    hide Text, EvalAll, ToText, ValueOf, DoRevert, Sound;
    PathText(st, fuel - 1);
    EvalAllNothing(st);
    AskIsSound(st, FwupRevert, [], ToText(ValueOf(st, ENV_PATH)));
  }

  lemma AskRuns(fn: Fn, ps: seq<Term>, st: State, fuel: nat)
    requires Runnable(Fun(fn, ps), st, fuel) && st.status == Running && fn in {Getenv, Cmd, Readfile}
    ensures SameValue(RunFunction(fn, ps, st, fuel), Eval(Fun(fn, ps), st))
    decreases ps, 4
  {
    UsedIsRunnable(fn, ps, st, fuel);
    hide Texts, EvalAll, TextsOf, ToText, DoGetenv, DoAsk, Sound, Depth, DepthAll, ValueTerm, Built, AllRunnable;
    var qs := Used(fn, ps);
    TextsOfAll(qs, st, fuel - 1);
    var (vs, s1) := EvalAll(qs, st);
    FirstText(vs);
    AskIsSound(s1, fn, TextsOf(vs), "");
  }

  lemma UsedIsRunnable(fn: Fn, ps: seq<Term>, st: State, fuel: nat)
    requires Runnable(Fun(fn, ps), st, fuel)
    ensures AllRunnable(Used(fn, ps), st, fuel - 1) && fuel >= 2 && |ps| >= Arity(fn)
  {
    DepthPrefix(ps, |Used(fn, ps)|);
    hide Depth;
    assert fuel >= 2 + DepthAll(ps) by { DepthOfCall(fn, ps); }
  }

  lemma FirstText(vs: seq<Value>)
    ensures vs != [] ==> TextsOf(vs)[0] == ToText(vs[0])
  {
  }

  lemma EvalOne(t: Term, st: State)
    ensures EvalAll([t], st) == ([Eval(t, st).0], Eval(t, st).1)
  {
    hide Eval;
    assert [t][1..] == [];
    EvalAllNothing(Eval(t, st).1);
    assert [Eval(t, st).0] + [] == [Eval(t, st).0];
  }

  lemma EvalAllNothing(st: State)
    ensures EvalAll([], st) == ([], st)
  {
  }

  lemma AskIsSound(st: State, fn: Fn, texts: seq<cstring>, path: cstring)
    requires Sound(st)
    ensures Sound(DoAsk(st, fn, texts).1)
    ensures st.status == Running ==> Sound(DoRevert(st, path).1)
  {
  }

  lemma TwoNumbers(ps: seq<Term>, st: State, fuel: nat)
    requires |ps| >= 2 && AllRunnable(ps, st, fuel)
    ensures var (a, s1) := Number(ps[0], st, fuel); var (b, s2) := Number(ps[1], s1, fuel);
            var (vs, s) := EvalAll(ps[..2], st);
            s == s2 && Sound(s) && (s.status == Running ==> a == ToNumber(vs[0]) && b == ToNumber(vs[1]))
    decreases ps, 3
  {
    hide Number, Eval, ToNumber;
    var s1 := Eval(ps[0], st).1;
    DepthAt(ps, 0);
    DepthAt(ps, 1);
    NumberOf(ps[0], st, fuel);
    NumberOf(ps[1], s1, fuel);
    EvalOnlyEffects(ps[1], s1);
    assert ps[..2][1..] == [ps[1]];
    EvalOne(ps[1], s1);
  }

  lemma PathText(st: State, fuel: nat)
    requires Sound(st) && fuel >= 1 && st.status == Running
    ensures Text(Some(Ident(ENV_PATH)), st, fuel) == (ToText(ValueOf(st, ENV_PATH)), st)
  {
    assert Resolve(GetVariable(st, ENV_PATH), st, fuel - 1) == (GetVariable(st, ENV_PATH), st);
  }

  // ----- A built action has the effect of the direct semantics ----------------

  predicate RunnableAction(t: Term, st: State, fuel: nat) {
    CleanAction(t) && Built(t) && Sound(st) && fuel >= Depth(t)
  }

  lemma {:induction false} PrintsAll(ps: seq<Term>, st: State, fuel: nat)
    requires AllRunnable(ps, st, fuel)
    ensures Prints(ps, st, fuel) == ExecPrints(ps, st) && Sound(ExecPrints(ps, st))
  {
    if ps != [] {
      hide Text, Eval, ToText;
      TextOf(ps[0], st, fuel);
      var (v, s1) := Eval(ps[0], st);
      if s1.status == Running {
        PrintsAll(ps[1..], DoPrint(s1, ToText(v)), fuel);
      }
    }
  }

  lemma IdentNumber(name: cstring, st: State, fuel: nat)
    requires Sound(st) && fuel >= 1 && st.status == Running
    ensures Number(Ident(name), st, fuel) == (ToNumber(ValueOf(st, name)), st)
  {
    assert Resolve(GetVariable(st, name), st, fuel - 1) == (GetVariable(st, name), st);
  }

  lemma PlaceIs(st: State, fuel: nat)
    requires Sound(st) && fuel >= 1 && st.status == Running
    ensures EnvPlace(st, fuel)
         == (ToText(ValueOf(st, ENV_PATH)), ToNumber(ValueOf(st, ENV_START)), ToNumber(ValueOf(st, ENV_COUNT)), st)
  {
    hide Text, Number;
    PathText(st, fuel);
    IdentNumber(ENV_START, st, fuel);
    IdentNumber(ENV_COUNT, st, fuel);
  }

  lemma EnvIsSound(st: State, path: cstring, start: int, count: int)
    requires Sound(st) && st.status == Running
    ensures Sound(DoLoadenv(st, path, start, count))
    ensures Sound(DoSaveenv(st, path, start, count))
  {
    hide ReadBlock, SortPairs, Block, HasRoom;
  }

  lemma AssignRuns(ps: seq<Term>, st: State, fuel: nat)
    requires RunnableAction(Fun(Assign, ps), st, fuel) && st.status == Running
    ensures RunFunction(Assign, ps, st, fuel).1 == Exec(Fun(Assign, ps), st)
    ensures Sound(Exec(Fun(Assign, ps), st))
  {
    hide Resolve, Eval, RunSetenv;
    DepthAt(ps, 1);
    if AssignsSetenv(Fun(Assign, ps)) {
      AssignSetenvRuns(ps, st, fuel);
    } else {
      RunsToValue(ps[1], st, fuel - 1);
    }
  }

  lemma AssignSetenvRuns(ps: seq<Term>, st: State, fuel: nat)
    requires RunnableAction(Fun(Assign, ps), st, fuel) && st.status == Running && AssignsSetenv(Fun(Assign, ps))
    ensures RunFunction(Assign, ps, st, fuel).1 == Exec(Fun(Assign, ps), st)
    ensures Sound(Exec(Fun(Assign, ps), st))
  {
    var qs := ps[1].params;
    DepthAt(ps, 1);
    assert Resolve(Some(ps[1]), st, fuel - 1) == RunFunction(Setenv, qs, st, fuel - 1);
    assert Built(ps[1]) && Built(qs[1]);
    assert RunnableAction(ps[1], st, fuel - 1);
    SetenvRuns(qs, st, fuel - 1);
    SetenvGives(qs, st);
    hide Resolve, RunSetenv;
  }

  /** A value that is written out is the value of a setenv. */
  lemma SetenvGives(ps: seq<Term>, st: State)
    requires |ps| >= 2 && ps[1].Lit?
    ensures RunSetenv(ps, st).0 == ps[1].value
  {
  }

  lemma SetenvRuns(ps: seq<Term>, st: State, fuel: nat)
    requires RunnableAction(Fun(Setenv, ps), st, fuel) && st.status == Running
    ensures RunFunction(Setenv, ps, st, fuel).1 == RunSetenv(ps, st).1 == Exec(Fun(Setenv, ps), st)
    ensures RunSetenv(ps, st).1.status == Running ==> RunFunction(Setenv, ps, st, fuel).0 == Some(ps[1])
    ensures Sound(Exec(Fun(Setenv, ps), st))
  {
    hide Text, Eval, ToText, SetPair;
    DepthAt(ps, 0);
    DepthAt(ps, 1);
    TextOf(ps[0], st, fuel - 1);
    TextOf(ps[1], Eval(ps[0], st).1, fuel - 1);
    EvalOnlyEffects(ps[1], Eval(ps[0], st).1);
  }

  lemma SimpleRuns(fn: Fn, ps: seq<Term>, st: State, fuel: nat)
    requires RunnableAction(Fun(fn, ps), st, fuel) && st.status == Running
    requires fn in {Print, Vars, Sleep, Reboot, Poweroff}
    ensures RunFunction(fn, ps, st, fuel).1 == Exec(Fun(fn, ps), st)
    ensures Sound(Exec(Fun(fn, ps), st))
  {
    hide Number, Prints, ExecPrints, Eval, ToNumber;
    if fn == Print {
      PrintsAll(ps, st, fuel - 1);
    } else if fn == Sleep {
      DepthAt(ps, 0);
      NumberOf(ps[0], st, fuel - 1);
    }
  }

  lemma EnvRuns(fn: Fn, ps: seq<Term>, st: State, fuel: nat)
    requires RunnableAction(Fun(fn, ps), st, fuel) && st.status == Running
    requires fn in {Loadenv, Saveenv}
    ensures RunFunction(fn, ps, st, fuel).1 == Exec(Fun(fn, ps), st)
    ensures Sound(Exec(Fun(fn, ps), st))
  {
    hide EnvPlace, ValueOf, ToText, ToNumber, DoLoadenv, DoSaveenv;
    PlaceIs(st, fuel - 1);
    EnvIsSound(st, ToText(ValueOf(st, ENV_PATH)), ToNumber(ValueOf(st, ENV_START)), ToNumber(ValueOf(st, ENV_COUNT)));
  }

  lemma RunsAction(t: Term, st: State, fuel: nat)
    requires RunnableAction(t, st, fuel)
    ensures Resolve(Some(t), st, fuel).1 == Exec(t, st) && Sound(Exec(t, st))
  {
    if st.status == Running {
      assert Resolve(Some(t), st, fuel) == RunFunction(t.fn, t.params, st, fuel);
      if t.fn in {Loadenv, Saveenv} {
        EnvRuns(t.fn, t.params, st, fuel);
      } else if t.fn == Assign {
        AssignRuns(t.params, st, fuel);
      } else if t.fn == Setenv {
        SetenvRuns(t.params, st, fuel);
      } else if t.fn in {Print, Vars, Sleep, Reboot, Poweroff} {
        SimpleRuns(t.fn, t.params, st, fuel);
      } else {
        hide RunFunction, Resolve, Eval;
        FunctionRunsToValue(t.fn, t.params, st, fuel);
      }
    }
  }

  // ----- Building is sound ----------------------------------------------------

  predicate BuiltFrom(q: Term, t: Term) {
    ValueTerm(q) && Built(q) && Depth(q) <= Depth(t) && (t.Ident? ==> q == t)
  }

  lemma {:induction false} ReduceBuilds(t: Term, st: State, fuel: nat)
    requires ValueTerm(t) && Sound(st) && fuel >= Depth(t)
    ensures BuiltFrom(Reduce(t, st, fuel).0, t)
    ensures OnlyEffects(st, Reduce(t, st, fuel).1) && Sound(Reduce(t, st, fuel).1)
    decreases t, 0
  {
    match t
    case Ident(_) =>
    case Lit(_) =>
    case Neg(operand) =>
      hide Resolve, Eval, Number, ToNumber;
      ReduceBuilds(operand, st, fuel);
      var (q, s1) := Reduce(operand, st, fuel);
      NumberOf(q, s1, fuel);
      EvalOnlyEffects(q, s1);
    case Fun(fn, ps) =>
      ReduceAllBuilds(ps, st, fuel);
      var qs := ReduceAll(ps, st, fuel).0;
      DepthAllBuilt(qs, ps);
  }

  lemma {:induction false} ReduceAllBuilds(ps: seq<Term>, st: State, fuel: nat)
    requires Sound(st) && fuel >= DepthAll(ps) && forall i :: 0 <= i < |ps| ==> ValueTerm(ps[i])
    ensures var (qs, s) := ReduceAll(ps, st, fuel);
            OnlyEffects(st, s) && Sound(s) && forall i :: 0 <= i < |ps| ==> BuiltFrom(qs[i], ps[i])
    decreases ps, 1
  {
    if ps != [] {
      hide Reduce, BuiltFrom;
      ReduceBuilds(ps[0], st, fuel);
      ReduceAllBuilds(ps[1..], Reduce(ps[0], st, fuel).1, fuel);
    }
  }

  lemma {:induction false} DepthAllBuilt(qs: seq<Term>, ps: seq<Term>)
    requires |qs| == |ps| && forall i :: 0 <= i < |ps| ==> BuiltFrom(qs[i], ps[i])
    ensures DepthAll(qs) <= DepthAll(ps)
  {
    if ps != [] {
      assert BuiltFrom(qs[0], ps[0]);
      DepthAllBuilt(qs[1..], ps[1..]);
    }
  }

  predicate ActionFrom(q: Term, t: Term) {
    CleanAction(q) && Built(q) && Depth(q) <= Depth(t)
  }

  lemma ReduceAction(t: Term, st: State, fuel: nat)
    requires CleanAction(t) && Sound(st) && fuel >= Depth(t)
    ensures ActionFrom(Reduce(t, st, fuel).0, t)
    ensures OnlyEffects(st, Reduce(t, st, fuel).1) && Sound(Reduce(t, st, fuel).1)
  {
    if PlainAction(t) {
      ReducePlain(t, st, fuel);
    } else {
      var call := t.params[1];
      DepthAt(t.params, 1);
      ReducePlain(call, st, fuel);
      ReduceAssigned(t, st, fuel);
      ReduceSecond(call, st, fuel);
      hide Reduce, PlainAction, Sound, OnlyEffects;
    }
  }

  lemma ReducePlain(t: Term, st: State, fuel: nat)
    requires PlainAction(t) && Sound(st) && fuel >= Depth(t)
    ensures var q := Reduce(t, st, fuel).0; PlainAction(q) && Built(q) && Depth(q) <= Depth(t)
    ensures OnlyEffects(st, Reduce(t, st, fuel).1) && Sound(Reduce(t, st, fuel).1)
  {
    hide ReduceAll, Sound;
    ReduceAllBuilds(t.params, st, fuel);
    DepthAllBuilt(ReduceAll(t.params, st, fuel).0, t.params);
  }

  /** The parser leaves a value where a value or a minus was. */
  lemma ReduceSecond(t: Term, st: State, fuel: nat)
    requires IsSetenv(t) && (t.params[1].Lit? || t.params[1].Neg?)
    ensures var q := Reduce(t, st, fuel).0; IsSetenv(q) && q.params[1].Lit?
  {
    var ps := t.params;
    var (q, s1) := Reduce(ps[0], st, fuel);
    assert ReduceAll(ps[1..], s1, fuel).0[0] == Reduce(ps[1], s1, fuel).0;
    assert ReduceAll(ps, st, fuel).0[1] == Reduce(ps[1], s1, fuel).0;
  }

  lemma ReduceAssigned(t: Term, st: State, fuel: nat)
    requires t.Fun? && t.fn == Assign && |t.params| == 2 && t.params[0].Ident?
    ensures var (q, s) := Reduce(t.params[1], st, fuel);
            && Reduce(t, st, fuel) == (Fun(Assign, [t.params[0], q]), s)
            && (Built(q) ==> Built(Fun(Assign, [t.params[0], q])))
            && (Depth(q) <= Depth(t.params[1]) ==> Depth(Fun(Assign, [t.params[0], q])) <= Depth(t))
  {
    var ps := t.params;
    var (q, s) := Reduce(ps[1], st, fuel);
    assert Reduce(ps[0], st, fuel) == (ps[0], st);
    hide Depth;
    assert ps[1..][1..] == [] && ps[1..][0] == ps[1];
    assert [q] + [] == [q] && [ps[0]] + [q] == [ps[0], q];
    assert ReduceAll([], s, fuel) == ([], s);
    assert ReduceAll(ps[1..], st, fuel) == ([q], s);
    assert ReduceAll(ps, st, fuel) == ([ps[0], q], s);
    hide Reduce, ReduceAll;
    DepthOfTwo(ps[0], q);
    DepthOfTwo(ps[0], ps[1]);
    assert ps == [ps[0], ps[1]];
    DepthOfCall(Assign, ps);
    DepthOfCall(Assign, [ps[0], q]);
  }

  lemma DepthOfTwo(a: Term, b: Term)
    ensures DepthAll([a, b]) == if Depth(a) > Depth(b) then Depth(a) else Depth(b)
  {
    hide Depth;
    assert [a, b][1..] == [b] && [b][1..] == [];
    assert DepthAll([b]) == if Depth(b) > DepthAll([]) then Depth(b) else DepthAll([]);
  }

  lemma DepthOfCall(fn: Fn, ps: seq<Term>)
    ensures Depth(Fun(fn, ps)) == 2 + DepthAll(ps)
  {
  }

  function BlockDepth(block: seq<Term>): nat {
    DepthAll(block)
  }

  lemma {:induction false} ReduceBlock(block: seq<Term>, st: State, fuel: nat)
    requires Sound(st) && fuel >= BlockDepth(block) && forall i :: 0 <= i < |block| ==> CleanAction(block[i])
    ensures var (qs, s) := ReduceAll(block, st, fuel);
            OnlyEffects(st, s) && Sound(s) && forall i :: 0 <= i < |block| ==> ActionFrom(qs[i], block[i])
    decreases |block|
  {
    if block != [] {
      hide Reduce, CleanAction, ActionFrom, Sound;
      ReduceAction(block[0], st, fuel);
      ReduceBlock(block[1..], Reduce(block[0], st, fuel).1, fuel);
    }
  }

  lemma {:induction false} RunAllSound(qs: seq<Term>, st: State, fuel: nat)
    requires Sound(st) && forall i :: 0 <= i < |qs| ==> RunnableAction(qs[i], st, fuel)
    ensures RunAll(qs, st, fuel) == ExecAll(qs, st) && Sound(ExecAll(qs, st))
    decreases |qs|
  {
    if qs != [] {
      hide Resolve, Exec;
      RunsAction(qs[0], st, fuel);
      RunAllSound(qs[1..], Exec(qs[0], st), fuel);
    }
  }

  function CondDepth(c: Cond): nat {
    match c
    case Holds(t) => Depth(t)
    case Compares(_, left, right) => Depth(left) + Depth(right)
    case Not(d) => CondDepth(d)
    case And(d, e) => CondDepth(d) + CondDepth(e)
    case Or(d, e) => CondDepth(d) + CondDepth(e)
  }

  /** A number of recursions that is enough for a statement. */
  function StmtDepth(stmt: Stmt): nat {
    match stmt
    case Do(action) => Depth(action)
    case Rule(cond, block) => CondDepth(cond) + BlockDepth(block)
  }

  function ProgramDepth(program: seq<Stmt>): nat {
    if program == [] then 0 else StmtDepth(program[0]) + ProgramDepth(program[1..])
  }

  lemma TruthOf(t: Term, st: State, fuel: nat)
    requires Runnable(t, st, fuel)
    ensures var (b, s) := Truth(t, st, fuel); var (v, s') := Eval(t, st);
            s == s' && Sound(s) && (s.status == Running ==> b == ToBoolean(v))
  {
    hide Resolve, Eval, ToBoolean;
    RunsToValue(t, st, fuel);
  }

  lemma CompareOf(l: Term, r: Term, st: State, fuel: nat)
    requires Runnable(l, st, fuel) && Runnable(r, st, fuel)
    ensures var (sign, s) := Compare(l, r, st, fuel);
            var (v, s1) := Eval(l, st); var (w, s2) := Eval(r, s1);
            s == s2 && Sound(s) && OnlyEffects(st, s)
            && (s.status == Running ==> sign == CompareValues(st.world, v, w))
  {
    hide Resolve, Eval, CompareValues;
    RunsToValue(l, st, fuel);
    var s1 := Eval(l, st).1;
    EvalOnlyEffects(l, st);
    RunsToValue(r, s1, fuel);
    EvalOnlyEffects(r, s1);
  }

  lemma {:induction false} CondSound(c: Cond, st: State, fuel: nat)
    requires CleanCond(c) && Sound(st) && fuel >= CondDepth(c)
    ensures OnlyEffects(st, ReduceCond(c, st, fuel).1) && Sound(ReduceCond(c, st, fuel).1)
    decreases c
  {
    hide Truth, Compare, Reduce, Sound;
    match c
    case Holds(t) =>
      ReduceBuilds(t, st, fuel);
      var (q, s1) := Reduce(t, st, fuel);
      TruthOf(q, s1, fuel);
      EvalOnlyEffects(q, s1);
    case Compares(op, left, right) =>
      ReduceBuilds(left, st, fuel);
      var (l, s1) := Reduce(left, st, fuel);
      ReduceBuilds(right, s1, fuel);
      var (r, s2) := Reduce(right, s1, fuel);
      CompareOf(l, r, s2, fuel);
    case Not(d) => CondSound(d, st, fuel);
    case And(d, e) =>
      CondSound(d, st, fuel);
      CondSound(e, ReduceCond(d, st, fuel).1, fuel);
    case Or(d, e) =>
      CondSound(d, st, fuel);
      CondSound(e, ReduceCond(d, st, fuel).1, fuel);
  }

  lemma StmtSound(stmt: Stmt, st: State, fuel: nat)
    requires CleanStmt(stmt) && Sound(st) && fuel >= StmtDepth(stmt)
    ensures Sound(StagedStmt(stmt, st, fuel))
  {
    hide ReduceAll, ReduceCond, RunAll, CleanAction, CleanCond, Depth, CondDepth, Sound;
    match stmt
    case Do(action) =>
      OneAction(action);
      ReduceBlock([action], st, fuel);
      var (qs, s1) := ReduceAll([action], st, fuel);
      RunAllSound(qs, s1, fuel);
    case Rule(cond, block) =>
      CondSound(cond, st, fuel);
      var s1 := ReduceCond(cond, st, fuel).1;
      ReduceBlock(block, s1, fuel);
      var (qs, s2) := ReduceAll(block, s1, fuel);
      forall i | 0 <= i < |qs|
        ensures RunnableAction(qs[i], s2, fuel)
      {
        DepthAt(block, i);
      }
      RunAllSound(qs, s2, fuel);
  }

  lemma OneAction(action: Term)
    ensures BlockDepth([action]) == Depth(action)
  {
    assert [action][1..] == [];
    assert DepthAll([action][1..]) == 0;
  }

  /** A clean program, on a store of values, always leaves a store of values: it
      never uses NULL, and every evaluation ends. */
  lemma {:induction false} CleanProgramsAreSound(program: seq<Stmt>, st: State, fuel: nat)
    requires Clean(program) && Sound(st) && fuel >= ProgramDepth(program)
    ensures Sound(StagedRun(program, st, fuel))
    decreases |program|
  {
    if program != [] {
      hide StagedStmt, CleanStmt, StmtDepth, Sound;
      StmtSound(program[0], st, fuel);
      CleanProgramsAreSound(program[1..], StagedStmt(program[0], st, fuel), fuel);
    }
  }

  // ----- Building early gives the same value ----------------------------------

  /** The same values at some places. */
  ghost predicate Agree(a: State, b: State, places: set<Place>) {
    forall p :: p in places ==> SameAt(a, b, p)
  }

  predicate SameAt(a: State, b: State, p: Place) {
    match p
    case Variable(name) => ValueOf(a, name) == ValueOf(b, name)
    case Environment => a.env == b.env
  }

  lemma {:induction false} PureValue(t: Term, a: State, b: State)
    requires Pure(t) && Agree(a, b, Reads(t))
    ensures Eval(t, a).1 == a && Eval(t, a).0 == Eval(t, b).0
    decreases t, 0
  {
    match t
    case Ident(_) =>
    case Lit(_) =>
    case Neg(operand) => PureValue(operand, a, b);
    case Fun(fn, ps) =>
      forall i | 0 <= i < |ps|
        ensures Agree(a, b, Reads(ps[i]))
      {
        assert forall p :: p in Reads(ps[i]) ==> p in Reads(t);
      }
      if fn == Getenv {
        assert SameAt(a, b, Environment);
      }
      PureValues(Used(fn, ps), a, b);
      CallIsPure(fn, ps, a, b);
  }

  lemma CallIsPure(fn: Fn, ps: seq<Term>, a: State, b: State)
    requires fn in {Add, Subtract, Getenv} && (fn == Getenv ==> a.env == b.env)
    requires var qs := Used(fn, ps);
             EvalAll(qs, a).1 == a && EvalAll(qs, b).1 == b && EvalAll(qs, a).0 == EvalAll(qs, b).0
    ensures Eval(Fun(fn, ps), a).1 == a && Eval(Fun(fn, ps), a).0 == Eval(Fun(fn, ps), b).0
  {
    hide EvalAll, Used, ToText, ToNumber, Meaning;
  }

  lemma {:induction false} PureValues(ps: seq<Term>, a: State, b: State)
    requires forall i :: 0 <= i < |ps| ==> Pure(ps[i]) && Agree(a, b, Reads(ps[i]))
    ensures EvalAll(ps, a).1 == a && EvalAll(ps, b).1 == b && EvalAll(ps, a).0 == EvalAll(ps, b).0
    decreases ps, 1
  {
    if ps != [] {
      hide Eval, Agree, Pure;
      PureValue(ps[0], a, b);
      PureValue(ps[0], b, a) by { AgreeBack(a, b, Reads(ps[0])); }
      PureValues(ps[1..], a, b);
    }
  }

  lemma AgreeBack(a: State, b: State, places: set<Place>)
    requires Agree(a, b, places)
    ensures Agree(b, a, places)
  {
  }

  lemma {:induction false} PureIsPureNegs(t: Term)
    requires Pure(t)
    ensures PureNegs(t)
  {
    match t
    case Fun(_, ps) =>
      forall i | 0 <= i < |ps|
        ensures PureNegs(ps[i])
      {
        PureIsPureNegs(ps[i]);
      }
    case _ =>
  }

  /** A term whose negations are settled: `a` is the state it is built in. */
  ghost predicate Settles(t: Term, a: State, b: State, fuel: nat) {
    ValueTerm(t) && PureNegs(t) && Sound(a) && a.status == Running && fuel >= Depth(t) && Agree(a, b, NegReads(t))
  }

  /** What is built in one state means, in another that agrees on the variables
      under negations, what the source text means there. */
  lemma {:induction false} ReduceKeepsMeaning(t: Term, a: State, b: State, fuel: nat)
    requires Settles(t, a, b, fuel)
    ensures Reduce(t, a, fuel).1 == a
    ensures Eval(Reduce(t, a, fuel).0, b) == Eval(t, b)
    decreases t, 0
  {
    match t
    case Ident(_) =>
    case Lit(_) =>
    case Neg(operand) => NegKeepsMeaning(operand, a, b, fuel);
    case Fun(fn, ps) =>
      SettlesParams(t, a, b, fuel);
      var qs := ReduceAll(ps, a, fuel).0;
      hide Settles;
      ReduceAllKeeps(ps, a, b, fuel);
      assert |Used(fn, qs)| == |Used(fn, ps)|;
      EvalAllKeeps(Used(fn, ps), Used(fn, qs), a, b, b, fuel);
      hide Used;
      SameUsedSameCall(fn, ps, qs, b);
  }

  lemma SameUsedSameCall(fn: Fn, ps: seq<Term>, qs: seq<Term>, st: State)
    requires EvalAll(Used(fn, qs), st) == EvalAll(Used(fn, ps), st)
    ensures Eval(Fun(fn, qs), st) == Eval(Fun(fn, ps), st)
  {
    hide Used, EvalAll;
  }

  lemma {:induction false} NegKeepsMeaning(operand: Term, a: State, b: State, fuel: nat)
    requires Settles(Neg(operand), a, b, fuel)
    ensures Reduce(Neg(operand), a, fuel).1 == a
    ensures Eval(Reduce(Neg(operand), a, fuel).0, b) == Eval(Neg(operand), b)
    decreases operand, 1
  {
    PureIsPureNegs(operand);
    assert Settles(operand, a, a, fuel);
    hide Resolve, Number, ToNumber, ToInt, Pure, PureNegs, Agree, Sound;
    ReduceKeepsMeaning(operand, a, a, fuel);
    ReduceBuilds(operand, a, fuel);
    NumberOf(Reduce(operand, a, fuel).0, a, fuel);
    PureValue(operand, a, b);
    AgreeBack(a, b, Reads(operand));
    PureValue(operand, b, a);
  }

  lemma SettlesParams(t: Term, a: State, b: State, fuel: nat)
    requires t.Fun? && Settles(t, a, b, fuel)
    ensures forall i :: 0 <= i < |t.params| ==> Settles(t.params[i], a, b, fuel)
  {
    forall i | 0 <= i < |t.params|
      ensures Settles(t.params[i], a, b, fuel)
    {
      DepthAt(t.params, i);
      assert forall p :: p in NegReads(t.params[i]) ==> p in NegReads(t);
    }
  }

  lemma {:induction false} ReduceAllKeeps(ps: seq<Term>, a: State, b: State, fuel: nat)
    requires forall i :: 0 <= i < |ps| ==> Settles(ps[i], a, b, fuel)
    ensures var (qs, s) := ReduceAll(ps, a, fuel);
            s == a && forall i :: 0 <= i < |ps| ==> qs[i] == Reduce(ps[i], a, fuel).0
    decreases ps, 1
  {
    if ps != [] {
      hide Reduce, Eval, Settles;
      ReduceKeepsMeaning(ps[0], a, b, fuel);
      ReduceAllKeeps(ps[1..], a, b, fuel);
    }
  }

  lemma {:induction false} EvalAllKeeps(ps: seq<Term>, qs: seq<Term>, a: State, b: State, now: State, fuel: nat)
    requires |ps| == |qs| && SamePlaces(b, now)
    requires forall i :: 0 <= i < |ps| ==> Settles(ps[i], a, b, fuel) && qs[i] == Reduce(ps[i], a, fuel).0
    ensures EvalAll(qs, now) == EvalAll(ps, now)
    decreases ps, 2
  {
    if ps != [] {
      SettlesOn(ps[0], a, b, now, fuel);
      hide Reduce, Eval, Settles;
      ReduceKeepsMeaning(ps[0], a, now, fuel);
      EvalOnlyEffects(ps[0], now);
      EvalAllKeeps(ps[1..], qs[1..], a, b, Eval(ps[0], now).1, fuel);
    }
  }

  /** The same at every place. */
  ghost predicate SamePlaces(b: State, c: State) {
    b.store == c.store && b.env == c.env
  }

  lemma SettlesOn(t: Term, a: State, b: State, c: State, fuel: nat)
    requires Settles(t, a, b, fuel) && SamePlaces(b, c)
    ensures Settles(t, a, c, fuel)
  {
    assert forall p :: SameAt(a, b, p) ==> SameAt(a, c, p);
    hide Pure, PureNegs, Reads, NegReads, Depth, ValueTerm;
  }

  lemma {:induction false} ExecPrintsKeeps(ps: seq<Term>, qs: seq<Term>, a: State, b: State, now: State, fuel: nat)
    requires |ps| == |qs| && SamePlaces(b, now)
    requires forall i :: 0 <= i < |ps| ==> Settles(ps[i], a, b, fuel) && qs[i] == Reduce(ps[i], a, fuel).0
    ensures ExecPrints(qs, now) == ExecPrints(ps, now)
    decreases |ps|
  {
    if ps != [] {
      SettlesOn(ps[0], a, b, now, fuel);
      hide Reduce, Eval, Settles, ToText;
      ReduceKeepsMeaning(ps[0], a, now, fuel);
      EvalOnlyEffects(ps[0], now);
      var (v, s1) := Eval(ps[0], now);
      if s1.status == Running {
        ExecPrintsKeeps(ps[1..], qs[1..], a, b, DoPrint(s1, ToText(v)), fuel);
      }
    }
  }

  /** An action whose negations are settled. */
  ghost predicate SettlesAction(t: Term, a: State, b: State, fuel: nat) {
    CleanAction(t) && PureNegs(t) && Sound(a) && a.status == Running && fuel >= Depth(t) && Agree(a, b, NegReads(t))
  }

  lemma ActionParams(t: Term, a: State, b: State, fuel: nat)
    requires SettlesAction(t, a, b, fuel) && PlainAction(t)
    ensures forall i :: 0 <= i < |t.params| ==> Settles(t.params[i], a, b, fuel)
    ensures var (qs, s) := ReduceAll(t.params, a, fuel);
            s == a && forall i :: 0 <= i < |qs| ==> qs[i] == Reduce(t.params[i], a, fuel).0
  {
    forall i | 0 <= i < |t.params|
      ensures Settles(t.params[i], a, b, fuel)
    {
      DepthAt(t.params, i);
      assert forall p :: p in NegReads(t.params[i]) ==> p in NegReads(t);
    }
    hide Settles, Reduce;
    ReduceAllKeeps(t.params, a, b, fuel);
  }

  lemma ActionKeepsMeaning(t: Term, a: State, b: State, fuel: nat)
    requires SettlesAction(t, a, b, fuel)
    ensures Reduce(t, a, fuel).1 == a
    ensures Exec(Reduce(t, a, fuel).0, b) == Exec(t, b)
  {
    if PlainAction(t) {
      ActionParams(t, a, b, fuel);
      var ps, qs := t.params, ReduceAll(t.params, a, fuel).0;
      assert Reduce(t, a, fuel) == (Fun(t.fn, qs), a);
      if IsValueFn(t.fn) {
        assert Settles(t, a, b, fuel);
        hide Eval, ReduceAll;
        ReduceKeepsMeaning(t, a, b, fuel);
      } else {
        ParamsKeepMeaning(t.fn, ps, qs, a, b, fuel);
      }
    } else {
      SetenvKeepsMeaning(t, a, b, fuel);
    }
  }

  lemma SetenvKeepsMeaning(t: Term, a: State, b: State, fuel: nat)
    requires SettlesAction(t, a, b, fuel) && AssignsSetenv(t)
    ensures Reduce(t, a, fuel).1 == a
    ensures Exec(Reduce(t, a, fuel).0, b) == Exec(t, b)
  {
    var call := t.params[1];
    CallSettles(t, a, b, fuel);
    ActionParams(call, a, b, fuel);
    var ps, qs := call.params, ReduceAll(call.params, a, fuel).0;
    assert Reduce(call, a, fuel) == (Fun(Setenv, qs), a);
    ReduceAssigned(t, a, fuel);
    hide Reduce, ReduceAll, Eval, Settles, SettlesAction, RunSetenv, PlainAction, Depth;
    SetenvParams(ps, qs, a, b, fuel);
  }

  lemma CallSettles(t: Term, a: State, b: State, fuel: nat)
    requires SettlesAction(t, a, b, fuel) && AssignsSetenv(t)
    ensures SettlesAction(t.params[1], a, b, fuel) && PlainAction(t.params[1])
  {
    DepthAt(t.params, 1);
    assert forall p :: p in NegReads(t.params[1]) ==> p in NegReads(t);
  }

  lemma SetenvParams(ps: seq<Term>, qs: seq<Term>, a: State, b: State, fuel: nat)
    requires |ps| == |qs| >= 2
    requires forall i :: 0 <= i < |ps| ==> Settles(ps[i], a, b, fuel) && qs[i] == Reduce(ps[i], a, fuel).0
    ensures RunSetenv(qs, b) == RunSetenv(ps, b)
  {
    hide Eval, Settles, ToText, DoSetenv;
    ReduceKeepsMeaning(ps[0], a, b, fuel);
    var s1 := Eval(ps[0], b).1;
    EvalOnlyEffects(ps[0], b);
    SettlesOn(ps[1], a, b, s1, fuel);
    ReduceKeepsMeaning(ps[1], a, s1, fuel);
  }

  lemma ParamsKeepMeaning(fn: Fn, ps: seq<Term>, qs: seq<Term>, a: State, b: State, fuel: nat)
    requires !IsValueFn(fn) && |ps| == |qs| && (fn == Assign && |ps| >= 2 ==> ps[0].Ident? && ValueTerm(ps[1]))
    requires forall i :: 0 <= i < |ps| ==> Settles(ps[i], a, b, fuel) && qs[i] == Reduce(ps[i], a, fuel).0
    ensures Exec(Fun(fn, qs), b) == Exec(Fun(fn, ps), b)
  {
    hide Eval, Settles, ToText, ToNumber, DoSetenv, DoLoadenv, DoSaveenv, ExecPrints, RunSetenv;
    if |ps| >= Arity(fn) {
      if fn == Print {
        ExecPrintsKeeps(ps, qs, a, b, b, fuel);
      } else if fn == Sleep {
        ReduceKeepsMeaning(ps[0], a, b, fuel);
      } else if fn == Assign {
        ReduceKeepsMeaning(ps[1], a, b, fuel);
      } else if fn == Setenv {
        SetenvParams(ps, qs, a, b, fuel);
      }
    }
  }

  lemma {:induction false} PrintsKeepPlaces(ps: seq<Term>, st: State)
    ensures SamePlaces(ExecPrints(ps, st), st)
    decreases |ps|
  {
    if ps != [] {
      hide Eval, ToText;
      EvalOnlyEffects(ps[0], st);
      var (v, s1) := Eval(ps[0], st);
      PrintsKeepPlaces(ps[1..], DoPrint(s1, ToText(v)));
    }
  }

  lemma EnvFrame(st: State, path: cstring, start: int, count: int, n: cstring)
    ensures n !in {ENV_LOADED, ENV_MODIFIED} ==> ValueOf(DoLoadenv(st, path, start, count), n) == ValueOf(st, n)
    ensures n != ENV_MODIFIED ==> ValueOf(DoSaveenv(st, path, start, count), n) == ValueOf(st, n)
  {
    hide ReadBlock, SortPairs, HasRoom, Block;
  }

  lemma SetFrame(t: Term, st: State, p: Place)
    requires t.Fun? && t.fn in {Assign, Setenv} && p !in Writes(t)
    ensures SameAt(st, Exec(t, st), p)
  {
    if |t.params| >= 2 {
      hide Eval, RunSetenv;
      EvalOnlyEffects(t.params[1], st);
      if t.fn == Setenv {
        SetenvFrame(t.params, st, p);
      } else if IsSetenv(t.params[1]) {
        SetenvFrame(t.params[1].params, st, p);
      }
    }
  }

  lemma SetenvFrame(ps: seq<Term>, st: State, p: Place)
    requires |ps| >= 2 && p !in {Variable(ENV_MODIFIED), Environment}
    ensures SameAt(st, RunSetenv(ps, st).1, p)
  {
    hide Eval, ToText, SetPair;
    EvalOnlyEffects(ps[0], st);
    EvalOnlyEffects(ps[1], Eval(ps[0], st).1);
  }

  lemma QuietFrame(t: Term, st: State)
    requires t.Fun? && t.fn !in {Assign, Setenv, Loadenv, Saveenv}
    ensures SamePlaces(Exec(t, st), st)
  {
    hide Eval, ExecPrints, ToText, ToNumber;
    EvalOnlyEffects(t, st);
    PrintsKeepPlaces(t.params, st);
    if |t.params| >= 1 {
      EvalOnlyEffects(t.params[0], st);
    }
  }

  /** An action changes no place that it is not known to write. */
  lemma ExecFrame(t: Term, st: State, p: Place)
    requires p !in Writes(t)
    ensures SameAt(st, Exec(t, st), p)
  {
    if t.Fun? {
      if t.fn in {Assign, Setenv} {
        SetFrame(t, st, p);
      } else if t.fn in {Loadenv, Saveenv} {
        hide ValueOf, ToText, ToNumber, DoLoadenv, DoSaveenv;
        var path := ToText(ValueOf(st, ENV_PATH));
        var start, count := ToNumber(ValueOf(st, ENV_START)), ToNumber(ValueOf(st, ENV_COUNT));
        if p.Variable? {
          EnvFrame(st, path, start, count, p.name);
        }
      } else {
        hide Exec;
        QuietFrame(t, st);
      }
    }
  }

  lemma {:induction false} ExecAllHalted(ts: seq<Term>, st: State)
    requires st.status != Running
    ensures ExecAll(ts, st) == st
    decreases |ts|
  {
    if ts != [] {
      ExecAllHalted(ts[1..], st);
    }
  }

  /** A settled block means what its source means, also when it is built as a
      whole before any of it runs. */
  lemma {:induction false} BlockKeepsMeaning(block: seq<Term>, a: State, b: State, fuel: nat)
    requires Settled(block)
    requires forall i :: 0 <= i < |block| ==> SettlesAction(block[i], a, b, fuel)
    ensures ReduceAll(block, a, fuel).1 == a
    ensures ExecAll(ReduceAll(block, a, fuel).0, b) == ExecAll(block, b)
    decreases |block|
  {
    if block != [] {
      hide Reduce, Exec, CleanAction, PureNegs, Sound;
      var b1 := Exec(block[0], b);
      ActionKeepsMeaning(block[0], a, b, fuel);
      forall i | 0 < i < |block|
        ensures SettlesAction(block[i], a, b1, fuel)
      {
        forall p | p in NegReads(block[i])
          ensures SameAt(a, b1, p)
        {
          ExecFrame(block[0], b, p);
        }
      }
      assert Settled(block[1..]);
      BlockKeepsMeaning(block[1..], a, b1, fuel);
    }
  }

  lemma AgreeSelf(a: State, places: set<Place>)
    ensures Agree(a, a, places)
  {
  }

  lemma {:induction false} CondKeepsMeaning(c: Cond, st: State, fuel: nat)
    requires CleanCond(c) && SettledCond(c) && Sound(st) && fuel >= CondDepth(c)
    ensures ReduceCond(c, st, fuel).1 == EvalCond(c, st).1
    ensures EvalCond(c, st).1.status == Running ==> ReduceCond(c, st, fuel).0 == EvalCond(c, st).0
    ensures OnlyEffects(st, EvalCond(c, st).1) && Sound(EvalCond(c, st).1)
    decreases c
  {
    CondSound(c, st, fuel);
    if st.status != Running {
      CondHalted(c, st);
    } else {
      match c
      case Holds(t) =>
        HoldsKeepsMeaning(t, st, fuel);
      case Compares(op, left, right) =>
        ComparesKeepsMeaning(op, left, right, st, fuel);
      case Not(d) => CondKeepsMeaning(d, st, fuel);
      case And(d, e) =>
        CondKeepsMeaning(d, st, fuel);
        CondKeepsMeaning(e, EvalCond(d, st).1, fuel);
      case Or(d, e) =>
        CondKeepsMeaning(d, st, fuel);
        CondKeepsMeaning(e, EvalCond(d, st).1, fuel);
    }
  }

  lemma {:induction false} CondHalted(c: Cond, st: State)
    requires st.status != Running
    ensures EvalCond(c, st).1 == st
    decreases c
  {
    match c
    case Holds(t) => EvalOnlyEffects(t, st);
    case Compares(_, left, right) =>
      EvalOnlyEffects(left, st);
      EvalOnlyEffects(right, st);
    case Not(d) => CondHalted(d, st);
    case And(d, e) =>
      CondHalted(d, st);
      CondHalted(e, st);
    case Or(d, e) =>
      CondHalted(d, st);
      CondHalted(e, st);
  }

  lemma HoldsKeepsMeaning(t: Term, st: State, fuel: nat)
    requires ValueTerm(t) && PureNegs(t) && Sound(st) && st.status == Running && fuel >= Depth(t)
    ensures ReduceCond(Holds(t), st, fuel).1 == EvalCond(Holds(t), st).1
    ensures EvalCond(Holds(t), st).1.status == Running ==> ReduceCond(Holds(t), st, fuel).0 == EvalCond(Holds(t), st).0
  {
    AgreeSelf(st, NegReads(t));
    assert Settles(t, st, st, fuel);
    hide Truth, Reduce, Eval, ToBoolean;
    ReduceKeepsMeaning(t, st, st, fuel);
    ReduceBuilds(t, st, fuel);
    TruthOf(Reduce(t, st, fuel).0, st, fuel);
  }

  lemma ComparesKeepsMeaning(op: Op, left: Term, right: Term, st: State, fuel: nat)
    requires ValueTerm(left) && ValueTerm(right) && PureNegs(left) && PureNegs(right)
    requires Sound(st) && st.status == Running && fuel >= Depth(left) + Depth(right)
    ensures var c := Compares(op, left, right);
            ReduceCond(c, st, fuel).1 == EvalCond(c, st).1
            && (EvalCond(c, st).1.status == Running ==> ReduceCond(c, st, fuel).0 == EvalCond(c, st).0)
  {
    var s1 := Eval(left, st).1;
    EvalOnlyEffects(left, st);
    AgreeSelf(st, NegReads(left));
    assert Settles(left, st, st, fuel) && Settles(right, st, s1, fuel);
    hide Compare, Reduce, Eval, CompareValues, Decide;
    ReduceKeepsMeaning(left, st, st, fuel);
    ReduceKeepsMeaning(right, st, s1, fuel);
    ReduceBuilds(left, st, fuel);
    ReduceBuilds(right, st, fuel);
    CompareOf(Reduce(left, st, fuel).0, Reduce(right, st, fuel).0, st, fuel);
  }

  lemma BlockInPlace(block: seq<Term>, st: State, fuel: nat)
    requires Settled(block) && Sound(st) && fuel >= BlockDepth(block)
    requires forall i :: 0 <= i < |block| ==> CleanAction(block[i])
    ensures var (qs, s) := ReduceAll(block, st, fuel);
            s == st && RunAll(qs, st, fuel) == ExecAll(block, st)
  {
    hide Reduce, RunAll, ReduceAll, CleanAction, PureNegs, Settled, Sound;
    ReduceBlock(block, st, fuel);
    var qs := ReduceAll(block, st, fuel).0;
    forall i | 0 <= i < |qs|
      ensures RunnableAction(qs[i], st, fuel)
    {
      DepthAt(block, i);
    }
    RunAllSound(qs, st, fuel);
    if st.status == Running {
      forall i | 0 <= i < |block|
        ensures SettlesAction(block[i], st, st, fuel)
      {
        DepthAt(block, i);
        SettledAt(block, i);
        AgreeSelf(st, NegReads(block[i]));
      }
      BlockKeepsMeaning(block, st, st, fuel);
    } else {
      ExecAllHalted(qs, st);
      ExecAllHalted(block, st);
    }
  }

  lemma SettledAt(block: seq<Term>, i: nat)
    requires Settled(block) && i < |block|
    ensures PureNegs(block[i])
  {
  }

  lemma StmtKeepsMeaning(stmt: Stmt, st: State, fuel: nat)
    requires CleanStmt(stmt) && SettledStmt(stmt) && Sound(st) && fuel >= StmtDepth(stmt)
    ensures StagedStmt(stmt, st, fuel) == DirectStmt(stmt, st)
  {
    match stmt
    case Do(action) =>
      hide Reduce, Exec, RunAll, CleanAction, PureNegs, Sound, Depth;
      OneAction(action);
      BlockInPlace([action], st, fuel);
      assert [action][1..] == [];
      assert ExecAll([action], st) == ExecAll([], Exec(action, st));
    case Rule(cond, block) =>
      hide ReduceAll, ReduceCond, EvalCond, RunAll, ExecAll, CleanAction, CleanCond, SettledCond, Settled,
        CondDepth, Sound;
      CondKeepsMeaning(cond, st, fuel);
      var s1 := EvalCond(cond, st).1;
      BlockInPlace(block, s1, fuel);
      if s1.status != Running {
        ExecAllHalted(block, s1);
      }
  }

  /** The main theorem: for a clean program with settled negations, parsing and
      running in stages does exactly what running from left to right does. */
  lemma {:induction false} StagingKeepsMeaning(program: seq<Stmt>, st: State, fuel: nat)
    requires Clean(program) && Sound(st) && fuel >= ProgramDepth(program)
    requires forall i :: 0 <= i < |program| ==> SettledStmt(program[i])
    ensures StagedRun(program, st, fuel) == DirectRun(program, st)
    decreases |program|
  {
    if program != [] {
      hide StagedStmt, DirectStmt, CleanStmt, SettledStmt, StmtDepth, Sound;
      StmtKeepsMeaning(program[0], st, fuel);
      StmtSound(program[0], st, fuel);
      StagingKeepsMeaning(program[1..], DirectStmt(program[0], st), fuel);
    }
  }
}
