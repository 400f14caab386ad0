/** What the built-in functions are for, told by what a script can see of them: laws
    between their calls, and what the outside world gets to see. */
module Builtins {
  import opened CString
  import opened Values
  import opened EnvBlock
  import opened EnvMap
  import opened Script
  import opened Staged
  import opened StagedTheorems

  // ----- Leaving the machine --------------------------------------------------

  function Call(fn: Fn): Term {
    Fun(fn, [])
  }

  /** The machine was left on purpose, after one last effect. */
  predicate LeftBy(fn: Fn, st: State, t: State) {
    t.status == Stopped && t.store == st.store && t.env == st.env && t.effects == st.effects + [Called(fn, [], [])]
  }

  lemma StopsNow(fn: Fn, st: State, fuel: nat)
    requires fn in {Reboot, Poweroff} && st.status == Running && fuel >= 1
    ensures LeftBy(fn, st, Exec(Call(fn), st))
    ensures Resolve(Some(Call(fn)), st, fuel).1 == Exec(Call(fn), st)
  {
    assert Resolve(Some(Call(fn)), st, fuel) == RunFunction(fn, [], st, fuel);
  }

  /** reboot() and poweroff() never come back: whatever follows them in a block, or in
      the program, has no effect. */
  lemma StopsForGood(fn: Fn, more: seq<Term>, st: State, fuel: nat)
    requires fn in {Reboot, Poweroff} && st.status == Running && fuel >= 1
    ensures LeftBy(fn, st, ExecAll([Call(fn)] + more, st))
    ensures LeftBy(fn, st, RunAll([Call(fn)] + more, st, fuel))
  {
    hide Exec, Resolve, LeftBy;
    StopsNow(fn, st, fuel);
    LeftIsHalted(fn, st, Exec(Call(fn), st));
    assert ([Call(fn)] + more)[1..] == more;
    ExecAllHalted(more, Exec(Call(fn), st));
    RunAllHalted(more, Exec(Call(fn), st), fuel);
  }

  lemma LeftIsHalted(fn: Fn, st: State, t: State)
    requires LeftBy(fn, st, t)
    ensures t.status != Running
  {
  }

  lemma {:induction false} RunAllHalted(ts: seq<Term>, st: State, fuel: nat)
    requires st.status != Running
    ensures RunAll(ts, st, fuel) == st
    decreases |ts|
  {
    if ts != [] {
      assert Resolve(Some(ts[0]), st, fuel) == (None, st);
      RunAllHalted(ts[1..], st, fuel);
    }
  }

  lemma {:induction false} ReduceHalted(t: Term, st: State, fuel: nat)
    requires st.status != Running
    ensures Reduce(t, st, fuel).1 == st
    decreases t, 0
  {
    match t
    case Fun(_, ps) => ReduceAllHalted(ps, st, fuel);
    case Neg(operand) =>
      ReduceHalted(operand, st, fuel);
      assert Resolve(Some(Reduce(operand, st, fuel).0), st, fuel) == (None, st);
    case _ =>
  }

  lemma {:induction false} ReduceAllHalted(ps: seq<Term>, st: State, fuel: nat)
    requires st.status != Running
    ensures ReduceAll(ps, st, fuel).1 == st
    decreases ps, 1
  {
    if ps != [] {
      hide Reduce;
      ReduceHalted(ps[0], st, fuel);
      ReduceAllHalted(ps[1..], st, fuel);
    }
  }

  lemma {:induction false} ReduceCondHalted(c: Cond, st: State, fuel: nat)
    requires st.status != Running
    ensures ReduceCond(c, st, fuel).1 == st
    decreases c
  {
    match c
    case Holds(t) => ReduceHalted(t, st, fuel);
    case Compares(_, left, right) =>
      ReduceHalted(left, st, fuel);
      ReduceHalted(right, st, fuel);
    case Not(d) => ReduceCondHalted(d, st, fuel);
    case And(d, e) =>
      ReduceCondHalted(d, st, fuel);
      ReduceCondHalted(e, st, fuel);
    case Or(d, e) =>
      ReduceCondHalted(d, st, fuel);
      ReduceCondHalted(e, st, fuel);
  }

  /** A machine that was left does nothing any more, whatever program is parsed. */
  lemma {:induction false} RunHalted(program: seq<Stmt>, st: State, fuel: nat)
    requires st.status != Running
    ensures StagedRun(program, st, fuel) == st
    decreases |program|
  {
    if program != [] {
      StmtHalted(program[0], st, fuel);
      hide StagedStmt;
      RunHalted(program[1..], st, fuel);
    }
  }

  lemma StmtHalted(stmt: Stmt, st: State, fuel: nat)
    requires st.status != Running
    ensures StagedStmt(stmt, st, fuel) == st
  {
    hide ReduceAll, ReduceCond, RunAll;
    match stmt
    case Do(action) =>
      ReduceAllHalted([action], st, fuel);
      RunAllHalted(ReduceAll([action], st, fuel).0, st, fuel);
    case Rule(cond, block) =>
      ReduceCondHalted(cond, st, fuel);
      ReduceAllHalted(block, st, fuel);
      RunAllHalted(ReduceAll(block, st, fuel).0, st, fuel);
  }

  lemma ProgramStops(fn: Fn, program: seq<Stmt>, st: State, fuel: nat)
    requires fn in {Reboot, Poweroff} && st.status == Running && fuel >= 1
    ensures LeftBy(fn, st, StagedRun([Do(Call(fn))] + program, st, fuel))
  {
    var stmt := Do(Call(fn));
    assert ([stmt] + program)[1..] == program;
    assert ReduceAll([Call(fn)], st, fuel) == ([Call(fn)], st) by {
      assert [Call(fn)][1..] == [];
      assert Reduce(Call(fn), st, fuel) == (Call(fn), st);
      assert [Call(fn)] + [] == [Call(fn)];
      assert ReduceAll([], st, fuel) == ([], st);
    }
    hide Exec, Resolve, LeftBy, RunAll, ReduceAll;
    assert [Call(fn)] + [] == [Call(fn)];
    StopsForGood(fn, [], st, fuel);
    var s := StagedStmt(stmt, st, fuel);
    LeftIsHalted(fn, st, s);
    RunHalted(program, s, fuel);
  }

  /** `{ fwup_revert() reboot() }`: whether or not the revert works, nothing runs after
      it, and the reboot is asked for only when it failed. */
  lemma RevertOrReboot(more: seq<Term>, st: State)
    requires st.status == Running
    ensures var path := ToText(ValueOf(st, ENV_PATH));
            var tried := st.effects + [Called(FwupRevert, [path], [])];
            var t := ExecAll([Call(FwupRevert), Call(Reboot)] + more, st);
            t.status == Stopped
            && t.effects == if st.world.works(tried) then tried else tried + [Called(Reboot, [], [])]
  {
    var s := Exec(Call(FwupRevert), st);
    EvalAllNothing(st);
    assert s == DoRevert(st, ToText(ValueOf(st, ENV_PATH))).1;
    var rest := [Call(Reboot)] + more;
    assert ([Call(FwupRevert), Call(Reboot)] + more)[1..] == rest;
    hide Exec;
    if s.status == Running {
      StopsForGood(Reboot, more, s, 1);
    } else {
      ExecAllHalted(rest, s);
    }
  }

  // ----- What is printed ------------------------------------------------------

  /** The text that has come out, all prints together. */
  function Output(effects: seq<Effect>): seq<char>
    decreases |effects|
  {
    if effects == [] then []
    else
      var last := effects[|effects| - 1];
      Output(effects[..|effects| - 1])
      + if last.Called? && last.fn == Print && |last.texts| == 1 then last.texts[0] else []
  }

  function Joined(vs: seq<Value>): seq<char> {
    if vs == [] then [] else ToText(vs[0]) + Joined(vs[1..])
  }

  function Literals(vs: seq<Value>): (ps: seq<Term>)
    ensures |ps| == |vs| && forall i :: 0 <= i < |vs| ==> ps[i] == Lit(vs[i])
  {
    if vs == [] then [] else [Lit(vs[0])] + Literals(vs[1..])
  }

  lemma PrintAdds(st: State, text: cstring)
    ensures Output(DoPrint(st, text).effects) == Output(st.effects) + text
  {
    var e := Called(Print, [text], []);
    assert (st.effects + [e])[..|st.effects|] == st.effects;
  }

  lemma {:induction false} PrintsJoined(vs: seq<Value>, st: State)
    requires st.status == Running
    ensures var t := ExecPrints(Literals(vs), st);
            Output(t.effects) == Output(st.effects) + Joined(vs) && t.status == Running
            && t.store == st.store && t.env == st.env && |t.effects| == |st.effects| + |vs|
    decreases |vs|
  {
    hide Output, ToText;
    if vs == [] {
      assert Output(st.effects) + Joined(vs) == Output(st.effects);
    } else {
      var text := ToText(vs[0]);
      PrintAdds(st, text);
      PrintsFirst(vs, st);
      PrintsJoined(vs[1..], DoPrint(st, text));
      hide ExecPrints, Literals;
      assert (Output(st.effects) + text) + Joined(vs[1..]) == Output(st.effects) + Joined(vs);
    }
  }

  lemma PrintsFirst(vs: seq<Value>, st: State)
    requires st.status == Running && vs != []
    ensures ExecPrints(Literals(vs), st) == ExecPrints(Literals(vs[1..]), DoPrint(st, ToText(vs[0])))
  {
    hide ToText;
    var ps := Literals(vs);
    assert ps[1..] == Literals(vs[1..]);
    assert Eval(ps[0], st) == (vs[0], st);
  }

  /** print() writes its parameters as texts, one after the other, and a newline. */
  lemma PrintWrites(vs: seq<Value>, st: State)
    requires st.status == Running && vs != []
    ensures var t := Exec(Fun(Print, Literals(vs)), st);
            Output(t.effects) == Output(st.effects) + Joined(vs) + "\n"
            && t.status == Running && t.store == st.store && t.env == st.env
  {
    hide Output, ExecPrints, Joined;
    PrintsJoined(vs, st);
    PrintAdds(ExecPrints(Literals(vs), st), "\n");
  }

  /** The texts of literals and variables, one after the other. */
  function TextsIn(ps: seq<Term>, st: State): seq<char> {
    if ps == [] then [] else ToText(Eval(ps[0], st).0) + TextsIn(ps[1..], st)
  }

  lemma {:induction false} PrintsTexts(ps: seq<Term>, st: State, now: State)
    requires now.status == Running && now.store == st.store
    requires forall i :: 0 <= i < |ps| ==> ps[i].Lit? || ps[i].Ident?
    ensures var t := ExecPrints(ps, now);
            Output(t.effects) == Output(now.effects) + TextsIn(ps, st) && t.status == Running && t.store == st.store
    decreases |ps|
  {
    hide Output, ToText;
    if ps == [] {
      assert Output(now.effects) + TextsIn(ps, st) == Output(now.effects);
    } else {
      var text := ToText(Eval(ps[0], st).0);
      assert Eval(ps[0], now) == (Eval(ps[0], st).0, now);
      hide Eval;
      PrintAdds(now, text);
      PrintsTexts(ps[1..], st, DoPrint(now, text));
      assert (Output(now.effects) + text) + TextsIn(ps[1..], st) == Output(now.effects) + TextsIn(ps, st);
    }
  }

  /** print() of literals and variables. */
  lemma PrintSays(ps: seq<Term>, st: State)
    requires st.status == Running && ps != [] && forall i :: 0 <= i < |ps| ==> ps[i].Lit? || ps[i].Ident?
    ensures var t := Exec(Fun(Print, ps), st);
            Output(t.effects) == Output(st.effects) + TextsIn(ps, st) + "\n"
            && t.status == Running && t.store == st.store
  {
    hide Output, ExecPrints, TextsIn;
    PrintsTexts(ps, st, st);
    PrintAdds(ExecPrints(ps, st), "\n");
  }

  /** vars() changes nothing and shows something, unless a variable holds NULL. */
  lemma VarsShows(st: State)
    requires st.status == Running
    ensures var t := Exec(Call(Vars), st);
            if forall n :: n in st.store ==> st.store[n].Some?
            then t == st.(effects := st.effects + [Called(Vars, [], [])])
            else t == st.(status := Crashed)
  {
  }

  // ----- What the outside world is asked --------------------------------------

  lemma {:induction false} LiteralsAre(vs: seq<Value>, st: State)
    ensures EvalAll(Literals(vs), st) == (vs, st)
  {
    if vs != [] {
      assert Literals(vs)[1..] == Literals(vs[1..]);
      LiteralsAre(vs[1..], st);
      assert [vs[0]] + vs[1..] == vs;
    }
  }

  lemma {:induction false} TextsAre(vs: seq<Value>)
    ensures forall i :: 0 <= i < |vs| ==> TextsOf(vs)[i] == ToText(vs[i])
  {
    if vs != [] {
      TextsAre(vs[1..]);
    }
  }

  /** cmd() passes its parameters as texts, in their order and fifteen at most, and
      readfile() its first one; the value is the text that comes back. */
  lemma AskPasses(fn: Fn, vs: seq<Value>, st: State)
    requires fn in {Cmd, Readfile} && st.status == Running && vs != []
    ensures var (v, t) := Eval(Fun(fn, Literals(vs)), st);
            |t.effects| == |st.effects| + 1 && t == st.(effects := t.effects) && t.effects[..|st.effects|] == st.effects
            && v == Str(st.world.text(t.effects))
            && var last := t.effects[|st.effects|];
               last.Called? && last.fn == fn && last.numbers == []
               && |last.texts| == (if fn == Readfile then 1 else if |vs| <= 15 then |vs| else 15)
               && forall i :: 0 <= i < |last.texts| ==> last.texts[i] == ToText(vs[i])
  {
    var n := if fn == Readfile then 1 else if |vs| <= 15 then |vs| else 15;
    UsedAre(fn, vs, n);
    hide *;
    AskIs(fn, vs, vs[..n], st);
    AskLogs(st, fn, TextsOf(vs[..n]));
    TextsAre(vs[..n]);
  }

  lemma UsedAre(fn: Fn, vs: seq<Value>, n: nat)
    requires fn in {Cmd, Readfile} && vs != []
    requires n == if fn == Readfile then 1 else if |vs| <= 15 then |vs| else 15
    ensures Used(fn, Literals(vs)) == Literals(vs[..n])
  {
    UsedCount(fn, Literals(vs));
    hide Used, Literals;
    var us, ls := Used(fn, Literals(vs)), Literals(vs[..n]);
    assert forall i :: 0 <= i < n ==> us[i] == ls[i];
  }

  lemma UsedCount(fn: Fn, ps: seq<Term>)
    requires fn in {Cmd, Readfile} && ps != []
    ensures |Used(fn, ps)| == if fn == Readfile then 1 else if |ps| <= 15 then |ps| else 15
  {
  }

  lemma AskLogs(st: State, fn: Fn, texts: seq<cstring>)
    ensures var (v, t) := DoAsk(st, fn, texts);
            && t == st.(effects := t.effects) && v == Str(st.world.text(t.effects))
            && |t.effects| == |st.effects| + 1 && t.effects[..|st.effects|] == st.effects
            && t.effects[|st.effects|] == Called(fn, texts, [])
  {
  }

  lemma AskIs(fn: Fn, vs: seq<Value>, us: seq<Value>, st: State)
    requires fn in {Cmd, Readfile} && st.status == Running && us != []
    requires Used(fn, Literals(vs)) == Literals(us)
    ensures Eval(Fun(fn, Literals(vs)), st) == DoAsk(st, fn, TextsOf(us))
  {
    hide EvalAll, Used, Literals, TextsOf, DoAsk;
    LiteralsAre(us, st);
  }

  lemma SleepAsks(v: Value, st: State)
    requires st.status == Running
    ensures Exec(Fun(Sleep, [Lit(v)]), st) == st.(effects := st.effects + [Called(Sleep, [], [ToNumber(v)])])
  {
    assert Eval(Lit(v), st) == (v, st);
  }

  // ----- Variables and the environment ----------------------------------------

  /** A variable has the value that it was assigned last, and no other changes. */
  lemma AssignedIsRead(name: cstring, t: Term, st: State, other: cstring)
    requires st.status == Running && !IsSetenv(t) && Eval(t, st).1.status == Running
    ensures var s := Exec(Assigned(name, t), st);
            ValueOf(s, other) == (if other == name then Eval(t, st).0 else ValueOf(st, other)) && s.env == st.env
  {
    EvalOnlyEffects(t, st);
    hide Eval;
  }

  /** A variable that was never set is the empty text. */
  lemma UnsetIsEmpty(name: cstring, st: State, fuel: nat)
    requires name !in st.store && st.status == Running && fuel >= 1
    ensures Eval(Ident(name), st) == (Str(""), st)
    ensures Resolve(Some(Ident(name)), st, fuel) == (Some(Lit(Str(""))), st)
  {
    assert Resolve(Some(Lit(Str(""))), st, fuel - 1) == (Some(Lit(Str(""))), st);
  }

  function GetenvCall(name: cstring): Term {
    Fun(Getenv, [Lit(Str(name))])
  }

  function SetenvCall(name: cstring, v: Value): Term {
    Fun(Setenv, [Lit(Str(name)), Lit(v)])
  }

  lemma GetenvIs(name: cstring, st: State)
    ensures Eval(GetenvCall(name), st) == (DoGetenv(st, name), st)
  {
    EvalOne(Lit(Str(name)), st);
    assert Used(Getenv, [Lit(Str(name))]) == [Lit(Str(name))];
    hide DoGetenv;
  }

  /** getenv gives the text that setenv was given last, and the empty text for what is
      not set; other names keep theirs. */
  lemma SetenvIsRead(name: cstring, v: Value, st: State, other: cstring)
    requires st.status == Running
    ensures var t := Exec(SetenvCall(name, v), st);
            && Eval(GetenvCall(other), t).0
               == (if other == name then Str(ToText(v)) else Eval(GetenvCall(other), st).0)
            && ValueOf(t, ENV_MODIFIED) == Bool(true) && t.effects == st.effects && t.status == Running
    ensures st.env == [] ==> Eval(GetenvCall(other), st).0 == Str("")
  {
    SetenvDoes(name, v, st);
    assert Meaning([]) == map[];
    hide Meaning, SetPair, ToText, Exec, Eval, GetenvCall, SetenvCall;
    SetPairMeaning(st.env, name, ToText(v));
    GetenvIs(other, Exec(SetenvCall(name, v), st));
    GetenvIs(other, st);
  }

  lemma SetenvDoes(name: cstring, v: Value, st: State)
    requires st.status == Running
    ensures Exec(SetenvCall(name, v), st) == DoSetenv(st, name, ToText(v))
  {
    hide DoSetenv;
    assert ToText(Str(name)) == name;
  }

  lemma EnvFlagNames()
    ensures ENV_LOADED != ENV_MODIFIED
  {
    assert |ENV_LOADED| != |ENV_MODIFIED|;
  }

  /** loadenv: a block that was read replaces the environment, and the flags say whether
      it was in order; if there is none, nothing changes. */
  lemma LoadenvReports(st: State)
    requires st.status == Running
    ensures var t := Exec(Call(Loadenv), st);
            var block := st.world.block(t.effects);
            |t.effects| == |st.effects| + 1
            && match block
               case None => t.store == st.store && t.env == st.env
               case Some(b) =>
                 |b| >= 4 ==>
                   t.env == ReadBlock(b).vars && t.status == Running && ValueOf(t, ENV_MODIFIED) == Bool(false)
                   && ValueOf(t, ENV_LOADED) == Bool(ReadBlock(b).ok)
  {
    EnvFlagNames();
    hide ReadBlock, ToText, ToNumber;
  }

  /** saveenv: a block goes out exactly when the device opens, there is a block to write,
      it has room, and the device takes it; it has the size that was asked for, and only
      then the environment is unmodified again. */
  lemma SaveenvReports(st: State)
    requires st.status == Running
    ensures var t := Exec(Call(Saveenv), st);
            var n := |t.effects| - |st.effects|;
            && 1 <= n <= 2 && t.effects[|st.effects|].Called? && t.effects[|st.effects|].fn == Saveenv
            && (n == 2 ==>
                 && ValueOf(t, ENV_MODIFIED) == Bool(false) && t.effects[|st.effects| + 1].Saved?
                 && |t.effects[|st.effects| + 1].block| == 512 * ToNumber(ValueOf(st, ENV_COUNT)))
            && (n == 1 ==> t.store == st.store)
  {
    hide SortPairs, ToText, ToNumber;
  }

  lemma SaveenvSends(st: State)
    requires st.status == Running
    ensures var t := Exec(Call(Saveenv), st);
            var size, call := 512 * ToNumber(ValueOf(st, ENV_COUNT)), t.effects[..|st.effects| + 1];
            |t.effects| == |st.effects| + 2
            <==> st.world.opens(call) && size > 0 && HasRoom(SortPairs(st.env), size) && st.world.works(call)
  {
    hide SortPairs, ToText, ToNumber, HasRoom, Block;
    var path, start := ToText(ValueOf(st, ENV_PATH)), ToNumber(ValueOf(st, ENV_START));
    var e := st.effects + [Called(Saveenv, [path], [start, ToNumber(ValueOf(st, ENV_COUNT))])];
    assert e[..|st.effects| + 1] == e;
    assert forall more: seq<Effect> :: (e + more)[..|st.effects| + 1] == e;
  }

  // ----- Arithmetic and logic -------------------------------------------------

  function Number2(fn: Fn, m: int, n: int): Term {
    Fun(fn, [Lit(Num(m)), Lit(Num(n))])
  }

  lemma SumIs(m: int, n: int, st: State)
    ensures Eval(Number2(Add, m, n), st) == (Num(ToInt(m + n)), st)
    ensures Eval(Number2(Subtract, m, n), st) == (Num(ToInt(m - n)), st)
  {
    var ps := [Lit(Num(m)), Lit(Num(n))];
    assert ps[1..] == [Lit(Num(n))];
    EvalOne(Lit(Num(n)), st);
    assert EvalAll(ps, st) == ([Num(m)] + [Num(n)], st);
    assert [Num(m)] + [Num(n)] == [Num(m), Num(n)];
  }

  /** The laws of + and - on C ints that wrap around. */
  lemma SumLaws(m: int, n: int, st: State)
    requires IsInt(m) && IsInt(n)
    ensures Eval(Number2(Add, m, n), st).0 == Eval(Number2(Add, n, m), st).0
    ensures Eval(Number2(Add, m, 0), st).0 == Num(m) && Eval(Number2(Subtract, m, m), st).0 == Num(0)
    ensures Eval(Number2(Subtract, Eval(Number2(Add, m, n), st).0.n, n), st).0 == Num(m)
    ensures IsInt(m + n) ==> Eval(Number2(Add, m, n), st).0 == Num(m + n)
    ensures IsInt(m - n) ==> Eval(Number2(Subtract, m, n), st).0 == Num(m - n)
  {
    hide Eval, Number2, ToInt;
    SumIs(m, n, st);
    SumIs(n, m, st);
    SumIs(m, 0, st);
    SumIs(m, m, st);
    SumIs(ToInt(m + n), n, st);
    ToIntUndoes(m, n);
  }

  lemma ToIntUndoes(m: int, n: int)
    requires IsInt(m) && IsInt(n)
    ensures ToInt(ToInt(m + n) - n) == m
  {
    var w := if m + n >= INT_LIMIT then -1 else if m + n < -INT_LIMIT then 1 else 0;
    assert ToInt(m + n) == m + n + w * INT_RANGE;
    assert ToInt(m + w * INT_RANGE) == m;
  }

  /** A minus undoes itself, and is the difference to zero. */
  lemma MinusLaws(n: int, st: State)
    requires IsInt(n)
    ensures Eval(Neg(Neg(Lit(Num(n)))), st) == (Num(n), st)
    ensures Eval(Neg(Lit(Num(n))), st) == Eval(Number2(Subtract, 0, n), st)
  {
    hide Eval, Number2, ToNumber, ToInt;
    SumIs(0, n, st);
    LiteralIs(Num(n), st);
    MinusIs(Lit(Num(n)), st);
    MinusIs(Neg(Lit(Num(n))), st);
    NumberIs(n);
    NumberIs(ToInt(-n));
    MinusTwice(n);
  }

  lemma LiteralIs(v: Value, st: State)
    ensures Eval(Lit(v), st) == (v, st)
  {
  }

  lemma NumberIs(n: int)
    ensures ToNumber(Num(n)) == n
  {
  }

  lemma MinusTwice(n: int)
    requires IsInt(n)
    ensures ToInt(-ToInt(-n)) == n && ToInt(0 - n) == ToInt(-n)
  {
  }

  lemma MinusIs(t: Term, st: State)
    ensures Eval(Neg(t), st) == (Num(ToInt(-ToNumber(Eval(t, st).0))), Eval(t, st).1)
  {
    hide ToNumber, ToInt;
  }

  /** `&&`, `||` and `!` of conditions that ask nothing. */
  lemma LogicLaws(c: Cond, d: Cond, st: State, p: bool, q: bool)
    requires EvalCond(c, st) == (p, st) && EvalCond(d, st) == (q, st)
    ensures EvalCond(And(c, d), st) == (p && q, st) && EvalCond(Or(c, d), st) == (p || q, st)
    ensures EvalCond(Not(c), st) == (!p, st)
  {
  }

  /** The law of De Morgan, with all that the conditions ask. */
  lemma DeMorgan(c: Cond, d: Cond, st: State)
    ensures EvalCond(Not(And(c, d)), st) == EvalCond(Or(Not(c), Not(d)), st)
    ensures EvalCond(Not(Or(c, d)), st) == EvalCond(And(Not(c), Not(d)), st)
  {
  }
}
