/** What a block does that is not run: the parser has built it all the same, and
    what is under a minus has been computed. */
module DeadBlocks {
  import opened CString
  import opened Values
  import opened Script
  import opened Staged
  import opened StagedTheorems

  /** Getting the value asks the outside world. */
  predicate Loud(t: Term) {
    match t
    case Fun(fn, ps) => IsAsking(fn) || exists i :: 0 <= i < |Used(fn, ps)| && Loud(ps[i])
    case Neg(operand) => Loud(operand)
    case _ => false
  }

  predicate IsAsking(fn: Fn) {
    fn in {Cmd, Readfile, FwupRevert}
  }

  /** Building asks it: something loud is under a minus. */
  predicate NegLoud(t: Term) {
    match t
    case Fun(_, ps) => exists i :: 0 <= i < |ps| && NegLoud(ps[i])
    case Neg(operand) => Loud(operand) || NegLoud(operand)
    case _ => false
  }

  /** What is under a minus is an expression. */
  predicate NegsAreValues(t: Term) {
    match t
    case Fun(_, ps) => forall i :: 0 <= i < |ps| ==> NegsAreValues(ps[i])
    case Neg(operand) => ValueTerm(operand)
    case _ => true
  }

  lemma {:induction false} ValueNegs(t: Term)
    requires ValueTerm(t)
    ensures NegsAreValues(t)
  {
    match t
    case Fun(_, ps) =>
      forall i | 0 <= i < |ps|
        ensures NegsAreValues(ps[i])
      {
        ValueNegs(ps[i]);
      }
    case _ =>
  }

  lemma CleanNegs(t: Term)
    requires CleanAction(t)
    ensures NegsAreValues(t)
  {
    if PlainAction(t) {
      PlainNegs(t);
    } else {
      PlainNegs(t.params[1]);
    }
  }

  lemma PlainNegs(t: Term)
    requires PlainAction(t)
    ensures NegsAreValues(t)
  {
    forall i | 0 <= i < |t.params|
      ensures NegsAreValues(t.params[i])
    {
      ValueNegs(t.params[i]);
    }
  }

  // ----- Asking is logged -----------------------------------------------------

  /** The log only grows, and if it does not then nothing has happened. */
  ghost predicate Grows(a: State, b: State) {
    a == b || |a.effects| < |b.effects|
  }

  lemma GrowsOn(a: State, b: State, c: State)
    requires Grows(a, b) && Grows(b, c)
    ensures Grows(a, c) && (a == c <==> a == b && b == c)
  {
  }

  lemma {:induction false} EvalGrows(t: Term, st: State)
    requires ValueTerm(t)
    ensures Grows(st, Eval(t, st).1)
    ensures st.status == Running ==> (Eval(t, st).1 == st <==> !Loud(t))
    decreases t, 0
  {
    if st.status != Running {
      EvalOnlyEffects(t, st);
    } else {
      match t
      case Fun(fn, ps) =>
        var qs := Used(fn, ps);
        EvalAllGrows(qs, ps, st);
        hide EvalAll, Loud, ValueTerm;
        CallGrows(fn, ps, st);
        LoudCall(fn, ps);
      case Neg(operand) => EvalGrows(operand, st);
      case _ =>
    }
  }

  lemma LoudCall(fn: Fn, ps: seq<Term>)
    ensures Loud(Fun(fn, ps)) <==> IsAsking(fn) || LoudAmong(Used(fn, ps))
  {
  }

  predicate LoudAmong(ps: seq<Term>) {
    exists i :: 0 <= i < |ps| && Loud(ps[i])
  }

  /** A call, after its parameters. */
  lemma CallGrows(fn: Fn, ps: seq<Term>, st: State)
    requires IsValueFn(fn) && |ps| >= Arity(fn) && st.status == Running
    requires Grows(st, EvalAll(Used(fn, ps), st).1)
    ensures Grows(st, Eval(Fun(fn, ps), st).1)
    ensures Eval(Fun(fn, ps), st).1 == st <==> EvalAll(Used(fn, ps), st).1 == st && !IsAsking(fn)
  {
    hide EvalAll, ToText, ToNumber, TextsOf, DoGetenv, ValueOf;
  }

  lemma {:induction false} EvalAllGrows(qs: seq<Term>, ps: seq<Term>, st: State)
    requires |qs| <= |ps| && qs == ps[..|qs|] && forall i :: 0 <= i < |ps| ==> ValueTerm(ps[i])
    ensures Grows(st, EvalAll(qs, st).1)
    ensures st.status == Running ==> (EvalAll(qs, st).1 == st <==> !LoudAmong(qs))
    decreases ps, 1
  {
    if qs != [] {
      var s1 := Eval(ps[0], st).1;
      EvalGrows(ps[0], st);
      EvalAllGrows(qs[1..], ps[1..], s1);
      LoudFirst(qs);
      hide Eval, Loud, LoudAmong;
      GrowsOn(st, s1, EvalAll(qs[1..], s1).1);
    }
  }

  lemma LoudFirst(ps: seq<Term>)
    requires ps != []
    ensures LoudAmong(ps) <==> Loud(ps[0]) || LoudAmong(ps[1..])
  {
    hide Loud;
    assert forall i :: 0 < i < |ps| ==> ps[i] == ps[1..][i - 1];
  }

  // ----- Building -------------------------------------------------------------

  predicate NegLoudAmong(ps: seq<Term>) {
    exists i :: 0 <= i < |ps| && NegLoud(ps[i])
  }

  lemma NegLoudFirst(ps: seq<Term>)
    requires ps != []
    ensures NegLoudAmong(ps) <==> NegLoud(ps[0]) || NegLoudAmong(ps[1..])
  {
    hide NegLoud;
    assert forall i :: 0 < i < |ps| ==> ps[i] == ps[1..][i - 1];
  }

  /** Building anything from a sound state, and what tells whether it asked. */
  ghost predicate Builds(st: State, s: State, asks: bool) {
    OnlyEffects(st, s) && Sound(s) && Grows(st, s) && (st.status == Running ==> (s == st <==> !asks))
  }

  lemma BuildsOn(st: State, s1: State, s2: State, a: bool, b: bool)
    requires Builds(st, s1, a) && Builds(s1, s2, b)
    ensures Builds(st, s2, a || b)
  {
    hide Sound;
    GrowsOn(st, s1, s2);
  }

  /** Building asks exactly when something loud is under a minus; if not, then what is
      built is as loud as its source. */
  lemma {:induction false} ReduceBuildsOn(t: Term, st: State, fuel: nat)
    requires NegsAreValues(t) && Sound(st) && fuel >= Depth(t)
    ensures Builds(st, Reduce(t, st, fuel).1, NegLoud(t))
    ensures st.status == Running && ValueTerm(t) && !NegLoud(t) ==> Loud(Reduce(t, st, fuel).0) == Loud(t)
    decreases t, 0
  {
    match t
    case Neg(operand) => NegBuildsOn(operand, st, fuel);
    case Fun(fn, ps) =>
      ReduceAllBuildsOn(ps, st, fuel);
      var qs := ReduceAll(ps, st, fuel).0;
      if st.status == Running && ValueTerm(t) && !NegLoud(t) {
        LoudCall(fn, ps);
        LoudCall(fn, qs);
        SameLoud(Used(fn, ps), Used(fn, qs));
      }
    case _ =>
  }

  lemma SameLoud(ps: seq<Term>, qs: seq<Term>)
    requires |ps| == |qs| && forall i :: 0 <= i < |ps| ==> Loud(qs[i]) == Loud(ps[i])
    ensures LoudAmong(ps) == LoudAmong(qs)
  {
    hide Loud;
  }

  lemma {:induction false} NegBuildsOn(operand: Term, st: State, fuel: nat)
    requires ValueTerm(operand) && Sound(st) && fuel >= Depth(operand)
    ensures Builds(st, Reduce(Neg(operand), st, fuel).1, NegLoud(Neg(operand)))
    decreases operand, 1
  {
    hide Number, Eval, Depth, Sound, ValueTerm, Built, Loud, Reduce;
    ValueNegs(operand);
    var (q, s1) := Reduce(operand, st, fuel);
    ReduceBuildsOn(operand, st, fuel);
    ReduceBuilds(operand, st, fuel);
    NumberOf(q, s1, fuel);
    EvalOnlyEffects(q, s1);
    EvalGrows(q, s1);
    NegReduces(operand, st, fuel);
  }

  lemma NegReduces(operand: Term, st: State, fuel: nat)
    ensures var (q, s1) := Reduce(operand, st, fuel);
            Reduce(Neg(operand), st, fuel).1 == Number(q, s1, fuel).1
  {
    hide Number;
  }

  lemma {:induction false} ReduceAllBuildsOn(ps: seq<Term>, st: State, fuel: nat)
    requires Sound(st) && fuel >= DepthAll(ps) && forall i :: 0 <= i < |ps| ==> NegsAreValues(ps[i])
    ensures var (qs, s) := ReduceAll(ps, st, fuel);
            && Builds(st, s, NegLoudAmong(ps))
            && (st.status == Running && !NegLoudAmong(ps) ==>
                 forall i :: 0 <= i < |ps| && ValueTerm(ps[i]) ==> Loud(qs[i]) == Loud(ps[i]))
    decreases ps, 1
  {
    if ps != [] {
      hide Reduce, Builds, NegLoud, Loud, NegLoudAmong, NegsAreValues, ValueTerm;
      var s1 := Reduce(ps[0], st, fuel).1;
      ReduceBuildsOn(ps[0], st, fuel);
      BuiltIs(st, s1, NegLoud(ps[0]));
      ReduceAllBuildsOn(ps[1..], s1, fuel);
      BuildsOn(st, s1, ReduceAll(ps[1..], s1, fuel).1, NegLoud(ps[0]), NegLoudAmong(ps[1..]));
      NegLoudFirst(ps);
    } else {
      hide Loud;
    }
  }

  lemma BuiltIs(st: State, s: State, asks: bool)
    requires Builds(st, s, asks)
    ensures Sound(s) && (st.status == Running && !asks ==> s == st)
  {
  }

  // ----- A block whose condition is false -------------------------------------

  /** Exactly: such a block does nothing if and only if nothing in it that asks the
      outside world is under a minus.  In any case it changes no variable and not the
      environment. */
  lemma DeadBlock(cond: Cond, block: seq<Term>, st: State, fuel: nat)
    requires CleanCond(cond) && forall i :: 0 <= i < |block| ==> NegsAreValues(block[i])
    requires Sound(st) && fuel >= StmtDepth(Rule(cond, block))
    requires !ReduceCond(cond, st, fuel).0 && ReduceCond(cond, st, fuel).1.status == Running
    ensures var s, t := ReduceCond(cond, st, fuel).1, StagedStmt(Rule(cond, block), st, fuel);
            OnlyEffects(s, t) && (t == s <==> !NegLoudAmong(block))
  {
    hide Reduce, ReduceCond, ReduceAll, RunAll, NegLoudAmong, CleanCond, Depth, CondDepth, Sound;
    CondSound(cond, st, fuel);
    ReduceAllBuildsOn(block, ReduceCond(cond, st, fuel).1, fuel);
  }

  /** So it is what the text says, when read from left to right, if and only if that
      condition holds. */
  lemma DeadBlockMeans(cond: Cond, block: seq<Term>, st: State, fuel: nat)
    requires CleanStmt(Rule(cond, block)) && SettledCond(cond)
    requires Sound(st) && fuel >= StmtDepth(Rule(cond, block))
    requires !EvalCond(cond, st).0 && EvalCond(cond, st).1.status == Running
    ensures StagedStmt(Rule(cond, block), st, fuel) == DirectStmt(Rule(cond, block), st) <==> !NegLoudAmong(block)
  {
    hide ReduceCond, EvalCond, ReduceAll, RunAll, ExecAll, NegLoudAmong, NegsAreValues, CleanAction, CleanCond,
      SettledCond;
    hide BlockDepth, CondDepth, Sound;
    forall i | 0 <= i < |block|
      ensures NegsAreValues(block[i])
    {
      CleanNegs(block[i]);
    }
    CondKeepsMeaning(cond, st, fuel);
    DeadBlock(cond, block, st, fuel);
  }
}
