/** Staged evaluation (src/parser.y): conditions and unary minus run while the
    text is parsed, everything else is built as terms and runs afterwards.  The
    direct semantics here runs the text from left to right instead. */
module Staged {
  import opened CString
  import opened Values
  import opened EnvBlock
  import opened EnvMap
  import opened Script

  // ----- Source text ----------------------------------------------------------

  datatype Op = Ne | Lt | Le | Eq | Ge | Gt

  datatype Cond =
    | Holds(term: Term)
    | Compares(op: Op, left: Term, right: Term)
    | Not(cond: Cond)
    | And(first: Cond, second: Cond)
    | Or(first: Cond, second: Cond)

  /** An action on its own, or a rule with its block. */
  datatype Stmt = Do(action: Term) | Rule(cond: Cond, block: seq<Term>)

  predicate Decide(op: Op, sign: int) {
    match op
    case Ne => sign != 0
    case Lt => sign < 0
    case Le => sign <= 0
    case Eq => sign == 0
    case Ge => sign >= 0
    case Gt => sign > 0
  }

  /** What an operator is for. */
  predicate Means(op: Op, less: bool, equal: bool) {
    match op
    case Ne => !equal
    case Lt => less
    case Le => less || equal
    case Eq => equal
    case Ge => !less
    case Gt => !less && !equal
  }

  /** Numbers are compared by subtracting: right exactly when the difference is a
      C int. */
  lemma NumbersCompare(w: World, m: int, n: int)
    requires IsInt(m) && IsInt(n)
    ensures (forall op :: Decide(op, CompareValues(w, Num(m), Num(n))) == Means(op, m < n, m == n)) <==> IsInt(m - n)
  {
    var sign := CompareValues(w, Num(m), Num(n));
    if !IsInt(m - n) {
      assert Decide(Lt, sign) != Means(Lt, m < n, m == n);
    }
  }

  lemma TextsCompare(w: World, s: cstring, t: cstring, op: Op)
    ensures Decide(op, CompareValues(w, Str(s), Str(t))) == Means(op, StrLess(s, t), s == t)
  {
    StrLessTotal(s, t);
  }

  lemma TruthsCompare(w: World, p: bool, q: bool, op: Op)
    ensures Decide(op, CompareValues(w, Bool(p), Bool(q))) == Means(op, !p && q, p == q)
  {
  }

  // ----- The parser's actions -------------------------------------------------

  /** Building a term: only a unary minus runs anything. */
  function Reduce(t: Term, st: State, fuel: nat): (Term, State)
    decreases t, 0
  {
    match t
    case Ident(_) => (t, st)
    case Lit(_) => (t, st)
    case Fun(fn, ps) =>
      var (qs, s1) := ReduceAll(ps, st, fuel);
      (Fun(fn, qs), s1)
    case Neg(operand) =>
      var (q, s1) := Reduce(operand, st, fuel);
      var (n, s2) := Number(q, s1, fuel);
      (Lit(Num(ToInt(-n))), s2)
  }

  function ReduceAll(ps: seq<Term>, st: State, fuel: nat): (r: (seq<Term>, State))
    ensures |r.0| == |ps|
    decreases ps, 1
  {
    if ps == [] then ([], st)
    else
      var (q, s1) := Reduce(ps[0], st, fuel);
      var (qs, s2) := ReduceAll(ps[1..], s1, fuel);
      ([q] + qs, s2)
  }

  /** A condition is a truth value as soon as it is parsed. */
  function ReduceCond(c: Cond, st: State, fuel: nat): (bool, State) {
    match c
    case Holds(t) =>
      var (q, s1) := Reduce(t, st, fuel);
      Truth(q, s1, fuel)
    case Compares(op, left, right) =>
      var (l, s1) := Reduce(left, st, fuel);
      var (r, s2) := Reduce(right, s1, fuel);
      var (sign, s3) := Compare(l, r, s2, fuel);
      (Decide(op, sign), s3)
    case Not(d) =>
      var (b, s1) := ReduceCond(d, st, fuel);
      (!b, s1)
    case And(d, e) =>
      var (a, s1) := ReduceCond(d, st, fuel);
      var (b, s2) := ReduceCond(e, s1, fuel);
      (a && b, s2)
    case Or(d, e) =>
      var (a, s1) := ReduceCond(d, st, fuel);
      var (b, s2) := ReduceCond(e, s1, fuel);
      (a || b, s2)
  }

  /** run_functions */
  function RunAll(ts: seq<Term>, st: State, fuel: nat): State {
    if ts == [] then st
    else
      var (r, s1) := Resolve(Some(ts[0]), st, fuel);
      RunAll(ts[1..], s1, fuel)
  }

  /** A block is built as a whole, whether or not its condition held. */
  function StagedStmt(stmt: Stmt, st: State, fuel: nat): State {
    match stmt
    case Do(action) =>
      var (built, s1) := ReduceAll([action], st, fuel);
      RunAll(built, s1, fuel)
    case Rule(cond, block) =>
      var (b, s1) := ReduceCond(cond, st, fuel);
      var (built, s2) := ReduceAll(block, s1, fuel);
      if b then RunAll(built, s2, fuel) else s2
  }

  function StagedRun(program: seq<Stmt>, st: State, fuel: nat): State {
    if program == [] then st else StagedRun(program[1..], StagedStmt(program[0], st, fuel), fuel)
  }

  // ----- Direct semantics -----------------------------------------------------

  function ValueOf(st: State, name: cstring): Value {
    match GetVariable(st, name)
    case Some(Lit(v)) => v
    case _ => Str("")
  }

  const NOTHING: Value := Str("")

  /** An expression: its value, and what getting it did. */
  function Eval(t: Term, st: State): (Value, State)
    decreases t, 0
  {
    match t
    case Ident(name) => (ValueOf(st, name), st)
    case Lit(v) => (v, st)
    case Neg(operand) =>
      var (v, s1) := Eval(operand, st);
      (Num(ToInt(-ToNumber(v))), s1)
    case Fun(fn, ps) =>
      var (vs, s1) := EvalAll(Used(fn, ps), st);
      if |vs| < Arity(fn) then (NOTHING, s1)
      else
        match fn
        case Add => (Num(ToInt(ToNumber(vs[0]) + ToNumber(vs[1]))), s1)
        case Subtract => (Num(ToInt(ToNumber(vs[0]) - ToNumber(vs[1]))), s1)
        case Getenv => (DoGetenv(s1, ToText(vs[0])), s1)
        case _ =>
          if s1.status != Running then (NOTHING, s1)
          else if fn == Cmd || fn == Readfile then DoAsk(s1, fn, TextsOf(vs))
          else if fn == FwupRevert then DoRevert(s1, ToText(ValueOf(s1, ENV_PATH)))
          else (NOTHING, s1)
  }

  function EvalAll(ps: seq<Term>, st: State): (r: (seq<Value>, State))
    ensures |r.0| == |ps|
    decreases ps, 1
  {
    if ps == [] then ([], st)
    else
      var (v, s1) := Eval(ps[0], st);
      var (vs, s2) := EvalAll(ps[1..], s1);
      ([v] + vs, s2)
  }

  function TextsOf(vs: seq<Value>): (r: seq<cstring>)
    ensures |r| == |vs|
  {
    if vs == [] then [] else [ToText(vs[0])] + TextsOf(vs[1..])
  }

  function ExecPrints(ps: seq<Term>, st: State): State {
    if ps == [] then st
    else
      var (v, s1) := Eval(ps[0], st);
      if s1.status != Running then s1 else ExecPrints(ps[1..], DoPrint(s1, ToText(v)))
  }

  /** setenv, with the value of its second parameter. */
  function RunSetenv(ps: seq<Term>, st: State): (Value, State)
    requires |ps| >= 2
  {
    var (v, s1) := Eval(ps[0], st);
    var (w, s2) := Eval(ps[1], s1);
    (w, if s2.status != Running then s2 else DoSetenv(s2, ToText(v), ToText(w)))
  }

  predicate IsSetenv(t: Term) {
    t.Fun? && t.fn == Setenv && |t.params| >= 2
  }

  /** An action for its effect.  Its parameters come first. */
  function Exec(t: Term, st: State): State {
    if !t.Fun? || st.status != Running || |t.params| < Arity(t.fn) then st
    else
      match t.fn
      case Assign =>
        var (v, s1) := if IsSetenv(t.params[1]) then RunSetenv(t.params[1].params, st) else Eval(t.params[1], st);
        if s1.status != Running || !t.params[0].Ident? then s1
        else SetVariable(s1, t.params[0].name, Some(Lit(v)))
      case Print =>
        var s1 := ExecPrints(t.params, st);
        if s1.status != Running then s1 else DoPrint(s1, "\n")
      case Vars => DoVars(st)
      case Reboot => DoStop(st, Reboot)
      case Poweroff => DoStop(st, Poweroff)
      case Loadenv =>
        var start, count := ToNumber(ValueOf(st, ENV_START)), ToNumber(ValueOf(st, ENV_COUNT));
        DoLoadenv(st, ToText(ValueOf(st, ENV_PATH)), start, count)
      case Saveenv =>
        var start, count := ToNumber(ValueOf(st, ENV_START)), ToNumber(ValueOf(st, ENV_COUNT));
        DoSaveenv(st, ToText(ValueOf(st, ENV_PATH)), start, count)
      case Sleep =>
        var (v, s1) := Eval(t.params[0], st);
        if s1.status != Running then s1 else Log(s1, Called(Sleep, [], [ToNumber(v)]))
      case Setenv => RunSetenv(t.params, st).1
      case _ => Eval(t, st).1
  }

  function ExecAll(ts: seq<Term>, st: State): State {
    if ts == [] then st else ExecAll(ts[1..], Exec(ts[0], st))
  }

  lemma ExecTwo(a: Term, b: Term, st: State)
    ensures ExecAll([a, b], st) == Exec(b, Exec(a, st))
  {
    hide Exec;
    assert [a, b][1..] == [b] && [b][1..] == [];
    assert ExecAll([b], Exec(a, st)) == ExecAll([], Exec(b, Exec(a, st)));
  }

  /** Both operands of && and || run, as they do in the parser. */
  function EvalCond(c: Cond, st: State): (bool, State) {
    match c
    case Holds(t) =>
      var (v, s1) := Eval(t, st);
      (ToBoolean(v), s1)
    case Compares(op, left, right) =>
      var (v, s1) := Eval(left, st);
      var (w, s2) := Eval(right, s1);
      (Decide(op, CompareValues(st.world, v, w)), s2)
    case Not(d) =>
      var (b, s1) := EvalCond(d, st);
      (!b, s1)
    case And(d, e) =>
      var (a, s1) := EvalCond(d, st);
      var (b, s2) := EvalCond(e, s1);
      (a && b, s2)
    case Or(d, e) =>
      var (a, s1) := EvalCond(d, st);
      var (b, s2) := EvalCond(e, s1);
      (a || b, s2)
  }

  function DirectStmt(stmt: Stmt, st: State): State {
    match stmt
    case Do(action) => Exec(action, st)
    case Rule(cond, block) =>
      var (b, s1) := EvalCond(cond, st);
      if b then ExecAll(block, s1) else s1
  }

  function DirectRun(program: seq<Stmt>, st: State): State {
    if program == [] then st else DirectRun(program[1..], DirectStmt(program[0], st))
  }

  // ----- Clean programs -------------------------------------------------------

  /** Functions whose result is a value, whatever happens. */
  predicate IsValueFn(fn: Fn) {
    fn in {Add, Subtract, Getenv, Cmd, Readfile, FwupRevert}
  }

  predicate ValueTerm(t: Term) {
    match t
    case Ident(_) => true
    case Lit(_) => true
    case Neg(operand) => ValueTerm(operand)
    case Fun(fn, ps) => IsValueFn(fn) && |ps| >= Arity(fn) && forall i :: 0 <= i < |ps| ==> ValueTerm(ps[i])
  }

  /** An assignment of a value, or a call with values. */
  predicate PlainAction(t: Term) {
    && t.Fun? && |t.params| >= Arity(t.fn)
    && (t.fn == Assign ==> t.params[0].Ident?)
    && forall i :: 0 <= i < |t.params| ==> ValueTerm(t.params[i])
  }

  /** setenv returns its second parameter as it is, so its result is a value when
      that one is: written as one, or computed by the parser. */
  predicate ReturnsValue(t: Term) {
    IsSetenv(t) && PlainAction(t) && (t.params[1].Lit? || t.params[1].Neg?)
  }

  predicate AssignsSetenv(t: Term) {
    t.Fun? && t.fn == Assign && |t.params| == 2 && t.params[0].Ident? && ReturnsValue(t.params[1])
  }

  /** An action that leaves values in all variables. */
  predicate CleanAction(t: Term) {
    PlainAction(t) || AssignsSetenv(t)
  }

  predicate CleanCond(c: Cond) {
    match c
    case Holds(t) => ValueTerm(t)
    case Compares(_, left, right) => ValueTerm(left) && ValueTerm(right)
    case Not(d) => CleanCond(d)
    case And(d, e) => CleanCond(d) && CleanCond(e)
    case Or(d, e) => CleanCond(d) && CleanCond(e)
  }

  predicate CleanStmt(stmt: Stmt) {
    match stmt
    case Do(action) => CleanAction(action)
    case Rule(cond, block) => CleanCond(cond) && forall i :: 0 <= i < |block| ==> CleanAction(block[i])
  }

  predicate Clean(program: seq<Stmt>) {
    forall i :: 0 <= i < |program| ==> CleanStmt(program[i])
  }

  /** What the parser hands to the machine. */
  predicate Built(t: Term) {
    match t
    case Fun(_, ps) => forall i :: 0 <= i < |ps| ==> Built(ps[i])
    case Neg(_) => false
    case _ => true
  }

  /** How deep the machine recurses into a term. */
  function Depth(t: Term): (r: nat)
    ensures r >= 1
    decreases t, 0
  {
    match t
    case Fun(_, ps) => 2 + DepthAll(ps)
    case Neg(operand) => Depth(operand)
    case _ => 1
  }

  function DepthAll(ps: seq<Term>): nat
    decreases ps, 1
  {
    if ps == [] then 0
    else if Depth(ps[0]) > DepthAll(ps[1..]) then Depth(ps[0]) else DepthAll(ps[1..])
  }

  /** Every variable holds a string, a number or a truth value. */
  predicate Ground(st: State) {
    forall n :: n in st.store ==> st.store[n].Some? && st.store[n].value.Lit?
  }

  /** No NULL was used, and no evaluation went on forever. */
  predicate Sound(st: State) {
    Ground(st) && st.status in {Running, Stopped, Undefined}
  }

  // ----- When staging is invisible --------------------------------------------

  /** What an expression may depend on: a variable, or the environment as a whole. */
  datatype Place = Variable(name: cstring) | Environment

  /** Nothing is asked of the outside world: the value depends on these places alone. */
  predicate Pure(t: Term) {
    match t
    case Fun(fn, ps) => fn in {Add, Subtract, Getenv} && forall i :: 0 <= i < |ps| ==> Pure(ps[i])
    case Neg(operand) => Pure(operand)
    case _ => true
  }

  /** What a term reads. */
  function Reads(t: Term): set<Place> {
    match t
    case Ident(name) => {Variable(name)}
    case Lit(_) => {}
    case Fun(fn, ps) =>
      (if fn == Getenv then {Environment} else {}) + set i, p | 0 <= i < |ps| && p in Reads(ps[i]) :: p
    case Neg(operand) => Reads(operand)
  }

  /** Every negated operand is pure. */
  predicate PureNegs(t: Term) {
    match t
    case Fun(_, ps) => forall i :: 0 <= i < |ps| ==> PureNegs(ps[i])
    case Neg(operand) => Pure(operand)
    case _ => true
  }

  /** What is read under a negation. */
  function NegReads(t: Term): set<Place> {
    match t
    case Fun(_, ps) => set i, p | 0 <= i < |ps| && p in NegReads(ps[i]) :: p
    case Neg(operand) => Reads(operand)
    case _ => {}
  }

  /** What a clean action may write. */
  function Writes(t: Term): set<Place> {
    if !t.Fun? then {}
    else
      match t.fn
      case Assign =>
        (if t.params != [] && t.params[0].Ident? then {Variable(t.params[0].name)} else {})
        + (if |t.params| >= 2 && IsSetenv(t.params[1]) then {Variable(ENV_MODIFIED), Environment} else {})
      case Setenv => {Variable(ENV_MODIFIED), Environment}
      case Loadenv => {Variable(ENV_LOADED), Variable(ENV_MODIFIED), Environment}
      case Saveenv => {Variable(ENV_MODIFIED), Environment}
      case _ => {}
  }

  /** No negation in the block reads what an earlier action of it writes. */
  predicate Settled(block: seq<Term>) {
    && (forall i :: 0 <= i < |block| ==> PureNegs(block[i]))
    && (forall i, j :: 0 <= i < j < |block| ==> Writes(block[i]) !! NegReads(block[j]))
  }

  predicate SettledCond(c: Cond) {
    match c
    case Holds(t) => PureNegs(t)
    case Compares(_, left, right) => PureNegs(left) && PureNegs(right)
    case Not(d) => SettledCond(d)
    case And(d, e) => SettledCond(d) && SettledCond(e)
    case Or(d, e) => SettledCond(d) && SettledCond(e)
  }

  predicate SettledStmt(stmt: Stmt) {
    match stmt
    case Do(action) => PureNegs(action)
    case Rule(cond, block) => SettledCond(cond) && Settled(block)
  }

  // ----- Running a built value term -------------------------------------------

  /** Getting a value leaves variables and environment alone. */
  ghost predicate OnlyEffects(a: State, b: State) {
    a.store == b.store && a.env == b.env && a.world == b.world
    && (a.status != Running ==> a == b)
    && (a.status == Running ==> b.status in {Running, Stopped})
  }

  lemma {:induction false} EvalOnlyEffects(t: Term, st: State)
    ensures OnlyEffects(st, Eval(t, st).1)
    decreases t, 0
  {
    match t
    case Ident(_) =>
    case Lit(_) =>
    case Neg(operand) => EvalOnlyEffects(operand, st);
    case Fun(fn, ps) => EvalAllOnlyEffects(Used(fn, ps), ps, st);
  }

  lemma {:induction false} EvalAllOnlyEffects(qs: seq<Term>, ps: seq<Term>, st: State)
    requires |qs| <= |ps| && qs == ps[..|qs|]
    ensures OnlyEffects(st, EvalAll(qs, st).1)
    decreases ps, 1
  {
    if qs != [] {
      EvalOnlyEffects(ps[0], st);
      EvalAllOnlyEffects(qs[1..], ps[1..], Eval(ps[0], st).1);
    }
  }
}
