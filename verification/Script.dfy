/** The boot script machine of src/script.c: terms, the state they work on, and
    how a built term runs.  Running is modelled as the C code does it, with NULL
    results, unresolved results and no termination of its own. */
module Script {
  import opened CString
  import opened Values
  import opened EnvBlock
  import opened EnvMap

  /** The rows of function_table that do more than print a report. */
  datatype Fn =
    | Assign | Add | Subtract
    | Print | Vars | Sleep | Reboot | Poweroff
    | Getenv | Setenv | Loadenv | Saveenv
    | Cmd | Readfile | FwupRevert

  function Arity(fn: Fn): nat {
    match fn
    case Assign => 2
    case Add => 2
    case Subtract => 2
    case Setenv => 2
    case Print => 1
    case Sleep => 1
    case Getenv => 1
    case Cmd => 1
    case Readfile => 1
    case _ => 0
  }

  /** A script term.  `Neg` occurs in source text only: the parser computes it. */
  datatype Term =
    | Ident(name: cstring)
    | Lit(value: Value)
    | Fun(fn: Fn, params: seq<Term>)
    | Neg(operand: Term)

  /** `name = t` */
  function Assigned(name: cstring, t: Term): Term {
    Fun(Assign, [Ident(name), t])
  }

  // ----- The state ------------------------------------------------------------

  /** What the outside world gets to see, in order. */
  datatype Effect =
    | Called(fn: Fn, texts: seq<cstring>, numbers: seq<int>)
    | Saved(block: seq<byte>)

  /** What the outside world answers, given all it has seen so far, and what C
      leaves open about comparing terms of different kinds. */
  datatype World = World(
    text: seq<Effect> -> cstring,
    block: seq<Effect> -> Option<seq<byte>>,
    opens: seq<Effect> -> bool,
    works: seq<Effect> -> bool,
    mixed: (Term, Term) -> int)

  /** `Stopped`: the machine was left on purpose.  `Undefined`: a block size for
      which the C code has no meaning.  `Crashed`: a NULL term was used. */
  datatype Status = Running | Stopped | Undefined | Crashed | OutOfFuel

  /** A variable holds a term, or NULL. */
  datatype State = State(
    store: map<cstring, Option<Term>>,
    env: seq<Pair>,
    effects: seq<Effect>,
    status: Status,
    world: World)

  function Log(st: State, e: Effect): State {
    st.(effects := st.effects + [e])
  }

  function SetVariable(st: State, name: cstring, value: Option<Term>): State {
    st.(store := st.store[name := value])
  }

  function GetVariable(st: State, name: cstring): Option<Term> {
    if name in st.store then st.store[name] else Some(Lit(Str("")))
  }

  const ENV_PATH: cstring := "uboot_env.path"
  const ENV_START: cstring := "uboot_env.start"
  const ENV_COUNT: cstring := "uboot_env.count"
  const ENV_LOADED: cstring := "uboot_env.loaded"
  const ENV_MODIFIED: cstring := "uboot_env.modified"

  function SetFlag(st: State, name: cstring, b: bool): State {
    SetVariable(st, name, Some(Lit(Bool(b))))
  }

  // ----- Built-ins, on converted arguments ------------------------------------

  function DoLoadenv(st: State, path: cstring, start: int, count: int): State {
    var s1 := Log(st, Called(Loadenv, [path], [start, count]));
    match s1.world.block(s1.effects)
    case None => s1
    case Some(block) =>
      var s2 := SetFlag(SetFlag(s1, ENV_LOADED, false), ENV_MODIFIED, false);
      if |block| < 4 then s2.(status := Undefined)
      else
        var parsed := ReadBlock(block);
        var s3 := s2.(env := parsed.vars);
        if parsed.ok then SetFlag(s3, ENV_LOADED, true) else s3
  }

  function DoSaveenv(st: State, path: cstring, start: int, count: int): State {
    var s1 := Log(st, Called(Saveenv, [path], [start, count]));
    if !s1.world.opens(s1.effects) then s1
    else if count < 0 then s1.(status := Undefined)
    else if 512 * count < 8 then s1
    else
      var s2 := s1.(env := SortPairs(s1.env));
      if !HasRoom(s2.env, 512 * count) || !s2.world.works(s2.effects) then s2
      else SetFlag(Log(s2, Saved(Block(s2.env, 512 * count))), ENV_MODIFIED, false)
  }

  function DoSetenv(st: State, name: cstring, value: cstring): State {
    SetFlag(st.(env := SetPair(st.env, name, value)), ENV_MODIFIED, true)
  }

  function DoGetenv(st: State, name: cstring): Value {
    var m := Meaning(st.env);
    Str(if name in m then m[name] else "")
  }

  /** A command or a file: the world answers with a text. */
  function DoAsk(st: State, fn: Fn, texts: seq<cstring>): (Value, State) {
    var s1 := Log(st, Called(fn, texts, []));
    (Str(s1.world.text(s1.effects)), s1)
  }

  /** fwup_revert comes back only when it failed. */
  function DoRevert(st: State, path: cstring): (Value, State) {
    var s1 := Log(st, Called(FwupRevert, [path], []));
    (Bool(false), if s1.world.works(s1.effects) then s1.(status := Stopped) else s1)
  }

  function DoStop(st: State, fn: Fn): State {
    Log(st, Called(fn, [], [])).(status := Stopped)
  }

  /** inspect() follows every value. */
  function DoVars(st: State): State {
    if forall n :: n in st.store ==> st.store[n].Some? then Log(st, Called(Vars, [], []))
    else st.(status := Crashed)
  }

  function DoPrint(st: State, text: cstring): State {
    Log(st, Called(Print, [text], []))
  }

  const MAX_ARGS: nat := 15

  /** The parameters that a function looks at. */
  function Used(fn: Fn, ps: seq<Term>): (r: seq<Term>)
    ensures |r| <= |ps| && r == ps[..|r|]
    ensures |ps| >= Arity(fn) ==> |r| >= Arity(fn)
  {
    var most := match fn
      case Print => |ps|
      case Cmd => MAX_ARGS
      case _ => Arity(fn);
    if |ps| > most then ps[..most] else ps
  }

  // ----- Running built terms --------------------------------------------------

  function Crash<T>(default_: T, st: State): (T, State) {
    (default_, st.(status := Crashed))
  }

  function Starve<T>(default_: T, st: State): (T, State) {
    (default_, st.(status := OutOfFuel))
  }

  /** term_resolve.  Once the machine is not running, nothing happens any more. */
  function Resolve(t: Option<Term>, st: State, fuel: nat): (Option<Term>, State)
    decreases fuel, 1
  {
    if st.status != Running then (None, st)
    else match t
      case None => Crash(None, st)
      case Some(Ident(name)) =>
        if fuel == 0 then Starve(None, st)
        else Resolve(GetVariable(st, name), st, fuel - 1)
      case Some(Fun(fn, ps)) => RunFunction(fn, ps, st, fuel)
      case Some(_) => (t, st)
  }

  /** term_to_number */
  function Number(t: Term, st: State, fuel: nat): (int, State)
    decreases fuel, 2
  {
    var (r, s1) := Resolve(Some(t), st, fuel);
    if s1.status != Running then (0, s1)
    else match r
      case None => Crash(0, s1)
      case Some(Lit(v)) => (ToNumber(v), s1)
      case Some(_) => (0, s1)
  }

  /** term_to_string */
  function Text(t: Option<Term>, st: State, fuel: nat): (cstring, State)
    decreases fuel, 2
  {
    var (r, s1) := Resolve(t, st, fuel);
    if s1.status != Running then ("", s1)
    else match r
      case None => Crash("", s1)
      case Some(Lit(v)) => (ToText(v), s1)
      case Some(Ident(name)) =>
        if fuel == 0 then Starve("", s1)
        else Text(GetVariable(s1, name), s1, fuel - 1)
      case Some(_) => ("", s1)
  }

  function Texts(ps: seq<Term>, st: State, fuel: nat): (seq<cstring>, State)
    decreases fuel, 3, |ps|
  {
    if ps == [] then ([], st)
    else
      var (first, s1) := Text(Some(ps[0]), st, fuel);
      var (rest, s2) := Texts(ps[1..], s1, fuel);
      ([first] + rest, s2)
  }

  /** Each text goes out before the next parameter runs. */
  function Prints(ps: seq<Term>, st: State, fuel: nat): State
    decreases fuel, 3, |ps|
  {
    if ps == [] then st
    else
      var (first, s1) := Text(Some(ps[0]), st, fuel);
      if s1.status != Running then s1 else Prints(ps[1..], DoPrint(s1, first), fuel)
  }

  /** The variables that say where the environment block is. */
  function EnvPlace(st: State, fuel: nat): (cstring, int, int, State)
    decreases fuel, 3
  {
    var (path, s1) := Text(Some(Ident(ENV_PATH)), st, fuel);
    var (start, s2) := Number(Ident(ENV_START), s1, fuel);
    var (count, s3) := Number(Ident(ENV_COUNT), s2, fuel);
    (path, start, count, s3)
  }

  /** run_function: the handler of a function term on its parameters. */
  function RunFunction(fn: Fn, ps: seq<Term>, st: State, fuel: nat): (Option<Term>, State)
    decreases fuel, 0
  {
    if st.status != Running then (None, st)
    else if fuel == 0 then Starve(None, st)
    else if |ps| < Arity(fn) then Crash(None, st)
    else
      match fn
      case Assign =>
        var (value, s1) := Resolve(Some(ps[1]), st, fuel - 1);
        if s1.status != Running then (None, s1)
        else if !ps[0].Ident? then Crash(None, s1)
        else (value, SetVariable(s1, ps[0].name, value))
      case Add =>
        var (a, s1) := Number(ps[0], st, fuel - 1);
        var (b, s2) := Number(ps[1], s1, fuel - 1);
        (Some(Lit(Num(ToInt(a + b)))), s2)
      case Subtract =>
        var (a, s1) := Number(ps[0], st, fuel - 1);
        var (b, s2) := Number(ps[1], s1, fuel - 1);
        (Some(Lit(Num(ToInt(a - b)))), s2)
      case Print =>
        var s1 := Prints(ps, st, fuel - 1);
        (None, if s1.status != Running then s1 else DoPrint(s1, "\n"))
      case Vars => (None, DoVars(st))
      case Sleep =>
        var (n, s1) := Number(ps[0], st, fuel - 1);
        (None, if s1.status != Running then s1 else Log(s1, Called(Sleep, [], [n])))
      case Reboot => (None, DoStop(st, fn))
      case Poweroff => (None, DoStop(st, fn))
      case Setenv =>
        var (name, s1) := Text(Some(ps[0]), st, fuel - 1);
        var (value, s2) := Text(Some(ps[1]), s1, fuel - 1);
        // The second parameter itself is the result, not what it resolved to.
        if s2.status != Running then (None, s2) else (Some(ps[1]), DoSetenv(s2, name, value))
      case Loadenv =>
        var (path, start, count, s1) := EnvPlace(st, fuel - 1);
        (None, if s1.status != Running then s1 else DoLoadenv(s1, path, start, count))
      case Saveenv =>
        var (path, start, count, s1) := EnvPlace(st, fuel - 1);
        (None, if s1.status != Running then s1 else DoSaveenv(s1, path, start, count))
      case FwupRevert =>
        var (path, s1) := Text(Some(Ident(ENV_PATH)), st, fuel - 1);
        if s1.status != Running then (None, s1)
        else
          var (v, s2) := DoRevert(s1, path);
          (Some(Lit(v)), s2)
      case Getenv =>
        var (texts, s1) := Texts(Used(fn, ps), st, fuel - 1);
        if s1.status != Running || texts == [] then (None, s1)
        else (Some(Lit(DoGetenv(s1, texts[0]))), s1)
      case Cmd =>
        var (texts, s1) := Texts(Used(fn, ps), st, fuel - 1);
        if s1.status != Running then (None, s1)
        else
          var (v, s2) := DoAsk(s1, fn, texts);
          (Some(Lit(v)), s2)
      case Readfile =>
        var (texts, s1) := Texts(Used(fn, ps), st, fuel - 1);
        if s1.status != Running then (None, s1)
        else
          var (v, s2) := DoAsk(s1, fn, texts);
          (Some(Lit(v)), s2)
  }

  /** term_to_boolean */
  function Truth(t: Term, st: State, fuel: nat): (bool, State) {
    var (r, s1) := Resolve(Some(t), st, fuel);
    if s1.status != Running then (false, s1)
    else match r
      case None => Crash(false, s1)
      case Some(Lit(v)) => (ToBoolean(v), s1)
      case Some(_) => (false, s1)
  }

  /** The sign of a comparison; `mixed` stands for reading the wrong union member. */
  function CompareValues(w: World, a: Value, b: Value): int {
    match (a, b)
    case (Str(s), Str(t)) => if StrLess(s, t) then -1 else if s == t then 0 else 1
    case (Num(m), Num(n)) => ToInt(m - n)
    case (Bool(p), Bool(q)) => (if p then 1 else 0) - (if q then 1 else 0)
    case _ => w.mixed(Lit(a), Lit(b))
  }

  /** term_compare */
  function Compare(left: Term, right: Term, st: State, fuel: nat): (int, State) {
    var (a, s1) := Resolve(Some(left), st, fuel);
    var (b, s2) := Resolve(Some(right), s1, fuel);
    if s2.status != Running then (0, s2)
    else match (a, b)
      case (None, _) => Crash(0, s2)
      case (Some(Lit(v)), None) => Crash(0, s2)
      case (Some(Lit(v)), Some(Lit(w))) => (CompareValues(st.world, v, w), s2)
      case (Some(Lit(v)), Some(t)) => (st.world.mixed(Lit(v), t), s2)
      case _ => (1, s2)
  }
}
