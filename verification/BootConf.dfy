/** The configuration file of the x86_64 demo, statement by statement, and what
    running it does to the device: exactly the steps of BootProtocol. */
module BootConf {
  import opened CString
  import opened Values
  import opened EnvBlock
  import opened EnvMap
  import opened Script
  import opened Staged
  import opened StagedTheorems
  import opened Storage
  import P = BootProtocol

  // ----- The file -------------------------------------------------------------

  const FW_ACTIVE: cstring := "fw_active"
  const FW_AUTOVALIDATE: cstring := "fw_autovalidate"
  const FW_VALIDATED: cstring := "fw_validated"
  const FW_BOOTED: cstring := "fw_booted"

  function Text1(s: cstring): Term {
    Lit(Str(s))
  }

  /** `setenv(name, "1")` */
  function Mark(name: cstring): Term {
    Fun(Setenv, [Text1(name), Text1("1")])
  }

  const SAVE: Term := Fun(Saveenv, [])

  const PATH_VALUE: cstring := "DISKUUID=44332211"
  const ROOTFS_PATH: cstring := "PARTUUID=44332211-02"

  const ENV_SETTINGS: seq<(cstring, Value)> := [
    ("run_repl", Bool(true)),
    (ENV_PATH, Str(PATH_VALUE)),
    (ENV_START, Num(512)),
    (ENV_COUNT, Num(256))
  ]

  const ROOTFS_SETTINGS: seq<(cstring, Value)> := [
    ("rootfs.path", Str(ROOTFS_PATH)),
    ("rootfs.fstype", Str("squashfs")),
    ("rootfs.secret", Str("")),
    ("rootfs.cipher", Str("")),
    ("rootfs.encrypted", Bool(false))
  ]

  const SETTINGS := ENV_SETTINGS + ROOTFS_SETTINGS

  function Assignments(settings: seq<(cstring, Value)>): seq<Stmt> {
    if settings == [] then []
    else [Do(Assigned(settings[0].0, Lit(settings[0].1)))] + Assignments(settings[1..])
  }

  const LOAD: Stmt := Do(Fun(Loadenv, []))

  function GetFlag(name: cstring, flag: cstring): Stmt {
    Do(Assigned(name, Fun(Getenv, [Text1(flag)])))
  }

  const AUTOVALIDATE_RULE: Stmt :=
    Rule(And(Not(Cond.Holds(Ident(FW_VALIDATED))), Cond.Holds(Ident(FW_AUTOVALIDATE))),
         [Assigned(FW_VALIDATED, Lit(Num(1))), Mark(P.VALIDATED), SAVE])

  const REVERTING: seq<Term> := [Text1("Reverting since "), Ident(FW_ACTIVE), Text1(" was tried and wasn't validated")]
  const REVERT_FAILED: seq<Term> := [Text1("Revert failed??")]

  const REVERT_RULE: Stmt :=
    Rule(And(Not(Cond.Holds(Ident(FW_VALIDATED))), Cond.Holds(Ident(FW_BOOTED))),
         [Fun(Print, REVERTING), Fun(FwupRevert, []), Fun(Print, REVERT_FAILED)])

  const MARK_RULE: Stmt :=
    Rule(Not(Cond.Holds(Ident(FW_BOOTED))), [Mark(P.BOOTED), SAVE])

  const FAREWELL: Stmt :=
    Do(Fun(Print, [Text1("Running out of the '"), Ident(FW_ACTIVE), Text1("' firmware slot...")]))

  const LOADING: seq<Stmt> := [LOAD,
    GetFlag(FW_ACTIVE, P.ACTIVE), GetFlag(FW_AUTOVALIDATE, P.AUTOVALIDATE),
    GetFlag(FW_VALIDATED, P.VALIDATED), GetFlag(FW_BOOTED, P.BOOTED)]

  const RULES: seq<Stmt> := [AUTOVALIDATE_RULE, REVERT_RULE, MARK_RULE, FAREWELL]

  const CONF: seq<Stmt> := Assignments(SETTINGS) + (LOADING + RULES)

  // ----- Settings -------------------------------------------------------------

  function Applied(settings: seq<(cstring, Value)>, st: State): State {
    if settings == [] then st
    else Applied(settings[1..], SetVariable(st, settings[0].0, Some(Lit(settings[0].1))))
  }

  lemma {:induction false} RunConcat(p: seq<Stmt>, q: seq<Stmt>, st: State)
    ensures DirectRun(p + q, st) == DirectRun(q, DirectRun(p, st))
    decreases |p|
  {
    hide DirectStmt;
    if p == [] {
      assert p + q == q;
    } else {
      assert (p + q)[1..] == p[1..] + q;
      RunConcat(p[1..], q, DirectStmt(p[0], st));
    }
  }

  lemma AssignLiteral(name: cstring, v: Value, st: State)
    requires st.status == Running
    ensures Exec(Assigned(name, Lit(v)), st) == SetVariable(st, name, Some(Lit(v)))
  {
  }

  lemma {:induction false} RunAssignments(settings: seq<(cstring, Value)>, st: State)
    requires st.status == Running
    ensures DirectRun(Assignments(settings), st) == Applied(settings, st)
    decreases |settings|
  {
    if settings != [] {
      hide Exec, Assigned;
      AssignLiteral(settings[0].0, settings[0].1, st);
      var p := Assignments(settings);
      assert p[1..] == Assignments(settings[1..]);
      RunAssignments(settings[1..], SetVariable(st, settings[0].0, Some(Lit(settings[0].1))));
    }
  }

  lemma {:induction false} AppliedFrame(settings: seq<(cstring, Value)>, st: State, name: cstring)
    requires forall i :: 0 <= i < |settings| ==> settings[i].0 != name
    ensures ValueOf(Applied(settings, st), name) == ValueOf(st, name)
    decreases |settings|
  {
    if settings != [] {
      AppliedFrame(settings[1..], SetVariable(st, settings[0].0, Some(Lit(settings[0].1))), name);
    }
  }

  lemma {:induction false} AppliedSetting(settings: seq<(cstring, Value)>, st: State, k: nat)
    requires k < |settings| && forall i :: k < i < |settings| ==> settings[i].0 != settings[k].0
    ensures ValueOf(Applied(settings, st), settings[k].0) == settings[k].1
    decreases |settings|
  {
    var s1 := SetVariable(st, settings[0].0, Some(Lit(settings[0].1)));
    if k == 0 {
      AppliedFrame(settings[1..], s1, settings[0].0);
    } else {
      AppliedSetting(settings[1..], s1, k - 1);
    }
  }

  lemma {:induction false} AppliedKeeps(settings: seq<(cstring, Value)>, st: State)
    requires Sound(st)
    ensures var s := Applied(settings, st);
            s.env == st.env && s.effects == st.effects && s.status == st.status && s.world == st.world && Sound(s)
    decreases |settings|
  {
    if settings != [] {
      AppliedKeeps(settings[1..], SetVariable(st, settings[0].0, Some(Lit(settings[0].1))));
    }
  }

  /** Where the environment block is. */
  predicate PlaceSet(st: State) {
    ValueOf(st, ENV_PATH) == Str(PATH_VALUE) && ValueOf(st, ENV_START) == Num(512) && ValueOf(st, ENV_COUNT) == Num(256)
  }

  lemma SettingsSetPlace(st: State)
    ensures PlaceSet(Applied(SETTINGS, st))
  {
    var s := SETTINGS;
    assert |s[1].0| == 14 && |s[2].0| == 15 && |s[3].0| == 15 && s[2].0[10] == 's' && s[3].0[10] == 'c';
    assert |s[4].0| == 11 && |s[5].0| == 13 && |s[6].0| == 13 && |s[7].0| == 13 && |s[8].0| == 16;
    hide Applied, ValueOf;
    AppliedSetting(s, st, 1);
    AppliedSetting(s, st, 2);
    AppliedSetting(s, st, 3);
  }

  // ----- Loading --------------------------------------------------------------

  const SIZE: nat := 131072

  /** The machine after the flags were read: `env` is the environment, the rest
      are the truth values of the script variables. */
  predicate Ready(s: State, env: P.Flags, validated: bool, auto: bool, booted: bool) {
    && s.status == Running && PlaceSet(s)
    && ToBoolean(ValueOf(s, FW_VALIDATED)) == validated
    && ToBoolean(ValueOf(s, FW_AUTOVALIDATE)) == auto
    && ToBoolean(ValueOf(s, FW_BOOTED)) == booted
    && UniqueNames(s.env) && GoodNames(s.env) && Meaning(s.env) == env
  }

  lemma Names()
    ensures FW_VALIDATED != FW_BOOTED && FW_VALIDATED != FW_AUTOVALIDATE && FW_VALIDATED != FW_ACTIVE
    ensures FW_BOOTED != FW_AUTOVALIDATE && FW_BOOTED != FW_ACTIVE && FW_AUTOVALIDATE != FW_ACTIVE
    ensures {FW_VALIDATED, FW_BOOTED, FW_AUTOVALIDATE, FW_ACTIVE}
         !! {ENV_PATH, ENV_START, ENV_COUNT, ENV_LOADED, ENV_MODIFIED}
    ensures {ENV_PATH, ENV_START, ENV_COUNT} !! {ENV_LOADED, ENV_MODIFIED}
  {
    assert |FW_VALIDATED| == 12 && |FW_BOOTED| == 9 && |FW_AUTOVALIDATE| == 15 && |FW_ACTIVE| == 9;
    assert FW_BOOTED[3] == 'b' && FW_ACTIVE[3] == 'a' && FW_AUTOVALIDATE[0] == 'f';
    assert |ENV_PATH| == 14 && |ENV_START| == 15 && |ENV_COUNT| == 15 && |ENV_LOADED| == 16 && |ENV_MODIFIED| == 18;
    assert ENV_START[0] == 'u' && ENV_COUNT[0] == 'u';
  }

  lemma GetFlagRuns(name: cstring, flag: cstring, s: State)
    requires s.status == Running
    ensures DirectStmt(GetFlag(name, flag), s) == SetVariable(s, name, Some(Lit(DoGetenv(s, flag))))
  {
    hide DoGetenv;
    var call := Fun(Getenv, [Text1(flag)]);
    EvalOne(Text1(flag), s);
    assert Used(Getenv, [Text1(flag)]) == [Text1(flag)];
    assert Eval(call, s) == (DoGetenv(s, flag), s);
  }

  lemma SetOther(s: State, name: cstring, v: Option<Term>, other: cstring)
    requires name != other
    ensures ValueOf(SetVariable(s, name, v), other) == ValueOf(s, other)
    ensures v.Some? && v.value.Lit? ==> ValueOf(SetVariable(s, name, v), name) == v.value.value
  {
  }

  /** The four getenv assignments. */
  function Flagged(s: State): State {
    var s1 := SetVariable(s, FW_ACTIVE, Some(Lit(DoGetenv(s, P.ACTIVE))));
    var s2 := SetVariable(s1, FW_AUTOVALIDATE, Some(Lit(DoGetenv(s, P.AUTOVALIDATE))));
    var s3 := SetVariable(s2, FW_VALIDATED, Some(Lit(DoGetenv(s, P.VALIDATED))));
    SetVariable(s3, FW_BOOTED, Some(Lit(DoGetenv(s, P.BOOTED))))
  }

  lemma FlaggedIsReady(s: State)
    requires s.status == Running && PlaceSet(s) && UniqueNames(s.env) && GoodNames(s.env)
    ensures var m := Meaning(s.env);
            Ready(Flagged(s), m, P.IsSet(m, P.VALIDATED), P.IsSet(m, P.AUTOVALIDATE), P.IsSet(m, P.BOOTED))
    ensures Flagged(s).env == s.env && Flagged(s).effects == s.effects && Flagged(s).world == s.world
  {
    hide Meaning, UniqueNames, GoodNames, ToBoolean;
    Names();
  }

  /** What the environment is after loadenv. */
  function LoadedVars(st: State, block: Option<seq<byte>>): seq<Pair> {
    match block
    case None => st.env
    case Some(b) => if |b| >= 4 then ReadBlock(b).vars else st.env
  }

  /** loadenv leaves an environment in which every name is there once. */
  predicate Loadable(st: State, block: Option<seq<byte>>) {
    && (block.Some? ==> |block.value| >= 4)
    && UniqueNames(LoadedVars(st, block)) && (block.None? ==> GoodNames(st.env))
  }

  lemma LoadedIsGood(st: State, block: Option<seq<byte>>)
    requires Loadable(st, block)
    ensures GoodNames(LoadedVars(st, block))
  {
    if block.Some? {
      ReadNamesAreGood(block.value[4..]);
      hide Parse, Sealed;
    }
  }

  lemma LoadRuns(s: State, block: Option<seq<byte>>)
    requires s.status == Running && PlaceSet(s)
    requires block.Some? ==> |block.value| >= 4
    requires s.world.block(s.effects + [LOAD_CALL]) == block
    ensures var t := DirectStmt(LOAD, s);
            t.status == Running && PlaceSet(t) && t.env == LoadedVars(s, block) && t.world == s.world
            && t.effects == s.effects + [LOAD_CALL]
  {
    hide ReadBlock, ValueOf;
    Names();
    var t := DirectStmt(LOAD, s);
    assert t == DoLoadenv(s, PATH_VALUE, 512, 256);
    EnvFrame(s, PATH_VALUE, 512, 256, ENV_PATH);
    EnvFrame(s, PATH_VALUE, 512, 256, ENV_START);
    EnvFrame(s, PATH_VALUE, 512, 256, ENV_COUNT);
  }

  // ----- Saving a flag --------------------------------------------------------

  lemma FlagNamesAreGood()
    ensures GoodName(P.VALIDATED) && GoodName(P.BOOTED)
  {
  }

  lemma MarkRuns(name: cstring, s: State)
    requires s.status == Running
    ensures Exec(Mark(name), s) == DoSetenv(s, name, "1")
  {
    hide DoSetenv;
    assert ToText(Str(name)) == name;
  }

  lemma SaveRuns(s: State)
    requires s.status == Running && PlaceSet(s)
    ensures Exec(SAVE, s) == DoSaveenv(s, PATH_VALUE, 512, 256)
  {
    hide DoSaveenv, ValueOf;
  }

  /** Whether fwup succeeds in reverting. */
  ghost predicate Reverts(w: World, revertWorks: bool) {
    forall before: seq<Effect>, path :: w.works(before + [Called(FwupRevert, [path], [])]) == revertWorks
  }

  const LOAD_CALL: Effect := Called(Loadenv, [PATH_VALUE], [512, 256])
  const SAVE_CALL: Effect := Called(Saveenv, [PATH_VALUE], [512, 256])

  /** The block has room for an environment, in whatever order its list is. */
  ghost predicate RoomFor(m: P.Flags) {
    forall vars: seq<Pair> :: UniqueNames(vars) && Meaning(vars) == m ==> HasRoom(vars, SIZE)
  }

  lemma RoomIsForTheMap(vars: seq<Pair>)
    requires UniqueNames(vars)
    ensures HasRoom(vars, SIZE) <==> RoomFor(Meaning(vars))
  {
    hide Meaning, UniqueNames, Encode;
    forall u: seq<Pair> | UniqueNames(u) && Meaning(u) == Meaning(vars)
      ensures HasRoom(u, SIZE) == HasRoom(vars, SIZE)
    {
      MeaningFixesPairs(u, vars);
      EncodePermuted(u, vars);
    }
  }

  /** Whether saving an environment in this state reaches the device. */
  ghost predicate Reaches(s: State, m: P.Flags) {
    var e := s.effects + [SAVE_CALL];
    s.world.opens(e) && s.world.works(e) && RoomFor(m)
  }

  /** saveenv, whatever becomes of it. */
  lemma SaveOutcome(s: State)
    requires s.status == Running && UniqueNames(s.env) && GoodNames(s.env)
    ensures var t := DoSaveenv(s, PATH_VALUE, 512, 256);
            && t.status == Running && t.world == s.world
            && UniqueNames(t.env) && GoodNames(t.env) && Meaning(t.env) == Meaning(s.env)
            && (forall n :: n != ENV_MODIFIED ==> ValueOf(t, n) == ValueOf(s, n))
            && if Reaches(s, Meaning(s.env))
               then HasRoom(SortPairs(s.env), SIZE)
                    && t.effects == s.effects + [SAVE_CALL, Saved(Block(SortPairs(s.env), SIZE))]
               else t.effects == s.effects + [SAVE_CALL]
  {
    hide SortPairs, Block, HasRoom, Meaning, UniqueNames, GoodNames, RoomFor, ValueOf;
    EnvFrames(s);
    SortedKeeps(s.env);
    RoomIsForTheMap(SortPairs(s.env));
    var e := s.effects + [SAVE_CALL];
    assert HasRoom(SortPairs(s.env), SIZE) ==>
        e + [Saved(Block(SortPairs(s.env), SIZE))] == s.effects + [SAVE_CALL, Saved(Block(SortPairs(s.env), SIZE))];
  }

  lemma EnvFrames(s: State)
    ensures forall n :: n != ENV_MODIFIED ==> ValueOf(DoSaveenv(s, PATH_VALUE, 512, 256), n) == ValueOf(s, n)
  {
    hide DoSaveenv, ValueOf;
    forall n
      ensures n != ENV_MODIFIED ==> ValueOf(DoSaveenv(s, PATH_VALUE, 512, 256), n) == ValueOf(s, n)
    {
      EnvFrame(s, PATH_VALUE, 512, 256, n);
    }
  }

  lemma SortedKeeps(u: seq<Pair>)
    requires UniqueNames(u) && GoodNames(u)
    ensures UniqueNames(SortPairs(u)) && GoodNames(SortPairs(u)) && Meaning(SortPairs(u)) == Meaning(u)
  {
    hide Meaning, SortPairs, GoodNames, UniqueNames;
    SortPairsSorts(u);
    PermutedMeaning(u, SortPairs(u));
    GoodNamesPermuted(u, SortPairs(u));
  }

  /** setenv of a flag. */
  lemma MarkOutcome(name: cstring, s: State)
    requires UniqueNames(s.env) && GoodNames(s.env) && GoodName(name)
    ensures var t := DoSetenv(s, name, "1");
            && t.status == s.status && t.world == s.world && t.effects == s.effects
            && UniqueNames(t.env) && GoodNames(t.env) && Meaning(t.env) == Meaning(s.env)[name := "1"]
            && forall n :: n != ENV_MODIFIED ==> ValueOf(t, n) == ValueOf(s, n)
  {
    SetPairMeaning(s.env, name, "1");
    SetPairGoodNames(s.env, name, "1");
    hide Meaning, SetPair, GoodNames, UniqueNames;
  }

  // ----- Effects as protocol steps --------------------------------------------

  /** The steps of the protocol among the effects of a run. */
  function StepsOf(effects: seq<Effect>, revertWorks: bool): seq<P.Step> {
    if effects == [] then []
    else StepOf(effects[0], revertWorks) + StepsOf(effects[1..], revertWorks)
  }

  function StepOf(e: Effect, revertWorks: bool): seq<P.Step> {
    match e
    case Saved(block) => if |block| >= 4 then [P.Save(Meaning(ReadBlock(block).vars))] else []
    case Called(fn, _, _) =>
      if fn != FwupRevert then [] else if revertWorks then [P.Revert] else [P.FailedRevert]
  }

  lemma {:induction false} StepsConcat(e: seq<Effect>, f: seq<Effect>, revertWorks: bool)
    ensures StepsOf(e + f, revertWorks) == StepsOf(e, revertWorks) + StepsOf(f, revertWorks)
    decreases |e|
  {
    hide StepOf;
    if e == [] {
      assert e + f == f;
    } else {
      assert (e + f)[1..] == e[1..] + f;
      StepsConcat(e[1..], f, revertWorks);
    }
  }

  /** Blocks of the right size, from which every name is read once. */
  predicate IsBlock(block: seq<byte>) {
    |block| == SIZE && UniqueNames(ReadBlock(block).vars)
  }

  predicate SavesBlocks(effects: seq<Effect>) {
    forall i :: 0 <= i < |effects| && effects[i].Saved? ==> IsBlock(effects[i].block)
  }

  /** `t` comes after `s`, and the protocol did these steps in between. */
  ghost predicate Does(s: State, t: State, steps: seq<P.Step>, revertWorks: bool) {
    && t.world == s.world && |s.effects| <= |t.effects| && t.effects[..|s.effects|] == s.effects
    && StepsOf(t.effects[|s.effects|..], revertWorks) == steps && SavesBlocks(t.effects[|s.effects|..])
  }

  lemma DoesBoth(s: State, t: State, u: State, a: seq<P.Step>, b: seq<P.Step>, revertWorks: bool)
    requires Does(s, t, a, revertWorks) && Does(t, u, b, revertWorks)
    ensures Does(s, u, a + b, revertWorks)
  {
    hide StepsOf;
    var n, m := |s.effects|, |t.effects|;
    assert u.effects[..n] == u.effects[..m][..n];
    assert u.effects[n..] == u.effects[..m][n..] + u.effects[m..];
    StepsConcat(t.effects[n..], u.effects[m..], revertWorks);
  }

  lemma DoesOne(s: State, t: State, e: Effect, revertWorks: bool)
    requires t.world == s.world && t.effects == s.effects + [e] && (e.Saved? ==> IsBlock(e.block))
    ensures Does(s, t, StepOf(e, revertWorks), revertWorks)
  {
    hide StepOf;
    assert t.effects[|s.effects|..] == [e] && [e][1..] == [];
    assert StepsOf([e], revertWorks) == StepOf(e, revertWorks) + StepsOf([], revertWorks);
    assert StepOf(e, revertWorks) + [] == StepOf(e, revertWorks);
  }

  lemma DoesNothing(s: State, t: State, revertWorks: bool)
    requires t.world == s.world && t.effects == s.effects
    ensures Does(s, t, [], revertWorks)
  {
  }

  lemma DoesSave(s: State, t: State, block: seq<byte>, revertWorks: bool)
    requires t.world == s.world && t.effects == s.effects + [SAVE_CALL, Saved(block)] && IsBlock(block)
    ensures Does(s, t, [P.Save(Meaning(ReadBlock(block).vars))], revertWorks)
  {
    hide Meaning, ReadBlock, StepsOf, Does;
    var m := s.(effects := s.effects + [SAVE_CALL]);
    DoesOne(s, m, SAVE_CALL, revertWorks);
    assert t.effects == m.effects + [Saved(block)];
    DoesOne(m, t, Saved(block), revertWorks);
    assert StepOf(SAVE_CALL, revertWorks) == [];
    var save := [P.Save(Meaning(ReadBlock(block).vars))];
    assert StepOf(Saved(block), revertWorks) == save;
    DoesBoth(s, m, t, [], save, revertWorks);
    assert [] + save == save;
  }

  /** The steps of a save: one, or none when it does not reach the device. */
  function SavedSteps(reaches: bool, env: P.Flags): seq<P.Step> {
    if reaches then [P.Save(env)] else []
  }

  /** The effects of a save: the call, and the block behind it if it reaches the device. */
  ghost predicate CallsSave(s: State, t: State, reaches: bool) {
    |t.effects| == |s.effects| + (if reaches then 2 else 1) && t.effects[..|s.effects| + 1] == s.effects + [SAVE_CALL]
  }

  ghost predicate Saves(s: State, t: State, m: P.Flags, revertWorks: bool) {
    Does(s, t, SavedSteps(Reaches(s, m), m), revertWorks) && CallsSave(s, t, Reaches(s, m))
  }

  /** `setenv(name, "1") saveenv()` */
  lemma FlagIsSaved(name: cstring, s: State, revertWorks: bool)
    requires s.status == Running && PlaceSet(s) && UniqueNames(s.env) && GoodNames(s.env) && GoodName(name)
    ensures var t, m := Exec(SAVE, Exec(Mark(name), s)), Meaning(s.env)[name := "1"];
            && t.status == Running && t.world == s.world
            && UniqueNames(t.env) && GoodNames(t.env) && Meaning(t.env) == m
            && (forall n :: n != ENV_MODIFIED ==> ValueOf(t, n) == ValueOf(s, n))
            && Saves(s, t, m, revertWorks)
  {
    Names();
    MarkRuns(name, s);
    MarkOutcome(name, s);
    hide Meaning, ReadBlock, SortPairs, GoodNames, UniqueNames, Block, Exec, ValueOf, Does, HasRoom, RoomFor,
      DoSaveenv, DoSetenv;
    var s1 := DoSetenv(s, name, "1");
    SaveRuns(s1);
    SaveOutcome(s1);
    var t, m := DoSaveenv(s1, PATH_VALUE, 512, 256), Meaning(s1.env);
    var block := [];
    if Reaches(s, m) {
      SavedMapIsLoaded(s1.env, SIZE);
      block := Block(SortPairs(s1.env), SIZE);
    }
    hide Reaches, Saves;
    SaveIsStep(s, t, m, block, revertWorks);
  }

  lemma SaveIsStep(s: State, t: State, m: P.Flags, block: seq<byte>, revertWorks: bool)
    requires t.world == s.world
    requires Reaches(s, m) ==> t.effects == s.effects + [SAVE_CALL, Saved(block)]
    requires Reaches(s, m) ==> IsBlock(block) && Meaning(ReadBlock(block).vars) == m
    requires !Reaches(s, m) ==> t.effects == s.effects + [SAVE_CALL]
    ensures Saves(s, t, m, revertWorks)
  {
    hide Meaning, ReadBlock, Reaches, Does, SAVE_CALL, IsBlock;
    assert t.effects[..|s.effects| + 1] == s.effects + [SAVE_CALL];
    if Reaches(s, m) {
      DoesSave(s, t, block, revertWorks);
    } else {
      SaveIsCall(revertWorks);
      DoesOne(s, t, SAVE_CALL, revertWorks);
    }
  }

  lemma SaveIsCall(revertWorks: bool)
    ensures !SAVE_CALL.Saved? && StepOf(SAVE_CALL, revertWorks) == []
  {
  }

  // ----- The rules ------------------------------------------------------------

  /** Nothing but effects. */
  ghost predicate SameButEffects(s: State, t: State) {
    s.store == t.store && s.env == t.env && s.world == t.world && s.status == t.status
  }

  lemma {:induction false} PrintsAreQuiet(ps: seq<Term>, s: State, revertWorks: bool)
    requires s.status == Running && forall i :: 0 <= i < |ps| ==> ps[i].Lit? || ps[i].Ident?
    ensures SameButEffects(s, ExecPrints(ps, s)) && Does(s, ExecPrints(ps, s), [], revertWorks)
    decreases |ps|
  {
    if ps == [] {
      DoesNothing(s, s, revertWorks);
    } else {
      hide Does, ToText, ValueOf;
      var t := DoPrint(s, ToText(Eval(ps[0], s).0));
      assert Eval(ps[0], s).1 == s;
      DoesOne(s, t, Called(Print, [ToText(Eval(ps[0], s).0)], []), revertWorks);
      PrintsAreQuiet(ps[1..], t, revertWorks);
      DoesBoth(s, t, ExecPrints(ps, s), [], [], revertWorks);
    }
  }

  lemma PrintIsQuiet(ps: seq<Term>, s: State, revertWorks: bool)
    requires s.status == Running && ps != [] && forall i :: 0 <= i < |ps| ==> ps[i].Lit? || ps[i].Ident?
    ensures var t := Exec(Fun(Print, ps), s); SameButEffects(s, t) && Does(s, t, [], revertWorks)
  {
    hide Does, ExecPrints;
    PrintsAreQuiet(ps, s, revertWorks);
    var t := ExecPrints(ps, s);
    assert Exec(Fun(Print, ps), s) == DoPrint(t, "\n");
    DoesOne(t, DoPrint(t, "\n"), Called(Print, ["\n"], []), revertWorks);
    var none: seq<P.Step> := [];
    DoesBoth(s, t, DoPrint(t, "\n"), none, none, revertWorks);
    assert none + none == none;
  }

  lemma ExecThree(a: Term, b: Term, c: Term, s: State)
    ensures ExecAll([a, b, c], s) == Exec(c, Exec(b, Exec(a, s)))
  {
    hide Exec;
    assert [a, b, c][1..] == [b, c] && [b, c][1..] == [c] && [c][1..] == [];
    assert ExecAll([c], Exec(b, Exec(a, s))) == ExecAll([], Exec(c, Exec(b, Exec(a, s))));
    assert ExecAll([b, c], Exec(a, s)) == ExecAll([c], Exec(b, Exec(a, s)));
  }

  lemma BothHold(c: Cond, d: Cond, s: State, p: bool, q: bool)
    requires EvalCond(c, s) == (p, s) && EvalCond(d, s) == (q, s)
    ensures EvalCond(And(c, d), s) == (p && q, s)
  {
  }

  lemma FlagCond(name: cstring, s: State)
    ensures EvalCond(Cond.Holds(Ident(name)), s) == (ToBoolean(ValueOf(s, name)), s)
    ensures EvalCond(Not(Cond.Holds(Ident(name))), s) == (!ToBoolean(ValueOf(s, name)), s)
  {
  }

  /** The block of the first rule. */
  lemma AutovalidateFires(s: State, env: P.Flags, v: bool, a: bool, b: bool, revertWorks: bool)
    requires Ready(s, env, v, a, b)
    ensures var t := ExecAll([Assigned(FW_VALIDATED, Lit(Num(1))), Mark(P.VALIDATED), SAVE], s);
            var m := env[P.VALIDATED := "1"];
            Ready(t, m, true, a, b) && Saves(s, t, m, revertWorks)
  {
    Names();
    FlagNamesAreGood();
    var s1 := SetVariable(s, FW_VALIDATED, Some(Lit(Num(1))));
    hide Meaning, ReadBlock, GoodNames, UniqueNames, Encode, Exec, ExecAll, ValueOf, Saves, Assigned, Mark, SAVE,
      RoomFor;
    SetOther(s, FW_VALIDATED, Some(Lit(Num(1))), FW_AUTOVALIDATE);
    SetOther(s, FW_VALIDATED, Some(Lit(Num(1))), FW_BOOTED);
    SetOther(s, FW_VALIDATED, Some(Lit(Num(1))), ENV_PATH);
    SetOther(s, FW_VALIDATED, Some(Lit(Num(1))), ENV_START);
    SetOther(s, FW_VALIDATED, Some(Lit(Num(1))), ENV_COUNT);
    assert ToBoolean(Num(1));
    hide ToBoolean, SetVariable;
    ExecThree(Assigned(FW_VALIDATED, Lit(Num(1))), Mark(P.VALIDATED), SAVE, s);
    AssignLiteral(FW_VALIDATED, Num(1), s);
    SetKeeps(s, FW_VALIDATED, Some(Lit(Num(1))));
    FlagIsSaved(P.VALIDATED, s1, revertWorks);
    SavesFrom(s, s1, Exec(SAVE, Exec(Mark(P.VALIDATED), s1)), env[P.VALIDATED := "1"], revertWorks);
  }

  lemma SetKeeps(s: State, name: cstring, v: Option<Term>)
    ensures var t := SetVariable(s, name, v);
            t.env == s.env && t.effects == s.effects && t.status == s.status && t.world == s.world
  {
  }

  lemma SavesFrom(s: State, s1: State, t: State, m: P.Flags, revertWorks: bool)
    requires s.effects == s1.effects && s.world == s1.world && Saves(s1, t, m, revertWorks)
    ensures Saves(s, t, m, revertWorks)
  {
    hide StepsOf, RoomFor;
  }

  lemma AutovalidateRuns(s: State, env: P.Flags, v: bool, a: bool, b: bool, revertWorks: bool)
    requires Ready(s, env, v, a, b)
    ensures var t, m := DirectStmt(AUTOVALIDATE_RULE, s), env[P.VALIDATED := "1"];
            if !v && a
            then Ready(t, m, true, a, b) && Saves(s, t, m, revertWorks)
            else t == s
  {
    hide Meaning, ExecAll, EvalCond, ValueOf, Saves, Assigned, Mark, SAVE, ToBoolean, GoodNames, UniqueNames;
    FlagCond(FW_VALIDATED, s);
    FlagCond(FW_AUTOVALIDATE, s);
    BothHold(Not(Cond.Holds(Ident(FW_VALIDATED))), Cond.Holds(Ident(FW_AUTOVALIDATE)), s, !v, a);
    if !v && a {
      AutovalidateFires(s, env, v, a, b, revertWorks);
    }
  }

  lemma MarkRuleRuns(s: State, env: P.Flags, v: bool, a: bool, b: bool, revertWorks: bool)
    requires Ready(s, env, v, a, b)
    ensures var t, m := DirectStmt(MARK_RULE, s), env[P.BOOTED := "1"];
            t.status == Running && if !b then Saves(s, t, m, revertWorks) else t == s
  {
    FlagCond(FW_BOOTED, s);
    if !b {
      FlagNamesAreGood();
      hide Meaning, GoodNames, UniqueNames, Exec, EvalCond, ValueOf, Saves, Mark;
      ExecTwo(Mark(P.BOOTED), SAVE, s);
      FlagIsSaved(P.BOOTED, s, revertWorks);
    }
  }

  lemma RevertAnswer(s: State, path: cstring, revertWorks: bool)
    requires Reverts(s.world, revertWorks)
    ensures s.world.works(s.effects + [Called(FwupRevert, [path], [])]) == revertWorks
  {
  }

  lemma RevertEffect(s: State, revertWorks: bool)
    requires s.status == Running && Reverts(s.world, revertWorks)
    ensures var t := Exec(Fun(FwupRevert, []), s);
            && t.store == s.store && t.env == s.env && t.status == (if revertWorks then Stopped else Running)
            && Does(s, t, if revertWorks then [P.Revert] else [P.FailedRevert], revertWorks)
  {
    hide Does, Reverts, ValueOf, ToText;
    var path := ToText(ValueOf(s, ENV_PATH));
    RevertAnswer(s, path, revertWorks);
    var t := Exec(Fun(FwupRevert, []), s);
    EvalAllNothing(s);
    assert t == DoRevert(s, path).1;
    DoesOne(s, t, Called(FwupRevert, [path], []), revertWorks);
  }

  /** The block of the second rule. */
  lemma RevertFires(s: State, revertWorks: bool)
    requires s.status == Running && Reverts(s.world, revertWorks)
    ensures var t := ExecAll([Fun(Print, REVERTING), Fun(FwupRevert, []), Fun(Print, REVERT_FAILED)], s);
            t.status == (if revertWorks then Stopped else Running) && SameButEffects(s.(status := t.status), t)
            && Does(s, t, if revertWorks then [P.Revert] else [P.FailedRevert], revertWorks)
  {
    hide Reverts;
    var ps, qs := REVERTING, REVERT_FAILED;
    assert |ps| == 3 && |qs| == 1;
    assert forall i :: 0 <= i < |ps| ==> ps[i].Lit? || ps[i].Ident?;
    assert forall i :: 0 <= i < |qs| ==> qs[i].Lit?;
    hide Does, ExecAll, Reverts, REVERTING, REVERT_FAILED;
    var steps := if revertWorks then [P.Revert] else [P.FailedRevert];
    var s1 := Exec(Fun(Print, ps), s);
    var s2 := Exec(Fun(FwupRevert, []), s1);
    assert s2.status != Running ==> Exec(Fun(Print, qs), s2) == s2;
    hide Exec;
    ExecThree(Fun(Print, ps), Fun(FwupRevert, []), Fun(Print, qs), s);
    PrintIsQuiet(ps, s, revertWorks);
    RevertEffect(s1, revertWorks);
    DoesBoth(s, s1, s2, [], steps, revertWorks);
    assert [] + steps == steps;
    if !revertWorks {
      PrintIsQuiet(qs, s2, revertWorks);
      DoesBoth(s, s2, Exec(Fun(Print, qs), s2), steps, [], revertWorks);
      assert steps + [] == steps;
    }
  }

  lemma RevertRuleRuns(s: State, env: P.Flags, v: bool, a: bool, b: bool, revertWorks: bool)
    requires Ready(s, env, v, a, b) && Reverts(s.world, revertWorks)
    ensures var t := DirectStmt(REVERT_RULE, s);
            if !v && b
            then t.status == (if revertWorks then Stopped else Running) && SameButEffects(s.(status := t.status), t)
                 && Does(s, t, if revertWorks then [P.Revert] else [P.FailedRevert], revertWorks)
            else t == s
  {
    hide Meaning, ExecAll, EvalCond, ValueOf, Does, ToBoolean, Reverts, GoodNames, UniqueNames, REVERTING,
      REVERT_FAILED;
    FlagCond(FW_VALIDATED, s);
    FlagCond(FW_BOOTED, s);
    BothHold(Not(Cond.Holds(Ident(FW_VALIDATED))), Cond.Holds(Ident(FW_BOOTED)), s, !v, b);
    if !v && b {
      RevertFires(s, revertWorks);
    }
  }

  lemma FarewellRuns(s: State, revertWorks: bool)
    requires s.status == Running
    ensures var t := DirectStmt(FAREWELL, s); t.status == Running && Does(s, t, [], revertWorks)
  {
    hide Does, Exec;
    PrintIsQuiet(FAREWELL.action.params, s, revertWorks);
  }

  // ----- The whole file -------------------------------------------------------

  lemma HaltedStmt(stmt: Stmt, s: State)
    requires s.status != Running
    ensures DirectStmt(stmt, s) == s
  {
    match stmt
    case Do(_) =>
    case Rule(cond, block) =>
      CondHalted(cond, s);
      ExecAllHalted(block, s);
  }

  /** What the machine leaves to do when it is done: nothing, or the hand-over to
      the firmware. */
  function Final(t: State): seq<P.Step> {
    if t.status == Running then [P.HandOff] else []
  }

  /** The steps between two states, and the hand-over if there is one. */
  ghost predicate Completes(s: State, t: State, steps: seq<P.Step>, revertWorks: bool) {
    && t.world == s.world && |s.effects| <= |t.effects| && t.effects[..|s.effects|] == s.effects
    && t.status in {Running, Stopped} && SavesBlocks(t.effects[|s.effects|..])
    && StepsOf(t.effects[|s.effects|..], revertWorks) + Final(t) == steps
  }

  lemma CompletesAfter(s: State, t: State, u: State, a: seq<P.Step>, b: seq<P.Step>, revertWorks: bool)
    requires Does(s, t, a, revertWorks) && Completes(t, u, b, revertWorks)
    ensures Completes(s, u, a + b, revertWorks)
  {
    hide StepsOf;
    var c := StepsOf(u.effects[|t.effects|..], revertWorks);
    DoesBoth(s, t, u, a, c, revertWorks);
    assert (a + c) + Final(u) == a + (c + Final(u));
  }

  /** The mark rule and the farewell. */
  lemma EndRuns(s: State, env: P.Flags, v: bool, a: bool, b: bool, revertWorks: bool)
    requires Ready(s, env, v, a, b)
    ensures var m, u := env[P.BOOTED := "1"], DirectStmt(FAREWELL, DirectStmt(MARK_RULE, s));
            && Completes(s, u, (if b then [] else SavedSteps(Reaches(s, m), m)) + [P.HandOff], revertWorks)
            && (!b ==> SaveIs(s.world, u.effects, |s.effects|, m, Reaches(s, m)))
  {
    hide Does, DirectStmt, Meaning, ValueOf, Reaches, Completes, CallsSave, SaveIs, SavedSteps, FAREWELL, MARK_RULE;
    var t := DirectStmt(MARK_RULE, s);
    var u := DirectStmt(FAREWELL, t);
    MarkRuleRuns(s, env, v, a, b, revertWorks);
    FarewellRuns(t, revertWorks);
    DoneIsComplete(t, u, [], revertWorks);
    if b {
      assert [] + [P.HandOff] == [P.HandOff];
    } else {
      var m := env[P.BOOTED := "1"];
      CompletesAfter(s, t, u, SavedSteps(Reaches(s, m), m), [P.HandOff], revertWorks);
      SaveInRun(s, t, u, m, [P.HandOff], revertWorks);
    }
  }

  lemma DoneIsComplete(s: State, t: State, steps: seq<P.Step>, revertWorks: bool)
    requires Does(s, t, steps, revertWorks) && t.status in {Running, Stopped}
    ensures Completes(s, t, steps + Final(t), revertWorks)
    ensures steps == [] && t.status == Running ==> Completes(s, t, [P.HandOff], revertWorks)
  {
    assert [] + [P.HandOff] == [P.HandOff];
  }

  function Rules(s: State): State {
    DirectStmt(FAREWELL, DirectStmt(MARK_RULE, DirectStmt(REVERT_RULE, DirectStmt(AUTOVALIDATE_RULE, s))))
  }

  /** Every save reaches the device, as far as that is up to the device; or none does. */
  ghost predicate Stores(w: World, works: bool) {
    forall e: seq<Effect> :: e != [] && e[|e| - 1] == SAVE_CALL ==> (w.opens(e) && w.works(e)) == works
  }

  /** Whether the save that is called at a place in the effects reaches the device:
      the answers to that very call, and room in the block. */
  ghost predicate SaveIs(w: World, effects: seq<Effect>, at: nat, m: P.Flags, reaches: bool) {
    && at < |effects| && effects[at] == SAVE_CALL
    && reaches == (w.opens(effects[..at + 1]) && w.works(effects[..at + 1]) && RoomFor(m))
  }

  predicate Autovalidates(m: P.Flags) {
    !P.IsSet(m, P.VALIDATED) && P.IsSet(m, P.AUTOVALIDATE)
  }

  /** Which saves of a run reach the device.  The first place for a save is `at`; a save
      that is not called is not lost. */
  ghost predicate SavesAre(w: World, effects: seq<Effect>, at: nat, m: P.Flags, validates: bool, marks: bool) {
    var m1 := P.AfterAutovalidate(m);
    var next := if !Autovalidates(m) then at else if validates then at + 2 else at + 1;
    && (if Autovalidates(m) then SaveIs(w, effects, at, m1, validates) else validates)
    && (if P.IsSet(m, P.BOOTED) then marks else SaveIs(w, effects, next, m1[P.BOOTED := "1"], marks))
  }

  lemma SaveInRun(s: State, t: State, u: State, m: P.Flags, steps: seq<P.Step>, revertWorks: bool)
    requires Saves(s, t, m, revertWorks) && Completes(t, u, steps, revertWorks)
    ensures SaveIs(s.world, u.effects, |s.effects|, m, Reaches(s, m))
  {
    hide StepsOf, RoomFor, SAVE_CALL;
    var n := |s.effects|;
    assert u.effects[..n + 1] == u.effects[..|t.effects|][..n + 1] == t.effects[..n + 1];
    assert u.effects[n] == u.effects[..n + 1][n];
  }

  /** When all saves work or none does, as far as that is up to the device. */
  lemma SaveAnswers(w: World, effects: seq<Effect>, at: nat, m: P.Flags, reaches: bool)
    requires SaveIs(w, effects, at, m, reaches)
    ensures Stores(w, false) ==> !reaches
    ensures Stores(w, true) && RoomFor(m) ==> reaches
  {
    hide RoomFor, SAVE_CALL;
    var e := effects[..at + 1];
    assert e[|e| - 1] == SAVE_CALL;
  }

  lemma RulesRun(s: State, env: P.Flags, v: bool, a: bool, b: bool, revertWorks: bool)
      returns (validates: bool, marks: bool)
    requires Ready(s, env, v, a, b) && Reverts(s.world, revertWorks)
    requires v == P.IsSet(env, P.VALIDATED) && a == P.IsSet(env, P.AUTOVALIDATE) && b == P.IsSet(env, P.BOOTED)
    ensures Completes(s, Rules(s), P.BootSteps(env, revertWorks, validates, marks), revertWorks)
    ensures SavesAre(s.world, Rules(s).effects, |s.effects|, env, validates, marks)
  {
    hide Does, DirectStmt, Meaning, ValueOf, Reverts, Completes, P.IsSet, ToBoolean, Ready, Reaches, SaveIs;
    hide AUTOVALIDATE_RULE, REVERT_RULE, MARK_RULE, FAREWELL;
    var s1 := DirectStmt(AUTOVALIDATE_RULE, s);
    var s2 := DirectStmt(REVERT_RULE, s1);
    var m1 := P.AfterAutovalidate(env);
    var m2 := m1[P.BOOTED := "1"];
    AutovalidateRuns(s, env, v, a, b, revertWorks);
    validates, marks := !v && a ==> Reaches(s, m1), b || Reaches(s1, m2);
    if !v && a {
      DoesKeepsWorld(s, s1, SavedSteps(validates, m1), revertWorks);
      RevertRuleRuns(s1, m1, true, a, b, revertWorks);
      EndRuns(s1, m1, true, a, b, revertWorks);
      P.FlagNames();
      P.OtherFlag(env, P.VALIDATED, "1", P.BOOTED);
      var end := (if b then [] else SavedSteps(marks, m2)) + [P.HandOff];
      CompletesAfter(s, s1, Rules(s), SavedSteps(validates, m1), end, revertWorks);
      SaveInRun(s, s1, Rules(s), m1, end, revertWorks);
      StepsOfSaves(env, revertWorks, validates, marks);
    } else {
      RevertRuleRuns(s, env, v, a, b, revertWorks);
      if !v && b {
        RevertCase(s, s2, env, v, a, b, revertWorks);
      } else {
        EndRuns(s, env, v, a, b, revertWorks);
        StepsOfSaves(env, revertWorks, validates, marks);
      }
    }
  }

  /** The steps of the protocol, save by save. */
  lemma StepsOfSaves(m: P.Flags, revertWorks: bool, validates: bool, marks: bool)
    requires !P.MustRevert(m)
    ensures var m1 := P.AfterAutovalidate(m);
            var end := (if P.IsSet(m1, P.BOOTED) then [] else SavedSteps(marks, m1[P.BOOTED := "1"])) + [P.HandOff];
            P.BootSteps(m, revertWorks, validates, marks)
            == if !P.IsSet(m, P.VALIDATED) && P.IsSet(m, P.AUTOVALIDATE) then SavedSteps(validates, m1) + end else end
  {
    hide P.IsSet;
    var m1 := P.AfterAutovalidate(m);
    assert [P.Save(m1[P.BOOTED := "1"])] + [P.HandOff] == [P.Save(m1[P.BOOTED := "1"]), P.HandOff];
    assert [] + [P.HandOff] == [P.HandOff];
    assert [] + P.MarkSteps(m1, marks) == P.MarkSteps(m1, marks);
  }

  lemma DoesKeepsWorld(s: State, t: State, steps: seq<P.Step>, revertWorks: bool)
    requires Does(s, t, steps, revertWorks)
    ensures t.world == s.world
  {
  }

  lemma ReadyCarries(s: State, t: State, env: P.Flags, v: bool, a: bool, b: bool)
    requires Ready(s, env, v, a, b) && SameButEffects(s, t)
    ensures Ready(t, env, v, a, b)
  {
    hide Meaning, UniqueNames, GoodNames, ToBoolean;
  }

  lemma RevertCase(s: State, s2: State, env: P.Flags, v: bool, a: bool, b: bool, revertWorks: bool)
    requires Ready(s, env, v, a, b)
    requires !v && !a && b && SameButEffects(s.(status := s2.status), s2)
    requires s2.status == if revertWorks then Stopped else Running
    requires Does(s, s2, if revertWorks then [P.Revert] else [P.FailedRevert], revertWorks)
    ensures Completes(s, DirectStmt(FAREWELL, DirectStmt(MARK_RULE, s2)),
                      if revertWorks then [P.Revert] else [P.FailedRevert, P.HandOff], revertWorks)
  {
    if revertWorks {
      RevertRestarts(s, s2, revertWorks);
    } else {
      RevertGoesOn(s, s2, env, v, a, b, revertWorks);
    }
    hide *;
  }

  lemma RevertRestarts(s: State, s2: State, revertWorks: bool)
    requires s2.status == Stopped && Does(s, s2, [P.Revert], revertWorks)
    ensures Completes(s, DirectStmt(FAREWELL, DirectStmt(MARK_RULE, s2)), [P.Revert], revertWorks)
  {
    hide Does, DirectStmt, Completes, MARK_RULE, FAREWELL;
    HaltedStmt(MARK_RULE, s2);
    HaltedStmt(FAREWELL, s2);
    DoneIsComplete(s, s2, [P.Revert], revertWorks);
    assert [P.Revert] + [] == [P.Revert];
  }

  lemma RevertGoesOn(s: State, s2: State, env: P.Flags, v: bool, a: bool, b: bool, revertWorks: bool)
    requires Ready(s, env, v, a, b)
    requires b && SameButEffects(s.(status := Running), s2) && Does(s, s2, [P.FailedRevert], revertWorks)
    ensures Completes(s, DirectStmt(FAREWELL, DirectStmt(MARK_RULE, s2)), [P.FailedRevert, P.HandOff], revertWorks)
  {
    ReadyRuns(s, env, v, a, b);
    hide Ready, Does, DirectStmt, ValueOf, Reverts, Completes, Encode, MARK_RULE, FAREWELL;
    ReadyCarries(s, s2, env, v, a, b);
    EndRuns(s2, env, v, a, b, revertWorks);
    assert [] + [P.HandOff] == [P.HandOff];
    CompletesAfter(s, s2, DirectStmt(FAREWELL, DirectStmt(MARK_RULE, s2)), [P.FailedRevert], [P.HandOff], revertWorks);
  }

  lemma ReadyRuns(s: State, env: P.Flags, v: bool, a: bool, b: bool)
    requires Ready(s, env, v, a, b)
    ensures s.status == Running
  {
  }

  lemma RunNine(a: seq<Stmt>, b: seq<Stmt>, s: State)
    requires |a| == 5 && |b| == 4
    ensures DirectRun(a + b, s) ==
            DirectStmt(b[3], DirectStmt(b[2], DirectStmt(b[1], DirectStmt(b[0],
            DirectStmt(a[4], DirectStmt(a[3], DirectStmt(a[2], DirectStmt(a[1], DirectStmt(a[0], s)))))))))
  {
    hide DirectStmt;
    RunConcat(a, b, s);
    RunFive(a, s);
    RunFour(b, DirectRun(a, s));
  }

  lemma RunFour(b: seq<Stmt>, s: State)
    requires |b| == 4
    ensures DirectRun(b, s) == DirectStmt(b[3], DirectStmt(b[2], DirectStmt(b[1], DirectStmt(b[0], s))))
  {
    hide DirectStmt;
    var s2 := DirectStmt(b[1], DirectStmt(b[0], s));
    assert b[1..][1..] == b[2..];
    assert DirectRun(b, s) == DirectRun(b[1..], DirectStmt(b[0], s)) == DirectRun(b[2..], s2);
    assert b[2..][1..] == b[3..] && b[3..][1..] == [];
    assert DirectRun(b[3..], DirectStmt(b[2], s2)) == DirectRun([], DirectStmt(b[3], DirectStmt(b[2], s2)));
  }

  lemma RunFive(a: seq<Stmt>, s: State)
    requires |a| == 5
    ensures DirectRun(a, s)
         == DirectStmt(a[4], DirectStmt(a[3], DirectStmt(a[2], DirectStmt(a[1], DirectStmt(a[0], s)))))
  {
    hide DirectStmt;
    assert DirectRun(a, s) == DirectRun(a[1..], DirectStmt(a[0], s));
    RunFour(a[1..], DirectStmt(a[0], s));
  }

  lemma FlagsRun(s: State)
    requires s.status == Running
    ensures DirectStmt(LOADING[4], DirectStmt(LOADING[3], DirectStmt(LOADING[2], DirectStmt(LOADING[1], s))))
            == Flagged(s)
  {
    hide DirectStmt, GetFlag;
    hide Meaning;
    GetFlagRuns(FW_ACTIVE, P.ACTIVE, s);
    var s1 := DirectStmt(LOADING[1], s);
    GetFlagRuns(FW_AUTOVALIDATE, P.AUTOVALIDATE, s1);
    var s2 := DirectStmt(LOADING[2], s1);
    GetFlagRuns(FW_VALIDATED, P.VALIDATED, s2);
    var s3 := DirectStmt(LOADING[3], s2);
    GetFlagRuns(FW_BOOTED, P.BOOTED, s3);
  }

  /** From left to right, the file does what the protocol says. */
  lemma DirectConf(st: State, block: Option<seq<byte>>, revertWorks: bool) returns (validates: bool, marks: bool)
    requires Sound(st) && st.status == Running && Reverts(st.world, revertWorks) && Loadable(st, block)
    requires st.world.block(st.effects + [LOAD_CALL]) == block
    ensures var m := Meaning(LoadedVars(st, block));
            Completes(st, DirectRun(CONF, st), P.BootSteps(m, revertWorks, validates, marks), revertWorks)
            && SavesAre(st.world, DirectRun(CONF, st).effects, |st.effects| + 1, m, validates, marks)
  {
    var s0 := Applied(SETTINGS, st);
    ConfInParts();
    AppliedKeeps(SETTINGS, st);
    validates, marks := ConfParts(st, block, revertWorks);
    FlagsRun(DirectStmt(LOAD, s0));
    hide *;
    RunAssignments(SETTINGS, st);
    RunConcat(Assignments(SETTINGS), LOADING + RULES, st);
    RunNine(LOADING, RULES, s0);
  }

  lemma ConfInParts()
    ensures CONF == Assignments(SETTINGS) + (LOADING + RULES)
    ensures |LOADING| == 5 && LOADING[0] == LOAD
    ensures |RULES| == 4
    ensures forall s ::
              Rules(s) == DirectStmt(RULES[3], DirectStmt(RULES[2], DirectStmt(RULES[1], DirectStmt(RULES[0], s))))
  {
    hide Assignments, SETTINGS, DirectStmt, LOAD, AUTOVALIDATE_RULE, REVERT_RULE, MARK_RULE, FAREWELL, GetFlag;
  }

  lemma LoadIsNoStep(revertWorks: bool)
    ensures StepOf(LOAD_CALL, revertWorks) == [] && !LOAD_CALL.Saved?
  {
  }

  lemma LoadedSame(s: State, st: State, block: Option<seq<byte>>)
    requires s.env == st.env
    ensures LoadedVars(s, block) == LoadedVars(st, block)
  {
  }

  lemma ConfParts(st: State, block: Option<seq<byte>>, revertWorks: bool) returns (validates: bool, marks: bool)
    requires Sound(st) && st.status == Running && Reverts(st.world, revertWorks) && Loadable(st, block)
    requires st.world.block(st.effects + [LOAD_CALL]) == block
    ensures DirectStmt(LOAD, Applied(SETTINGS, st)).status == Running
    ensures var m := Meaning(LoadedVars(st, block));
            var t := Rules(Flagged(DirectStmt(LOAD, Applied(SETTINGS, st))));
            Completes(st, t, P.BootSteps(m, revertWorks, validates, marks), revertWorks)
            && SavesAre(st.world, t.effects, |st.effects| + 1, m, validates, marks)
  {
    hide Applied, DirectStmt, Meaning, ReadBlock, ValueOf, Does, Completes, Rules, Flagged, P.BootSteps, P.IsSet,
      Reverts;
    hide SETTINGS, LOAD, SavesAre, UniqueNames, GoodNames, LOAD_CALL, Ready, PlaceSet, Sound, LoadedVars;
    LoadedIsGood(st, block);
    var s0 := Applied(SETTINGS, st);
    AppliedKeeps(SETTINGS, st);
    SettingsSetPlace(st);
    LoadedSame(s0, st, block);
    LoadRuns(s0, block);
    var s1 := DirectStmt(LOAD, s0);
    FlaggedIsReady(s1);
    var s2, m := Flagged(s1), Meaning(s1.env);
    var v, a, b := P.IsSet(m, P.VALIDATED), P.IsSet(m, P.AUTOVALIDATE), P.IsSet(m, P.BOOTED);
    validates, marks := RulesRun(s2, m, v, a, b, revertWorks);
    var steps := P.BootSteps(m, revertWorks, validates, marks);
    LoadIsNoStep(revertWorks);
    DoesOne(st, s2, LOAD_CALL, revertWorks);
    CompletesAfter(st, s2, Rules(s2), [], steps, revertWorks);
    assert [] + steps == steps;
  }

  // ----- The file is clean ----------------------------------------------------

  lemma {:induction false} NoNegations(t: Term)
    requires Built(t)
    ensures PureNegs(t) && NegReads(t) == {}
  {
    match t
    case Fun(_, ps) =>
      forall i | 0 <= i < |ps|
        ensures PureNegs(ps[i]) && NegReads(ps[i]) == {}
      {
        NoNegations(ps[i]);
      }
    case _ =>
  }

  lemma BlockIsSettled(block: seq<Term>)
    requires forall i :: 0 <= i < |block| ==> Built(block[i])
    ensures Settled(block)
  {
    hide Built, PureNegs, Writes;
    forall i | 0 <= i < |block|
      ensures PureNegs(block[i]) && NegReads(block[i]) == {}
    {
      NoNegations(block[i]);
    }
  }

  /** A clean statement without negations. */
  predicate Plain(stmt: Stmt) {
    CleanStmt(stmt) && SettledStmt(stmt)
  }

  lemma AssignmentIsPlain(name: cstring, t: Term)
    requires ValueTerm(t) && Built(t)
    ensures Plain(Do(Assigned(name, t)))
  {
    NoNegations(Assigned(name, t));
  }

  lemma {:induction false} AssignmentsArePlain(settings: seq<(cstring, Value)>)
    ensures forall i :: 0 <= i < |Assignments(settings)| ==> Plain(Assignments(settings)[i])
  {
    if settings != [] {
      hide Plain, Assigned;
      AssignmentIsPlain(settings[0].0, Lit(settings[0].1));
      AssignmentsArePlain(settings[1..]);
    }
  }

  lemma LoadingIsPlain()
    ensures |LOADING| == 5 && forall i :: 0 <= i < |LOADING| ==> Plain(LOADING[i])
  {
    assert Plain(LOAD);
    hide Plain, Assigned;
    FlagIsPlain(FW_ACTIVE, P.ACTIVE);
    FlagIsPlain(FW_AUTOVALIDATE, P.AUTOVALIDATE);
    FlagIsPlain(FW_VALIDATED, P.VALIDATED);
    FlagIsPlain(FW_BOOTED, P.BOOTED);
  }

  lemma FlagIsPlain(name: cstring, flag: cstring)
    ensures Plain(GetFlag(name, flag))
  {
    hide Plain;
    AssignmentIsPlain(name, Fun(Getenv, [Text1(flag)]));
  }

  lemma PrintIsPlain(ps: seq<Term>)
    requires ps != [] && forall i :: 0 <= i < |ps| ==> ps[i].Lit? || ps[i].Ident?
    ensures CleanAction(Fun(Print, ps)) && Built(Fun(Print, ps))
  {
  }

  lemma RulesArePlain()
    ensures |RULES| == 4 && forall i :: 0 <= i < |RULES| ==> Plain(RULES[i])
  {
    AutovalidateIsPlain();
    RevertIsPlain();
    MarkIsPlain();
    FarewellIsPlain();
    hide Plain, AUTOVALIDATE_RULE, REVERT_RULE, MARK_RULE, FAREWELL;
  }

  lemma AutovalidateIsPlain()
    ensures Plain(AUTOVALIDATE_RULE)
  {
    BlockIsSettled(AUTOVALIDATE_RULE.block);
    hide Settled;
  }

  lemma RevertIsPlain()
    ensures Plain(REVERT_RULE)
  {
    PrintIsPlain(REVERTING);
    PrintIsPlain(REVERT_FAILED);
    BlockIsSettled(REVERT_RULE.block);
    hide REVERTING, REVERT_FAILED, Settled;
  }

  lemma MarkIsPlain()
    ensures Plain(MARK_RULE)
  {
    BlockIsSettled(MARK_RULE.block);
    hide Settled;
  }

  lemma FarewellIsPlain()
    ensures Plain(FAREWELL)
  {
    PrintIsPlain(FAREWELL.action.params);
    NoNegations(FAREWELL.action);
  }

  lemma ConfIsPlain()
    ensures Clean(CONF) && forall i :: 0 <= i < |CONF| ==> SettledStmt(CONF[i])
  {
    AssignmentsArePlain(SETTINGS);
    LoadingIsPlain();
    RulesArePlain();
    assert forall i :: 0 <= i < |CONF| ==> Plain(CONF[i]) by {
      hide Plain, SETTINGS, LOADING, RULES, Assignments;
    }
    hide CleanStmt, SettledStmt, CONF;
  }

  // ----- The theorem ----------------------------------------------------------

  /** The interpreter on the file, parsing and running in stages, does to the
      device exactly the steps of the protocol on the environment it loaded, less
      the saves that fail or find no room. */
  lemma ConfRefinesProtocol(st: State, block: Option<seq<byte>>, revertWorks: bool, fuel: nat)
      returns (validates: bool, marks: bool)
    requires Sound(st) && st.status == Running && Reverts(st.world, revertWorks) && Loadable(st, block)
    requires st.world.block(st.effects + [LOAD_CALL]) == block && fuel >= ProgramDepth(CONF)
    ensures var m := Meaning(LoadedVars(st, block));
            Completes(st, StagedRun(CONF, st, fuel), P.BootSteps(m, revertWorks, validates, marks), revertWorks)
            && SavesAre(st.world, StagedRun(CONF, st, fuel).effects, |st.effects| + 1, m, validates, marks)
  {
    hide *;
    ConfIsPlain();
    StagingKeepsMeaning(CONF, st, fuel);
    validates, marks := DirectConf(st, block, revertWorks);
  }

  /** On a device whose saves fail it takes the other steps only. */
  lemma ConfWithoutSaves(st: State, block: Option<seq<byte>>, revertWorks: bool, fuel: nat)
    requires Sound(st) && st.status == Running && Reverts(st.world, revertWorks) && Loadable(st, block)
    requires st.world.block(st.effects + [LOAD_CALL]) == block && fuel >= ProgramDepth(CONF)
    requires Stores(st.world, false)
    ensures var m := Meaning(LoadedVars(st, block));
            var steps := P.WithoutSaves(P.BootSteps(m, revertWorks, true, true));
            Completes(st, StagedRun(CONF, st, fuel), steps, revertWorks)
  {
    hide Completes, StagedRun, CONF, LOAD_CALL, Stores, P.BootSteps, P.WithoutSaves, Meaning, LoadedVars, Loadable,
      RoomFor, Reverts;
    hide SavesAre;
    var validates, marks := ConfRefinesProtocol(st, block, revertWorks, fuel);
    var m := Meaning(LoadedVars(st, block));
    NoSaves(st.world, StagedRun(CONF, st, fuel).effects, |st.effects| + 1, m, revertWorks, validates, marks);
    P.LostSaves(m, revertWorks);
  }

  lemma NoSaves(w: World, effects: seq<Effect>, at: nat, m: P.Flags, revertWorks: bool, validates: bool, marks: bool)
    requires SavesAre(w, effects, at, m, validates, marks) && Stores(w, false)
    ensures P.BootSteps(m, revertWorks, validates, marks) == P.BootSteps(m, revertWorks, false, false)
  {
    hide P.IsSet, SaveIs, Stores, RoomFor;
    var m1 := P.AfterAutovalidate(m);
    if Autovalidates(m) {
      SaveAnswers(w, effects, at, m1, validates);
    }
    if !P.IsSet(m, P.BOOTED) {
      SaveAnswers(w, effects, if Autovalidates(m) then at + 1 else at, m1[P.BOOTED := "1"], marks);
    }
    P.FlagNames();
    P.OtherFlag(m, P.VALIDATED, "1", P.BOOTED);
  }

  /** If power fails during the run, the device has seen a prefix of the steps. */
  lemma PowerCut(s: State, t: State, steps: seq<P.Step>, revertWorks: bool, k: nat)
    requires Completes(s, t, steps, revertWorks) && |s.effects| + k <= |t.effects|
    ensures var seen := StepsOf(t.effects[|s.effects|..|s.effects| + k], revertWorks);
            |seen| <= |steps| && seen == steps[..|seen|]
  {
    hide StepsOf;
    var n := |s.effects|;
    assert t.effects[n..] == t.effects[n..n + k] + t.effects[n + k..];
    StepsConcat(t.effects[n..n + k], t.effects[n + k..], revertWorks);
  }

  // ----- One run in full -------------------------------------------------------

  /** A machine at power-on. */
  function Started(w: World): State {
    State(map[], [], [], Running, w)
  }

  predicate IsRevert(e: Effect) {
    e.Called? && e.fn == FwupRevert
  }

  /** A device whose environment cannot be read, and on which a revert fails; saves
      work or fail. */
  function NewWorld(saves: bool): World {
    var works := (e: seq<Effect>) => e == [] || !IsRevert(e[|e| - 1]);
    World(e => "", e => None, e => saves, works, (l, r) => 0)
  }

  /** The file, with as much recursion as it needs, takes these steps. */
  ghost predicate ConfTakes(st: State, steps: seq<P.Step>, revertWorks: bool) {
    Completes(st, StagedRun(CONF, st, ProgramDepth(CONF)), steps, revertWorks)
  }

  function FirstSteps(saves: bool): seq<P.Step> {
    SavedSteps(saves, map[P.BOOTED := "1"]) + [P.HandOff]
  }

  /** The theorem is about something: on a new device the file marks the firmware as
      booted and hands control over, and where saves fail it hands control over
      without the mark. */
  lemma NewDeviceBoots(saves: bool)
    ensures ConfTakes(Started(NewWorld(saves)), FirstSteps(saves), false)
  {
    hide CONF, StagedRun, ProgramDepth, Completes, P.IsSet, NewWorld, FirstSteps, P.BootSteps, Reverts, Loadable,
      Stores;
    hide SavesAre, LOAD_CALL;
    NewDeviceIsSound(saves);
    assert Meaning([]) == map[];
    var validates, marks := ConfRefinesProtocol(Started(NewWorld(saves)), None, false, ProgramDepth(CONF));
    var effects := StagedRun(CONF, Started(NewWorld(saves)), ProgramDepth(CONF)).effects;
    FirstBoot(NewWorld(saves), effects, saves, validates, marks);
  }

  lemma FirstBoot(w: World, effects: seq<Effect>, saves: bool, validates: bool, marks: bool)
    requires Stores(w, saves) && SavesAre(w, effects, 1, map[], validates, marks)
    ensures P.BootSteps(map[], false, validates, marks) == FirstSteps(saves)
  {
    P.EmptyFlags(P.VALIDATED);
    P.EmptyFlags(P.AUTOVALIDATE);
    P.EmptyFlags(P.BOOTED);
    hide P.IsSet, Stores;
    if saves {
      RoomForOne();
    }
    hide RoomFor;
    var m: P.Flags := map[];
    assert P.AfterAutovalidate(m) == m;
    SaveAnswers(w, effects, 1, m[P.BOOTED := "1"], marks);
    StepsOfSaves(m, false, validates, marks);
  }

  lemma RoomForOne()
    ensures RoomFor(map[P.BOOTED := "1"])
  {
    var vars := [Pair(P.BOOTED, "1")];
    assert vars[1..] == [];
    assert |Encode(vars)| == |Entry(vars[0])| == 19;
    assert HasRoom(vars, SIZE);
    assert Meaning(vars) == map[P.BOOTED := "1"] by {
      assert Meaning([]) == map[];
    }
    assert UniqueNames(vars);
    hide RoomFor, HasRoom, Meaning, UniqueNames;
    RoomIsForTheMap(vars);
  }

  lemma NewDeviceIsSound(saves: bool)
    ensures var st := Started(NewWorld(saves));
            && Sound(st) && st.status == Running && st.env == [] && Reverts(st.world, false)
            && st.world.block(st.effects + [LOAD_CALL]) == None && Loadable(st, None) && Stores(st.world, saves)
  {
    hide ReadBlock;
    NewWorldAnswers(saves);
    hide NewWorld;
  }

  lemma NewWorldAnswers(saves: bool)
    ensures var w := NewWorld(saves);
            Reverts(w, false) && Stores(w, saves) && w.block([] + [LOAD_CALL]) == None
  {
  }
}
