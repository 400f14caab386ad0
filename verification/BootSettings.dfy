/** What the configuration file of the x86_64 demo leaves to the program that goes on
    after it: the settings, the active slot, and the last line that it prints. */
module BootSettings {
  import opened CString
  import opened Values
  import opened EnvBlock
  import opened EnvMap
  import opened Script
  import opened Staged
  import opened StagedTheorems
  import opened BootConf
  import opened Builtins
  import P = BootProtocol

  // ----- What a program leaves alone ------------------------------------------

  predicate Untouched(stmt: Stmt, name: cstring) {
    match stmt
    case Do(action) => Variable(name) !in Writes(action)
    case Rule(_, block) => forall i :: 0 <= i < |block| ==> Variable(name) !in Writes(block[i])
  }

  lemma {:induction false} BlockFrame(block: seq<Term>, st: State, name: cstring)
    requires forall i :: 0 <= i < |block| ==> Variable(name) !in Writes(block[i])
    ensures ValueOf(ExecAll(block, st), name) == ValueOf(st, name)
    decreases |block|
  {
    if block != [] {
      hide Exec, Writes;
      ExecFrame(block[0], st, Variable(name));
      BlockFrame(block[1..], Exec(block[0], st), name);
    }
  }

  lemma {:induction false} CondKeepsStore(c: Cond, st: State)
    ensures EvalCond(c, st).1.store == st.store
    decreases c
  {
    hide Eval, CompareValues;
    match c
    case Holds(t) => EvalOnlyEffects(t, st);
    case Compares(_, left, right) =>
      EvalOnlyEffects(left, st);
      EvalOnlyEffects(right, Eval(left, st).1);
    case Not(d) => CondKeepsStore(d, st);
    case And(d, e) =>
      CondKeepsStore(d, st);
      CondKeepsStore(e, EvalCond(d, st).1);
    case Or(d, e) =>
      CondKeepsStore(d, st);
      CondKeepsStore(e, EvalCond(d, st).1);
  }

  lemma StmtFrame(stmt: Stmt, st: State, name: cstring)
    requires Untouched(stmt, name)
    ensures ValueOf(DirectStmt(stmt, st), name) == ValueOf(st, name)
  {
    hide Exec, ExecAll, EvalCond, Writes;
    match stmt
    case Do(action) => ExecFrame(action, st, Variable(name));
    case Rule(cond, block) =>
      CondKeepsStore(cond, st);
      BlockFrame(block, EvalCond(cond, st).1, name);
  }

  lemma {:induction false} RunFrame(program: seq<Stmt>, st: State, name: cstring)
    requires forall i :: 0 <= i < |program| ==> Untouched(program[i], name)
    ensures ValueOf(DirectRun(program, st), name) == ValueOf(st, name)
    decreases |program|
  {
    if program != [] {
      hide DirectStmt, Untouched;
      StmtFrame(program[0], st, name);
      RunFrame(program[1..], DirectStmt(program[0], st), name);
    }
  }

  // ----- The file -------------------------------------------------------------

  const FLAG_VARIABLES: set<cstring> := {"fw_active", "fw_autovalidate", "fw_validated", "fw_booted"}
  const REPORTS: set<cstring> := {"uboot_env.loaded", "uboot_env.modified"}

  lemma RulesWrite(name: cstring)
    requires name !in {FW_VALIDATED, ENV_MODIFIED}
    ensures |RULES| == 4 && forall i :: 0 <= i < 4 ==> Untouched(RULES[i], name)
  {
    hide REVERTING, REVERT_FAILED;
  }

  lemma LoadingWrites(name: cstring)
    requires name !in FLAG_VARIABLES && name !in REPORTS
    ensures |LOADING| == 5 && forall i :: 0 <= i < 5 ==> Untouched(LOADING[i], name)
  {
  }

  lemma RestLeaves(name: cstring, st: State)
    requires name !in FLAG_VARIABLES && name !in REPORTS
    ensures ValueOf(DirectRun(LOADING + RULES, st), name) == ValueOf(st, name)
  {
    LoadingWrites(name);
    RulesWrite(name);
    hide LOADING, RULES, Untouched;
    RunFrame(LOADING + RULES, st, name);
  }

  lemma StagedIsDirect(st: State, fuel: nat)
    requires Sound(st) && st.status == Running && fuel >= ProgramDepth(CONF)
    ensures StagedRun(CONF, st, fuel) == DirectRun(LOADING + RULES, Applied(SETTINGS, st))
  {
    ConfInParts();
    hide *;
    ConfIsPlain();
    StagingKeepsMeaning(CONF, st, fuel);
    RunConcat(Assignments(SETTINGS), LOADING + RULES, st);
    RunAssignments(SETTINGS, st);
  }

  lemma SettingIs(st: State, fuel: nat, k: nat)
    requires Sound(st) && st.status == Running && fuel >= ProgramDepth(CONF) && k < |SETTINGS|
    requires forall i :: k < i < |SETTINGS| ==> SETTINGS[i].0 != SETTINGS[k].0
    requires SETTINGS[k].0 !in FLAG_VARIABLES && SETTINGS[k].0 !in REPORTS
    ensures ValueOf(StagedRun(CONF, st, fuel), SETTINGS[k].0) == SETTINGS[k].1
  {
    hide *;
    StagedIsDirect(st, fuel);
    RestLeaves(SETTINGS[k].0, Applied(SETTINGS, st));
    AppliedSetting(SETTINGS, st, k);
  }

  lemma SettingNames()
    ensures |SETTINGS| == 9
    ensures SETTINGS[0] == ("run_repl", Bool(true)) && SETTINGS[1] == ("uboot_env.path", Str("DISKUUID=44332211"))
    ensures SETTINGS[2] == ("uboot_env.start", Num(512)) && SETTINGS[3] == ("uboot_env.count", Num(256))
    ensures SETTINGS[4] == ("rootfs.path", Str("PARTUUID=44332211-02"))
    ensures SETTINGS[5] == ("rootfs.fstype", Str("squashfs"))
    ensures SETTINGS[6] == ("rootfs.secret", Str("")) && SETTINGS[7] == ("rootfs.cipher", Str(""))
    ensures SETTINGS[8] == ("rootfs.encrypted", Bool(false))
  {
  }

  lemma NamesApart()
    ensures forall i, j :: 0 <= i < j < |SETTINGS| ==> SETTINGS[i].0 != SETTINGS[j].0
    ensures forall i :: 0 <= i < |SETTINGS| ==> SETTINGS[i].0 !in FLAG_VARIABLES && SETTINGS[i].0 !in REPORTS
  {
    SettingNames();
    hide SETTINGS;
    assert forall i :: 0 <= i < 9 ==> |SETTINGS[i].0| in {8, 14, 15, 11, 13, 16};
    assert SETTINGS[2].0[10] == 's' && SETTINGS[3].0[10] == 'c';
    assert SETTINGS[5].0[7] == 'f' && SETTINGS[6].0[7] == 's' && SETTINGS[7].0[7] == 'c';
    forall i | 0 <= i < 9
      ensures SETTINGS[i].0 !in FLAG_VARIABLES && SETTINGS[i].0 !in REPORTS
    {
      NotFlag(SETTINGS[i].0);
    }
  }

  lemma NotFlag(name: cstring)
    requires |name| >= 8 && (name[0] == 'r' || (name[0] == 'u' && |name| in {14, 15}))
    ensures name !in FLAG_VARIABLES && name !in REPORTS
  {
    assert |"uboot_env.loaded"| == 16 && |"uboot_env.modified"| == 18;
    assert "uboot_env.loaded"[0] == 'u' && "fw_active"[0] == 'f' && "fw_autovalidate"[0] == 'f';
    assert "fw_validated"[0] == 'f' && "fw_booted"[0] == 'f';
  }

  const DISK: cstring := "DISKUUID=44332211"
  const SECOND_PARTITION: cstring := "PARTUUID=44332211-02"

  predicate HasPlace(t: State) {
    && ValueOf(t, "uboot_env.path") == Str(DISK)
    && ValueOf(t, "uboot_env.start") == Num(512) && ValueOf(t, "uboot_env.count") == Num(256)
  }

  predicate HasRootfs(t: State) {
    ValueOf(t, "rootfs.path") == Str(SECOND_PARTITION) && ValueOf(t, "rootfs.fstype") == Str("squashfs")
  }

  predicate HasNoCipher(t: State) {
    ValueOf(t, "rootfs.secret") == Str("") && ValueOf(t, "rootfs.cipher") == Str("")
  }

  predicate HasSettings(t: State) {
    && HasPlace(t) && HasRootfs(t) && HasNoCipher(t)
    && ValueOf(t, "run_repl") == Bool(true) && ValueOf(t, "rootfs.encrypted") == Bool(false)
  }

  /** Whatever the device answers, the program that goes on after the file finds every
      setting as the file has it. */
  lemma FileSets(st: State, fuel: nat)
    requires Sound(st) && st.status == Running && fuel >= ProgramDepth(CONF)
    ensures HasSettings(StagedRun(CONF, st, fuel))
  {
    SettingNames();
    NamesApart();
    hide *;
    forall k | 0 <= k < 9
      ensures ValueOf(StagedRun(CONF, st, fuel), SETTINGS[k].0) == SETTINGS[k].1
    {
      SettingIs(st, fuel, k);
    }
    AllSettings(StagedRun(CONF, st, fuel));
  }

  lemma AllSettings(t: State)
    requires |SETTINGS| == 9 && forall k :: 0 <= k < 9 ==> ValueOf(t, SETTINGS[k].0) == SETTINGS[k].1
    ensures HasSettings(t)
  {
    SettingNames();
    hide SETTINGS, ValueOf;
    assert ValueOf(t, SETTINGS[0].0) == SETTINGS[0].1 && ValueOf(t, SETTINGS[1].0) == SETTINGS[1].1;
    assert ValueOf(t, SETTINGS[2].0) == SETTINGS[2].1 && ValueOf(t, SETTINGS[3].0) == SETTINGS[3].1;
    assert ValueOf(t, SETTINGS[4].0) == SETTINGS[4].1 && ValueOf(t, SETTINGS[5].0) == SETTINGS[5].1;
    assert ValueOf(t, SETTINGS[6].0) == SETTINGS[6].1 && ValueOf(t, SETTINGS[7].0) == SETTINGS[7].1;
    assert ValueOf(t, SETTINGS[8].0) == SETTINGS[8].1;
  }

  // ----- The slot -------------------------------------------------------------

  lemma LoadedState(st: State, block: Option<seq<byte>>)
    requires Sound(st) && st.status == Running && (block.Some? ==> |block.value| >= 4)
    requires st.world.block(st.effects + [LOAD_CALL]) == block
    ensures var s := DirectStmt(LOAD, Applied(SETTINGS, st));
            s.status == Running && s.env == LoadedVars(st, block) && PlaceSet(s)
  {
    hide *;
    AppliedKeeps(SETTINGS, st);
    SettingsSetPlace(st);
    LoadRuns(Applied(SETTINGS, st), block);
    LoadedSame(Applied(SETTINGS, st), st, block);
  }

  lemma SlotIs(s: State)
    ensures ValueOf(Flagged(s), FW_ACTIVE) == DoGetenv(s, P.ACTIVE)
  {
    Names();
    hide DoGetenv;
  }

  lemma LoadingRuns(s0: State)
    requires DirectStmt(LOAD, s0).status == Running
    ensures DirectRun(LOADING, s0) == Flagged(DirectStmt(LOAD, s0))
  {
    ConfInParts();
    hide LOADING, DirectStmt, Flagged, LOAD;
    FlagsRun(DirectStmt(LOAD, s0));
    RunFive(LOADING, s0);
  }

  /** fw_active is the active slot of the environment that was loaded. */
  lemma SlotIsKept(st: State, block: Option<seq<byte>>, fuel: nat)
    requires Sound(st) && st.status == Running && (block.Some? ==> |block.value| >= 4)
    requires st.world.block(st.effects + [LOAD_CALL]) == block && fuel >= ProgramDepth(CONF)
    ensures var m := Meaning(LoadedVars(st, block));
            ValueOf(StagedRun(CONF, st, fuel), "fw_active")
            == Str(if "nerves_fw_active" in m then m["nerves_fw_active"] else "")
  {
    var s0 := Applied(SETTINGS, st);
    var s1 := DirectStmt(LOAD, s0);
    SlotNames();
    RulesWrite(FW_ACTIVE);
    GetenvIsMeaning(s1);
    hide *;
    StagedIsDirect(st, fuel);
    LoadedState(st, block);
    RunConcat(LOADING, RULES, s0);
    LoadingRuns(s0);
    SlotIs(s1);
    RunFrame(RULES, Flagged(s1), FW_ACTIVE);
  }

  lemma SlotNames()
    ensures FW_ACTIVE == "fw_active" && FW_ACTIVE !in {FW_VALIDATED, ENV_MODIFIED}
    ensures P.ACTIVE == "nerves_fw_active"
  {
    Names();
  }

  lemma GetenvIsMeaning(s: State)
    ensures DoGetenv(s, P.ACTIVE)
         == Str(if "nerves_fw_active" in Meaning(s.env) then Meaning(s.env)["nerves_fw_active"] else "")
  {
    hide Meaning;
  }

  // ----- The last line --------------------------------------------------------

  function Farewell(slot: cstring): seq<char> {
    "Running out of the '" + slot + "' firmware slot...\n"
  }

  lemma FarewellSays(s: State)
    requires s.status == Running
    ensures var t := DirectStmt(FAREWELL, s);
            Output(t.effects) == Output(s.effects) + Farewell(ToText(ValueOf(s, "fw_active")))
            && t.status == Running && t.store == s.store
  {
    var ps := FAREWELL.action.params;
    FarewellTexts(s);
    hide Output, Exec, Eval, ToText, ValueOf, TextsIn;
    PrintSays(ps, s);
    assert TextsIn(ps, s) + "\n" == Farewell(ToText(ValueOf(s, "fw_active")));
  }

  lemma FarewellTexts(s: State)
    ensures TextsIn(FAREWELL.action.params, s)
         == "Running out of the '" + ToText(ValueOf(s, "fw_active")) + "' firmware slot..."
  {
    var a, b, c := Text1("Running out of the '"), Ident(FW_ACTIVE), Text1("' firmware slot...");
    TextsFirst(a, [b, c], s);
    TextsFirst(b, [c], s);
    TextsFirst(c, [], s);
    assert [c] + [] == [c] && [b] + [c] == [b, c] && [a] + [b, c] == [a, b, c];
    hide ValueOf;
  }

  lemma TextsFirst(t: Term, ps: seq<Term>, s: State)
    ensures TextsIn([t] + ps, s) == ToText(Eval(t, s).0) + TextsIn(ps, s)
  {
    hide Eval, ToText;
    assert ([t] + ps)[1..] == ps;
  }

  lemma {:induction false} HaltedRun(program: seq<Stmt>, s: State)
    requires s.status != Running
    ensures DirectRun(program, s) == s
    decreases |program|
  {
    if program != [] {
      hide DirectStmt;
      HaltedStmt(program[0], s);
      HaltedRun(program[1..], s);
    }
  }

  lemma RulesCount()
    ensures |RULES| == 4
  {
  }

  lemma LastIsFarewell(s: State)
    requires |RULES| == 4
    ensures DirectRun(LOADING + RULES, s) == DirectStmt(FAREWELL, DirectRun(LOADING + RULES[..3], s))
  {
    ConfInParts();
    assert RULES[3] == FAREWELL by { hide AUTOVALIDATE_RULE, REVERT_RULE, MARK_RULE, FAREWELL; }
    hide DirectStmt, LOADING, RULES, FAREWELL;
    var front := LOADING + RULES[..3];
    assert LOADING + RULES == front + [RULES[3]];
    RunConcat(front, [RULES[3]], s);
    var t := DirectRun(front, s);
    assert [RULES[3]][1..] == [];
    assert DirectRun([RULES[3]], t) == DirectRun([], DirectStmt(RULES[3], t));
  }

  /** If the firmware gets control, the last line on the console names the slot. */
  lemma FileSays(st: State, fuel: nat)
    requires Sound(st) && st.status == Running && fuel >= ProgramDepth(CONF)
    ensures var t := StagedRun(CONF, st, fuel);
            t.status == Running ==>
              exists before :: Output(t.effects) == before + Farewell(ToText(ValueOf(t, "fw_active")))
  {
    var s0 := Applied(SETTINGS, st);
    hide *;
    StagedIsDirect(st, fuel);
    RulesCount();
    LastIsFarewell(s0);
    var s := DirectRun(LOADING + RULES[..3], s0);
    if s.status == Running {
      FarewellSays(s);
      SlotStays(s, DirectStmt(FAREWELL, s));
    } else {
      HaltedStmt(FAREWELL, s);
    }
  }

  lemma SlotStays(s: State, t: State)
    requires s.store == t.store
    ensures ValueOf(s, "fw_active") == ValueOf(t, "fw_active")
  {
  }
}
