/** The validate / revert / mark-booted protocol that the configuration file of
    the x86_64 demo runs at every boot, over whole lives of a device: boots cut
    short by power loss at any step, upgrades cut short as well, and anything
    that running firmware does to the other environment variables. */
module BootProtocol {
  import opened CString
  import opened Values

  type Flags = map<cstring, cstring>

  const VALIDATED: cstring := "nerves_fw_validated"
  const AUTOVALIDATE: cstring := "nerves_fw_autovalidate"
  const BOOTED: cstring := "nerves_fw_booted"
  const ACTIVE: cstring := "nerves_fw_active"

  /** What getenv gives, as a truth value. */
  predicate IsSet(m: Flags, name: cstring) {
    ToBoolean(Str(if name in m then m[name] else ""))
  }

  // ----- One boot -------------------------------------------------------------

  /** What a boot does to the world outside the machine, in order. */
  datatype Step = Save(env: Flags) | Revert | FailedRevert | HandOff

  /** The environment after the first rule. */
  function AfterAutovalidate(m: Flags): Flags {
    if !IsSet(m, VALIDATED) && IsSet(m, AUTOVALIDATE) then m[VALIDATED := "1"] else m
  }

  predicate MustRevert(m: Flags) {
    !IsSet(m, VALIDATED) && !IsSet(m, AUTOVALIDATE) && IsSet(m, BOOTED)
  }

  /** The three rules, on the environment that loadenv gave.  A save that does not
      reach the device is no step: `validates` and `marks` say which ones do. */
  function BootSteps(m: Flags, revertWorks: bool, validates: bool, marks: bool): seq<Step> {
    if MustRevert(m) then (if revertWorks then [Revert] else [FailedRevert, HandOff])
    else if !IsSet(m, VALIDATED) && IsSet(m, AUTOVALIDATE) && validates then
      [Save(AfterAutovalidate(m))] + MarkSteps(AfterAutovalidate(m), marks)
    else MarkSteps(AfterAutovalidate(m), marks)
  }

  /** The last rule and the hand-over. */
  function MarkSteps(m: Flags, marks: bool): seq<Step> {
    if IsSet(m, BOOTED) || !marks then [HandOff] else [Save(m[BOOTED := "1"]), HandOff]
  }

  /** Losing every save is the same as not taking those steps. */
  lemma LostSaves(m: Flags, revertWorks: bool)
    ensures BootSteps(m, revertWorks, false, false) == WithoutSaves(BootSteps(m, revertWorks, true, true))
  {
    hide IsSet;
    var m1 := AfterAutovalidate(m);
    var save, mark := Save(m1), Save(m1[BOOTED := "1"]);
    assert [HandOff][1..] == [] && WithoutSaves([HandOff]) == [HandOff] + WithoutSaves([]) == [HandOff];
    assert [FailedRevert, HandOff][1..] == [HandOff];
    assert [Revert][1..] == [];
    assert [mark] + [HandOff] == [mark, HandOff];
    SaveIsLost(m1[BOOTED := "1"], [HandOff]);
    SaveIsLost(m1, MarkSteps(m1, true));
  }

  lemma SaveIsLost(env: Flags, more: seq<Step>)
    ensures WithoutSaves([Save(env)] + more) == WithoutSaves(more)
  {
    assert ([Save(env)] + more)[1..] == more;
    assert [] + WithoutSaves(more) == WithoutSaves(more);
  }

  function WithoutSaves(steps: seq<Step>): seq<Step> {
    if steps == [] then []
    else (if steps[0].Save? then [] else [steps[0]]) + WithoutSaves(steps[1..])
  }

  // ----- The life of a device -------------------------------------------------

  /** Both counts are about the firmware that is installed now, since it was
      installed, brought back or last validated: `trials` counts the times that it
      got control without being validated, `failedReverts` the reverts that should
      have replaced it and failed. */
  datatype Device = Device(env: Flags, running: bool, trials: nat, failedReverts: nat)

  datatype Event =
    /** A boot.  Power is lost after `cut` steps, if there are more. */
    | PowerOn(cut: nat, loads: bool, validates: bool, marks: bool, revertWorks: bool, reverted: Flags)
    | PowerOff
    /** Running firmware says that it works. */
    | Validate
    /** Running firmware sets another variable. */
    | SetOther(name: cstring, value: cstring)
    /** An upgrade: three writes, of which power loss may spare the first ones. */
    | Upgrade(slot: cstring, cut: nat)

  function Perform(step: Step, d: Device, reverted: Flags): Device {
    match step
    case Save(env) => Counted(d.(env := env))
    // The firmware that was running before is back; its flags are its own.
    case Revert => Device(reverted, false, 0, 0)
    case FailedRevert => d.(failedReverts := d.failedReverts + 1)
    case HandOff =>
      if IsSet(d.env, VALIDATED) then Untried(d.(running := true)) else d.(running := true, trials := d.trials + 1)
  }

  function PerformAll(steps: seq<Step>, d: Device, reverted: Flags): Device {
    if steps == [] then d else PerformAll(steps[1..], Perform(steps[0], d, reverted), reverted)
  }

  function Counted(d: Device): Device {
    if IsSet(d.env, VALIDATED) then Untried(d) else d
  }

  /** The counts start again. */
  function Untried(d: Device): Device {
    d.(trials := 0, failedReverts := 0)
  }

  /** What is done when power is lost after `cut` steps. */
  function Upto(steps: seq<Step>, cut: nat): seq<Step> {
    if cut < |steps| then steps[..cut] else steps
  }

  /** Events that cannot happen now change nothing. */
  function Next(d: Device, e: Event): Device {
    match e
    case PowerOn(cut, loads, validates, marks, revertWorks, reverted) =>
      if d.running then d
      else PerformAll(Upto(BootSteps(if loads then d.env else map[], revertWorks, validates, marks), cut), d, reverted)
    case PowerOff => d.(running := false)
    case Validate => if d.running then Counted(d.(env := d.env[VALIDATED := "1"])) else d
    case SetOther(name, value) =>
      if d.running && name !in {VALIDATED, BOOTED} then d.(env := d.env[name := value]) else d
    case Upgrade(slot, cut) =>
      // Only validated firmware may be upgraded.
      if !d.running || VALIDATED !in d.env || d.env[VALIDATED] != "1" then d
      else
        var one := d.env[ACTIVE := slot];
        var two := one[VALIDATED := "0"];
        var three := two[BOOTED := "0"];
        var env := if cut == 0 then d.env else if cut == 1 then one else if cut == 2 then two else three;
        d.(running := false, env := env)
  }

  function Life(d: Device, events: seq<Event>): Device
    decreases |events|
  {
    if events == [] then d else Life(Next(d, events[0]), events[1..])
  }

  /** The environment could be read and written at every boot. */
  predicate AlwaysStores(events: seq<Event>) {
    forall i :: 0 <= i < |events| ==> Stores(events[i])
  }

  predicate Stores(e: Event) {
    e.PowerOn? ==> e.loads && e.validates && e.marks
  }

  /** What the protocol is for: unvalidated firmware has had control once at most,
      plus once for every revert that failed. */
  predicate Bounded(d: Device) {
    d.trials <= 1 + d.failedReverts
  }

  /** Another trial would not break the bound. */
  predicate MayTry(d: Device) {
    d.trials <= d.failedReverts
  }

  /** Bounded now, and if nothing on the device would stop the next trial, then that
      one is still allowed. */
  predicate Safe(d: Device) {
    Bounded(d)
    && (!IsSet(d.env, VALIDATED) && !IsSet(d.env, BOOTED) && (d.running || !IsSet(d.env, AUTOVALIDATE)) ==> MayTry(d))
  }

  /** Validated firmware has no trials and no failed reverts: every event sees to
      that, so what replaces it starts with none. */
  predicate Tallied(d: Device) {
    IsSet(d.env, VALIDATED) ==> d.trials == 0 && d.failedReverts == 0
  }

  lemma FlagTexts(m: Flags, name: cstring)
    ensures IsSet(m[name := "1"], name) && !IsSet(m[name := "0"], name)
  {
    assert Lower("1"[0]) != Lower("0"[0]);
  }

  lemma OtherFlag(m: Flags, name: cstring, value: cstring, other: cstring)
    requires name != other
    ensures IsSet(m[name := value], other) == IsSet(m, other)
  {
  }

  lemma FlagNames()
    ensures VALIDATED != BOOTED && ACTIVE != BOOTED && ACTIVE != VALIDATED
    ensures AUTOVALIDATE != BOOTED && AUTOVALIDATE != VALIDATED
  {
    assert VALIDATED[10] == 'v' && BOOTED[10] == 'b' && ACTIVE[10] == 'a' && AUTOVALIDATE[10] == 'a';
  }

  lemma UpgradeNeedsValidated(m: Flags)
    requires VALIDATED in m && m[VALIDATED] == "1"
    ensures IsSet(m, VALIDATED)
  {
    FlagTexts(m, VALIDATED);
    assert m[VALIDATED := "1"] == m;
  }

  lemma PerformTwo(a: Step, b: Step, d: Device, reverted: Flags)
    ensures PerformAll([a, b], d, reverted) == Perform(b, Perform(a, d, reverted), reverted)
  {
    hide Perform;
    assert [a, b][1..] == [b] && [b][1..] == [];
    assert PerformAll([b], Perform(a, d, reverted), reverted) == Perform(b, Perform(a, d, reverted), reverted);
  }

  lemma EmptyFlags(name: cstring)
    ensures !IsSet(map[], name)
  {
  }

  lemma PerformThree(a: Step, b: Step, c: Step, d: Device, reverted: Flags)
    ensures PerformAll([a, b, c], d, reverted) == Perform(c, Perform(b, Perform(a, d, reverted), reverted), reverted)
  {
    hide Perform;
    assert [a, b, c][1..] == [b, c];
    PerformTwo(b, c, Perform(a, d, reverted), reverted);
  }

  lemma PerformNone(d: Device, reverted: Flags)
    ensures PerformAll([], d, reverted) == d
  {
  }

  /** A step that power loss may prevent. */
  function Maybe(happens: bool, step: Step, d: Device, reverted: Flags): Device {
    if happens then Perform(step, d, reverted) else d
  }

  lemma CutOne(a: Step, cut: nat, d: Device, reverted: Flags)
    ensures PerformAll(Upto([a], cut), d, reverted) == Maybe(cut > 0, a, d, reverted)
  {
    hide Perform;
    assert [a][1..] == [] && [a][..0] == [];
    assert PerformAll([a], d, reverted) == PerformAll([], Perform(a, d, reverted), reverted);
  }

  lemma CutTwo(a: Step, b: Step, cut: nat, d: Device, reverted: Flags)
    ensures PerformAll(Upto([a, b], cut), d, reverted)
         == Maybe(cut > 1, b, Maybe(cut > 0, a, d, reverted), reverted)
  {
    hide Perform;
    PerformNone(d, reverted);
    CutOne(a, cut, d, reverted);
    PerformTwo(a, b, d, reverted);
    assert [a, b][..0] == [] && [a, b][..1] == [a];
  }

  lemma CutThree(a: Step, b: Step, c: Step, cut: nat, d: Device, reverted: Flags)
    ensures PerformAll(Upto([a, b, c], cut), d, reverted)
         == Maybe(cut > 2, c, Maybe(cut > 1, b, Maybe(cut > 0, a, d, reverted), reverted), reverted)
  {
    hide Perform;
    CutTwo(a, b, cut, d, reverted);
    PerformThree(a, b, c, d, reverted);
    if cut < 2 {
      assert [a, b, c][..cut] == [a, b][..cut];
    } else if cut == 2 {
      assert [a, b, c][..2] == [a, b];
    }
  }

  /** The last rule and the hand-over, cut short. */
  function Marked(m: Flags, marks: bool, cut: nat, d: Device, reverted: Flags): Device {
    if IsSet(m, BOOTED) || !marks then Maybe(cut > 0, HandOff, d, reverted)
    else Maybe(cut > 1, HandOff, Maybe(cut > 0, Save(m[BOOTED := "1"]), d, reverted), reverted)
  }

  /** A boot, case by case. */
  lemma BootOutcome(d: Device, m: Flags, cut: nat, revertWorks: bool, validates: bool, marks: bool, reverted: Flags)
    ensures PerformAll(Upto(BootSteps(m, revertWorks, validates, marks), cut), d, reverted)
         == if MustRevert(m) then
              if revertWorks then Maybe(cut > 0, Revert, d, reverted)
              else Maybe(cut > 1, HandOff, Maybe(cut > 0, FailedRevert, d, reverted), reverted)
            else
              var m1 := AfterAutovalidate(m);
              if !IsSet(m, VALIDATED) && IsSet(m, AUTOVALIDATE) && validates then
                if cut == 0 then d else Marked(m1, marks, cut - 1, Perform(Save(m1), d, reverted), reverted)
              else Marked(m1, marks, cut, d, reverted)
  {
    hide IsSet, Perform;
    var m1 := AfterAutovalidate(m);
    var mark := Save(m1[BOOTED := "1"]);
    CutOne(Revert, cut, d, reverted);
    CutTwo(FailedRevert, HandOff, cut, d, reverted);
    CutOne(HandOff, cut, d, reverted);
    CutTwo(mark, HandOff, cut, d, reverted);
    CutTwo(Save(m1), HandOff, cut, d, reverted);
    CutThree(Save(m1), mark, HandOff, cut, d, reverted);
    assert [Save(m1)] + [HandOff] == [Save(m1), HandOff];
    assert [Save(m1)] + [mark, HandOff] == [Save(m1), mark, HandOff];
    hide PerformAll, Upto;
  }

  /** When exactly a boot keeps a device safe. */
  predicate KeepsSafe(d: Device, cut: nat, loads: bool, validates: bool, marks: bool) {
    var v, a, b := IsSet(d.env, VALIDATED), IsSet(d.env, AUTOVALIDATE), IsSet(d.env, BOOTED);
    var unmarked := if b then MayTry(d) else d.trials < d.failedReverts;
    || cut == 0
    || if loads then v || MustRevert(d.env) || (a && validates) || (!b && marks) || unmarked
       else if marks then cut == 1 || MayTry(d)
       else v || unmarked
  }

  lemma MarkedFlags(m: Flags)
    ensures IsSet(m[BOOTED := "1"], BOOTED) && IsSet(m[VALIDATED := "1"], VALIDATED)
    ensures IsSet(m[BOOTED := "1"], VALIDATED) == IsSet(m, VALIDATED)
    ensures IsSet(m[BOOTED := "1"], AUTOVALIDATE) == IsSet(m, AUTOVALIDATE)
    ensures IsSet(m[VALIDATED := "1"], BOOTED) == IsSet(m, BOOTED)
  {
    hide IsSet;
    FlagNames();
    FlagTexts(m, BOOTED);
    FlagTexts(m, VALIDATED);
    OtherFlag(m, BOOTED, "1", VALIDATED);
    OtherFlag(m, BOOTED, "1", AUTOVALIDATE);
    OtherFlag(m, VALIDATED, "1", BOOTED);
  }

  /** Exactly: whatever is lost, a boot keeps a device safe if and only if this
      condition holds. */
  lemma BootIsSafe(d: Device, e: Event)
    requires Safe(d) && Tallied(d) && e.PowerOn? && !d.running
    ensures Safe(Next(d, e)) <==> KeepsSafe(d, e.cut, e.loads, e.validates, e.marks)
  {
    hide IsSet;
    if e.loads {
      if MustRevert(d.env) {
        BootOutcome(d, d.env, e.cut, e.revertWorks, e.validates, e.marks, e.reverted);
        hide PerformAll, BootSteps, Upto;
      } else {
        LoadedBootIsSafe(d, e);
      }
    } else {
      UnloadedBootIsSafe(d, e);
    }
  }

  lemma LoadedBootIsSafe(d: Device, e: Event)
    requires Safe(d) && Tallied(d) && e.PowerOn? && !d.running && e.loads && !MustRevert(d.env)
    ensures Safe(Next(d, e)) <==> KeepsSafe(d, e.cut, true, e.validates, e.marks)
  {
    MarkedFlags(d.env);
    MarkedFlags(AfterAutovalidate(d.env));
    hide IsSet;
    BootOutcome(d, d.env, e.cut, e.revertWorks, e.validates, e.marks, e.reverted);
    hide PerformAll, BootSteps, Upto, MustRevert;
  }

  lemma UnloadedBootIsSafe(d: Device, e: Event)
    requires Safe(d) && Tallied(d) && e.PowerOn? && !d.running && !e.loads
    ensures Safe(Next(d, e)) <==> KeepsSafe(d, e.cut, false, e.validates, e.marks)
  {
    EmptyFlags(VALIDATED);
    EmptyFlags(AUTOVALIDATE);
    EmptyFlags(BOOTED);
    MarkedFlags(map[]);
    hide IsSet;
    BootOutcome(d, map[], e.cut, e.revertWorks, e.validates, e.marks, e.reverted);
    hide PerformAll, BootSteps, Upto;
  }

  /** Nothing else that happens endangers it. */
  lemma OtherIsSafe(d: Device, e: Event)
    requires Safe(d) && Tallied(d) && (e.PowerOn? ==> d.running)
    ensures Safe(Next(d, e))
  {
    hide IsSet;
    FlagNames();
    FlagTexts(d.env, VALIDATED);
    match e
    case PowerOn(_, _, _, _, _, _) =>
    case SetOther(name, value) =>
      if name != VALIDATED && name != BOOTED {
        OtherFlag(d.env, name, value, VALIDATED);
        OtherFlag(d.env, name, value, BOOTED);
      }
    case Validate =>
      OtherFlag(d.env, VALIDATED, "1", BOOTED);
    case PowerOff =>
    case Upgrade(slot, cut) =>
      if VALIDATED in d.env && d.env[VALIDATED] == "1" {
        UpgradeNeedsValidated(d.env);
      }
  }

  /** An upgrade leaves no counts to the firmware that it installs, however far it got. */
  lemma UpgradeStartsAgain(d: Device, e: Event)
    requires Tallied(d) && e.Upgrade? && Next(d, e) != d
    ensures Next(d, e).trials == 0 && Next(d, e).failedReverts == 0
  {
    hide IsSet;
    UpgradeNeedsValidated(d.env);
  }

  lemma NextIsTallied(d: Device, e: Event)
    requires Tallied(d)
    ensures Tallied(Next(d, e))
  {
    hide IsSet;
    FlagNames();
    match e
    case PowerOn(_, _, _, _, _, _) => BootIsTallied(d, e);
    case SetOther(name, value) =>
      if name != VALIDATED {
        OtherFlag(d.env, name, value, VALIDATED);
      }
    case Validate =>
    case PowerOff =>
    case Upgrade(slot, cut) =>
      if VALIDATED in d.env && d.env[VALIDATED] == "1" {
        UpgradeNeedsValidated(d.env);
      }
  }

  lemma BootIsTallied(d: Device, e: Event)
    requires Tallied(d) && e.PowerOn?
    ensures Tallied(Next(d, e))
  {
    hide IsSet;
    if !d.running {
      var m := if e.loads then d.env else map[];
      EmptyFlags(BOOTED);
      BootOutcome(d, m, e.cut, e.revertWorks, e.validates, e.marks, e.reverted);
      hide PerformAll, BootSteps, Upto;
    }
  }

  lemma NextIsSafe(d: Device, e: Event)
    requires Safe(d) && Tallied(d) && Stores(e)
    ensures Safe(Next(d, e)) && Tallied(Next(d, e))
  {
    NextIsTallied(d, e);
    hide IsSet, Next, Safe, Tallied;
    if e.PowerOn? && !d.running {
      BootIsSafe(d, e);
      StoringIsEnough(d, e.cut);
    } else {
      OtherIsSafe(d, e);
    }
  }

  lemma StoringIsEnough(d: Device, cut: nat)
    requires Safe(d) && !d.running
    ensures KeepsSafe(d, cut, true, true, true)
  {
    hide IsSet;
  }

  /** Over every life of a device whose environment can be read and written at boot,
      firmware that never validates itself gets control once, plus once for every
      revert that fails. */
  lemma {:induction false} UnvalidatedFirmwareGetsOneTrial(d: Device, events: seq<Event>)
    requires Safe(d) && Tallied(d) && AlwaysStores(events)
    ensures Safe(Life(d, events)) && Tallied(Life(d, events)) && Bounded(Life(d, events))
    decreases |events|
  {
    if events != [] {
      hide IsSet, Safe, Next, Tallied, Stores;
      NextIsSafe(d, events[0]);
      UnvalidatedFirmwareGetsOneTrial(Next(d, events[0]), events[1..]);
    }
  }

  /** A life of a device on which the bound fails in spite of working storage, when
      the device is not safe. */
  function Counterexample(d: Device): seq<Event> {
    if !Bounded(d) then []
    else if d.running then [SetOther(AUTOVALIDATE, "0"), PowerOff, HEALTHY]
    else [HEALTHY]
  }

  const HEALTHY: Event := PowerOn(3, true, true, true, false, map[])

  lemma UnsafeGoesWrong(d: Device)
    requires Tallied(d) && !Safe(d)
    ensures AlwaysStores(Counterexample(d)) && !Bounded(Life(d, Counterexample(d)))
  {
    if Bounded(d) {
      var env := if d.running then d.env[AUTOVALIDATE := "0"] else d.env;
      FlagNames();
      FlagTexts(d.env, AUTOVALIDATE);
      OtherFlag(d.env, AUTOVALIDATE, "0", VALIDATED);
      OtherFlag(d.env, AUTOVALIDATE, "0", BOOTED);
      MarkedFlags(env);
      hide IsSet;
      var off := d.(env := env, running := false);
      BootOutcome(off, env, 3, false, true, true, map[]);
      assert Next(off, HEALTHY).trials == d.trials + 1 && Next(off, HEALTHY).failedReverts == d.failedReverts;
      hide PerformAll, BootSteps, Upto;
      LifeOfOne(off, HEALTHY);
      if d.running {
        var on := d.(env := env);
        LifeOfThree(d, SetOther(AUTOVALIDATE, "0"), PowerOff, HEALTHY);
      }
    }
  }

  lemma LifeOfOne(d: Device, e: Event)
    ensures Life(d, [e]) == Next(d, e)
  {
    hide Next;
    assert [e][1..] == [];
    assert Life(d, [e]) == Life(Next(d, e), []);
  }

  lemma LifeOfThree(d: Device, e: Event, f: Event, g: Event)
    ensures Life(d, [e, f, g]) == Next(Next(Next(d, e), f), g)
  {
    hide Next;
    assert [e, f, g][1..] == [f, g] && [f, g][1..] == [g];
    assert Life(d, [e, f, g]) == Life(Next(d, e), [f, g]);
    assert Life(Next(d, e), [f, g]) == Life(Next(Next(d, e), f), [g]);
    LifeOfOne(Next(Next(d, e), f), g);
  }

  /** The bound holds, now and however long the device lives on with working storage. */
  ghost predicate StaysBounded(d: Device) {
    forall later :: AlwaysStores(later) ==> Bounded(Life(d, later))
  }

  /** Safe is exactly what the bound needs. */
  lemma SafeIsExact(d: Device)
    requires Tallied(d)
    ensures Safe(d) <==> StaysBounded(d)
  {
    hide Safe, Tallied, AlwaysStores, Bounded, Life, Counterexample;
    if Safe(d) {
      forall later | AlwaysStores(later)
        ensures Bounded(Life(d, later))
      {
        UnvalidatedFirmwareGetsOneTrial(d, later);
      }
    } else {
      UnsafeGoesWrong(d);
    }
  }

  /** When exactly losing saves, losing the environment or losing power in one boot
      gives unvalidated firmware a trial too many, then or later. */
  lemma OneTrialExactly(d: Device, e: Event)
    requires Safe(d) && Tallied(d) && e.PowerOn? && !d.running
    ensures StaysBounded(Next(d, e)) <==> KeepsSafe(d, e.cut, e.loads, e.validates, e.marks)
  {
    BootIsSafe(d, e);
    NextIsTallied(d, e);
    SafeIsExact(Next(d, e));
    hide *;
  }

  /** When exactly firmware that had its trial gets control again: when the
      environment cannot be read, or when the revert fails, whatever else is lost. */
  lemma SecondTrial(d: Device, e: Event)
    requires !d.running && MustRevert(d.env) && e.PowerOn?
    ensures Next(d, e).running
            <==> if e.loads then !e.revertWorks && e.cut >= 2 else e.cut >= (if e.marks then 2 else 1)
    ensures e.loads && e.revertWorks && e.cut >= 1 ==> Next(d, e).env == e.reverted
  {
    EmptyFlags(VALIDATED);
    EmptyFlags(AUTOVALIDATE);
    EmptyFlags(BOOTED);
    hide IsSet;
    BootOutcome(d, if e.loads then d.env else map[], e.cut, e.revertWorks, e.validates, e.marks, e.reverted);
    hide PerformAll, BootSteps, Upto;
  }

  // ----- What becomes of an upgrade -------------------------------------------

  predicate MayUpgrade(d: Device) {
    d.running && VALIDATED in d.env && d.env[VALIDATED] == "1"
  }

  /** What an upgrade leaves, cut short or not: the new slot with flags that belong to
      neither firmware, until the last write is done. */
  lemma UpgradeLeaves(d: Device, slot: cstring, cut: nat)
    requires MayUpgrade(d)
    ensures var n := Next(d, Upgrade(slot, cut));
            && !n.running
            && (if cut == 0 then n.env == d.env else ACTIVE in n.env && n.env[ACTIVE] == slot)
            && (IsSet(n.env, VALIDATED) <==> cut <= 1)
            && (IsSet(n.env, BOOTED) <==> cut <= 2 && IsSet(d.env, BOOTED))
            && IsSet(n.env, AUTOVALIDATE) == IsSet(d.env, AUTOVALIDATE)
            && n.env - {ACTIVE, VALIDATED, BOOTED} == d.env - {ACTIVE, VALIDATED, BOOTED}
  {
    UpgradeNeedsValidated(d.env);
    var one := d.env[ACTIVE := slot];
    var two := one[VALIDATED := "0"];
    FlagNames();
    assert ACTIVE != AUTOVALIDATE;
    FlagTexts(one, VALIDATED);
    FlagTexts(two, BOOTED);
    OtherFlag(d.env, ACTIVE, slot, VALIDATED);
    OtherFlag(d.env, ACTIVE, slot, BOOTED);
    OtherFlag(d.env, ACTIVE, slot, AUTOVALIDATE);
    OtherFlag(one, VALIDATED, "0", BOOTED);
    OtherFlag(one, VALIDATED, "0", AUTOVALIDATE);
    OtherFlag(two, BOOTED, "0", VALIDATED);
    OtherFlag(two, BOOTED, "0", AUTOVALIDATE);
    hide IsSet;
  }

  /** A boot that reads and saves its environment and keeps its power. */
  predicate Undisturbed(e: Event) {
    e.PowerOn? && e.loads && e.validates && e.marks && e.cut >= 3
  }

  /** What such a boot does, by the flags that it finds. */
  lemma BootOf(d: Device, e: Event)
    requires Undisturbed(e) && !d.running
    ensures var v, a, b := IsSet(d.env, VALIDATED), IsSet(d.env, AUTOVALIDATE), IsSet(d.env, BOOTED);
            var n := Next(d, e);
            if !v && !a && b && e.revertWorks then n == Device(e.reverted, false, 0, 0)
            else
              && n.running && (IsSet(n.env, VALIDATED) <==> v || a) && IsSet(n.env, BOOTED)
              && (ACTIVE in d.env ==> ACTIVE in n.env && n.env[ACTIVE] == d.env[ACTIVE])
              && n.trials == (if v || a then 0 else d.trials + 1)
  {
    FlagNames();
    MarkedFlags(d.env);
    MarkedFlags(AfterAutovalidate(d.env));
    hide IsSet;
    BootOutcome(d, d.env, e.cut, e.revertWorks, e.validates, e.marks, e.reverted);
    hide PerformAll, BootSteps, Upto;
  }

  /** New firmware that never validates itself gets control, once: the next boot
      reverts it. */
  lemma NewFirmwareIsTried(d: Device, slot: cstring, first: Event, second: Event)
    requires MayUpgrade(d) && Tallied(d) && !IsSet(d.env, AUTOVALIDATE)
    requires Undisturbed(first) && Undisturbed(second) && second.revertWorks
    ensures var tried := Life(d, [Upgrade(slot, 3), first]);
            && tried.running && tried.trials == 1 && ACTIVE in tried.env && tried.env[ACTIVE] == slot
            && Life(d, [Upgrade(slot, 3), first, PowerOff, second]) == Device(second.reverted, false, 0, 0)
  {
    hide IsSet, Undisturbed;
    UpgradeLeaves(d, slot, 3);
    var n := Next(d, Upgrade(slot, 3));
    UpgradeCounts(d, slot);
    BootOf(n, first);
    var t := Next(n, first);
    StillUnvalidated(n, first);
    BootOf(t.(running := false), second);
    hide *;
    LifeOfTwo(d, Upgrade(slot, 3), first);
    LifeOfTwo(t, PowerOff, second);
    OffIs(t);
    LifeSplits(d, [Upgrade(slot, 3), first], [PowerOff, second]);
    assert [Upgrade(slot, 3), first] + [PowerOff, second] == [Upgrade(slot, 3), first, PowerOff, second];
  }

  lemma UpgradeCounts(d: Device, slot: cstring)
    requires MayUpgrade(d) && Tallied(d)
    ensures Next(d, Upgrade(slot, 3)).trials == 0
  {
    UpgradeNeedsValidated(d.env);
    hide IsSet;
  }

  /** Nothing but an autovalidation validates firmware at boot. */
  lemma StillUnvalidated(d: Device, e: Event)
    requires Undisturbed(e) && !d.running
    requires !IsSet(d.env, VALIDATED) && !IsSet(d.env, AUTOVALIDATE) && !IsSet(d.env, BOOTED)
    ensures !IsSet(Next(d, e).env, AUTOVALIDATE)
  {
    MarkedFlags(d.env);
    hide IsSet;
    BootOutcome(d, d.env, e.cut, e.revertWorks, e.validates, e.marks, e.reverted);
    hide PerformAll, BootSteps, Upto;
  }

  /** Firmware that validated itself, or may be validated by the boot, gets control at
      the next boot as well, and its trials are forgotten. */
  lemma ValidatedFirmwareStays(d: Device, e: Event)
    requires d.running && Undisturbed(e)
    ensures var n := Life(d, [Validate, PowerOff, e]);
            n.running && IsSet(n.env, VALIDATED) && n.trials == 0
            && (ACTIVE in d.env ==> ACTIVE in n.env && n.env[ACTIVE] == d.env[ACTIVE])
  {
    var v := Next(d, Validate);
    FlagNames();
    FlagTexts(d.env, VALIDATED);
    hide IsSet, Undisturbed;
    assert IsSet(v.env, VALIDATED) && (ACTIVE in d.env ==> ACTIVE in v.env && v.env[ACTIVE] == d.env[ACTIVE]);
    BootOf(v.(running := false), e);
    hide *;
    OffIs(v);
    LifeOfThree(d, Validate, PowerOff, e);
  }

  /** An upgrade that lost its last write leaves firmware that counts as tried: it is
      reverted without having had control, unless it may be validated at boot. */
  lemma CutUpgradeIsReverted(d: Device, slot: cstring, e: Event)
    requires MayUpgrade(d) && Undisturbed(e) && e.revertWorks
    ensures Life(d, [Upgrade(slot, 2), e]) == Device(e.reverted, false, 0, 0)
            <==> !IsSet(d.env, AUTOVALIDATE) && IsSet(d.env, BOOTED)
  {
    hide IsSet, Undisturbed;
    UpgradeLeaves(d, slot, 2);
    BootOf(Next(d, Upgrade(slot, 2)), e);
    hide *;
    LifeOfTwo(d, Upgrade(slot, 2), e);
  }

  lemma OffIs(d: Device)
    ensures Next(d, PowerOff) == d.(running := false)
  {
  }

  lemma LifeOfTwo(d: Device, e: Event, f: Event)
    ensures Life(d, [e, f]) == Next(Next(d, e), f)
  {
    hide Next;
    assert [e, f][1..] == [f];
    assert Life(d, [e, f]) == Life(Next(d, e), [f]);
    LifeOfOne(Next(d, e), f);
  }

  lemma {:induction false} LifeSplits(d: Device, a: seq<Event>, b: seq<Event>)
    ensures Life(d, a + b) == Life(Life(d, a), b)
    decreases |a|
  {
    hide Next;
    if a == [] {
      assert a + b == b;
    } else {
      assert (a + b)[1..] == a[1..] + b;
      LifeSplits(Next(d, a[0]), a[1..], b);
    }
  }

  // ----- A life without saves -------------------------------------------------

  const UNSAVED: Event := PowerOn(3, true, false, false, true, map[])

  /** `n` boots at which nothing can be saved, each followed by a power loss. */
  function UnsavedBoots(n: nat): seq<Event> {
    if n == 0 then [] else [UNSAVED, PowerOff] + UnsavedBoots(n - 1)
  }

  /** Without the save, fresh firmware is never marked and gets every trial. */
  lemma {:induction false} UnsavedBootsRepeat(d: Device, n: nat)
    requires !d.running && !IsSet(d.env, VALIDATED) && !IsSet(d.env, AUTOVALIDATE) && !IsSet(d.env, BOOTED)
    ensures Life(d, UnsavedBoots(n)) == d.(trials := d.trials + n)
    decreases n
  {
    if n > 0 {
      hide IsSet;
      var d1 := d.(trials := d.trials + 1);
      UnsavedBootHandsOff(d);
      var events := UnsavedBoots(n);
      assert events[1..][1..] == UnsavedBoots(n - 1);
      UnsavedBootsRepeat(d1, n - 1);
      assert Life(d, events) == Life(Next(d, UNSAVED), events[1..]);
      assert Life(Next(d, UNSAVED), events[1..]) == Life(d1, UnsavedBoots(n - 1));
    }
  }

  lemma UnsavedBootHandsOff(d: Device)
    requires !d.running && !IsSet(d.env, VALIDATED) && !IsSet(d.env, AUTOVALIDATE) && !IsSet(d.env, BOOTED)
    ensures Next(d, UNSAVED) == d.(running := true, trials := d.trials + 1)
  {
    hide IsSet;
    BootOutcome(d, d.env, 3, true, false, false, map[]);
    hide PerformAll, BootSteps, Upto;
  }
}
