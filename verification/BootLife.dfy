/** A device over its whole life: boot after boot, the interpreter runs the
    configuration file on the block that the boot before left on the disk. */
module BootLife {
  import opened CString
  import opened EnvBlock
  import opened EnvMap
  import opened Script
  import opened Staged
  import opened StagedTheorems
  import opened BootConf
  import P = BootProtocol

  /** What outlives a boot, and the count of trials. */
  datatype Disk = Disk(block: seq<byte>, running: bool, trials: nat, failedReverts: nat)

  datatype Event =
    /** A boot.  Power is lost after `cut` effects, if the run has so many. */
    | Boot(world: World, cut: nat, revertWorks: bool, reverted: seq<byte>)
    | PowerOff
    /** Running firmware writes the block, to what the protocol calls Validate,
        SetOther or Upgrade. */
    | Rewrite(what: P.Event, block: seq<byte>)

  function FlagsOn(block: seq<byte>): P.Flags
    requires |block| >= 4
  {
    Meaning(ReadBlock(block).vars)
  }

  /** The disk as the protocol sees it.  A block that fails its check or breaks off
      has the variables that are read before that. */
  function Seen(d: Disk): P.Device
    requires IsBlock(d.block)
  {
    P.Device(FlagsOn(d.block), d.running, d.trials, d.failedReverts)
  }

  // ----- One event ------------------------------------------------------------

  function Untried(d: Disk): Disk {
    d.(trials := 0, failedReverts := 0)
  }

  /** What an effect of the run does to the disk. */
  function Suffer(e: Effect, d: Disk, revertWorks: bool, reverted: seq<byte>): Disk
    requires e.Saved? ==> IsBlock(e.block)
  {
    match e
    case Saved(block) =>
      var d1 := d.(block := block);
      if P.IsSet(FlagsOn(block), P.VALIDATED) then Untried(d1) else d1
    case Called(fn, _, _) =>
      if fn != FwupRevert then d
      else if revertWorks then Disk(reverted, false, 0, 0)
      else d.(failedReverts := d.failedReverts + 1)
  }

  function SufferAll(effects: seq<Effect>, d: Disk, revertWorks: bool, reverted: seq<byte>): Disk
    requires SavesBlocks(effects)
    decreases |effects|
  {
    if effects == [] then d
    else
      assert forall i :: 0 <= i < |effects[1..]| ==> effects[1..][i] == effects[i + 1];
      SufferAll(effects[1..], Suffer(effects[0], d, revertWorks, reverted), revertWorks, reverted)
  }

  /** The firmware gets control. */
  function HandOver(d: Disk): Disk
    requires IsBlock(d.block)
  {
    if P.IsSet(FlagsOn(d.block), P.VALIDATED) then Untried(d.(running := true))
    else d.(running := true, trials := d.trials + 1)
  }

  /** The run of the file at a boot. */
  function BootRun(w: World): State {
    StagedRun(CONF, Started(w), ProgramDepth(CONF))
  }

  function Prefix<T>(s: seq<T>, n: nat): seq<T> {
    if n < |s| then s[..n] else s
  }

  /** Boots answer with the block on the disk or not at all. */
  ghost predicate CanHappen(d: Disk, e: Event) {
    IsBlock(d.block)
    && match e
       case Boot(world, cut, revertWorks, reverted) =>
         Reverts(world, revertWorks) && world.block([LOAD_CALL]) in {None, Some(d.block)} && IsBlock(reverted)
       case PowerOff => true
       case Rewrite(what, block) =>
         d.running && (what.Validate? || what.SetOther? || what.Upgrade?)
         && IsBlock(block) && FlagsOn(block) == P.Next(Seen(d), what).env
  }

  /** The disk after an event.  Both conditions on blocks hold of every run
      (StepsFromStart, FullRunIsSteps). */
  ghost function After(d: Disk, e: Event): Disk
    requires IsBlock(d.block)
  {
    match e
    case Boot(world, cut, revertWorks, reverted) =>
      if d.running then d
      else
        var t := BootRun(world);
        var effects := Prefix(t.effects, cut);
        if !SavesBlocks(effects) then d
        else
          var d1 := SufferAll(effects, d, revertWorks, reverted);
          if cut > |t.effects| && t.status == Running && IsBlock(d1.block) then HandOver(d1) else d1
    case PowerOff => d.(running := false)
    case Rewrite(what, block) =>
      var n := P.Next(Seen(d), what);
      Disk(block, n.running, n.trials, n.failedReverts)
  }

  /** A boot at which the environment can be read, and saved with its flags. */
  ghost predicate Healthy(d: Disk, e: Event) {
    e.Boot? && !d.running && IsBlock(d.block) ==>
      var m := P.AfterAutovalidate(FlagsOn(d.block));
      e.world.block([LOAD_CALL]) == Some(d.block) && Stores(e.world, true)
      && RoomFor(m) && RoomFor(m[P.BOOTED := "1"])
  }

  // ----- Effects and steps ----------------------------------------------------

  lemma {:induction false} EffectsAreSteps(effects: seq<Effect>, d: Disk, revertWorks: bool, reverted: seq<byte>)
    requires SavesBlocks(effects) && IsBlock(d.block) && IsBlock(reverted)
    ensures var d1 := SufferAll(effects, d, revertWorks, reverted);
            IsBlock(d1.block)
            && Seen(d1) == P.PerformAll(StepsOf(effects, revertWorks), Seen(d), FlagsOn(reverted))
    decreases |effects|
  {
    if effects != [] {
      assert forall i :: 0 <= i < |effects[1..]| ==> effects[1..][i] == effects[i + 1];
      hide IsBlock, FlagsOn, Meaning, ReadBlock, P.IsSet;
      assert IsBlock(d.block);
      var d1 := Suffer(effects[0], d, revertWorks, reverted);
      EffectIsStep(effects[0], d, revertWorks, reverted);
      EffectsAreSteps(effects[1..], d1, revertWorks, reverted);
      StepsSplit(StepOf(effects[0], revertWorks), StepsOf(effects[1..], revertWorks), Seen(d), FlagsOn(reverted));
    }
  }

  lemma EffectIsStep(e: Effect, d: Disk, revertWorks: bool, reverted: seq<byte>)
    requires (e.Saved? ==> IsBlock(e.block)) && IsBlock(d.block) && IsBlock(reverted)
    ensures var d1 := Suffer(e, d, revertWorks, reverted);
            IsBlock(d1.block) && Seen(d1) == P.PerformAll(StepOf(e, revertWorks), Seen(d), FlagsOn(reverted))
  {
    hide Meaning, ReadBlock, UniqueNames, P.IsSet;
    P.PerformNone(Seen(d), FlagsOn(reverted));
    var steps := StepOf(e, revertWorks);
    if steps != [] {
      assert steps[1..] == [];
      P.PerformNone(P.Perform(steps[0], Seen(d), FlagsOn(reverted)), FlagsOn(reverted));
    }
  }

  lemma {:induction false} StepsSplit(a: seq<P.Step>, b: seq<P.Step>, d: P.Device, reverted: P.Flags)
    ensures P.PerformAll(a + b, d, reverted) == P.PerformAll(b, P.PerformAll(a, d, reverted), reverted)
    decreases |a|
  {
    hide P.Perform;
    if a == [] {
      assert a + b == b;
    } else {
      assert (a + b)[1..] == a[1..] + b;
      StepsSplit(a[1..], b, P.Perform(a[0], d, reverted), reverted);
    }
  }

  // ----- Refinement -----------------------------------------------------------

  lemma StartedIsSound(w: World)
    ensures var st := Started(w);
            && Sound(st) && st.status == Running && st.world == w && st.env == []
            && st.effects == [] && st.effects + [LOAD_CALL] == [LOAD_CALL]
  {
  }

  /** A boot reads the environment on the disk, or none. */
  lemma BootLoads(d: Disk, w: World)
    requires IsBlock(d.block) && w.block([LOAD_CALL]) in {None, Some(d.block)}
    ensures var block := w.block([LOAD_CALL]);
            Loadable(Started(w), block)
            && Meaning(LoadedVars(Started(w), block)) == if block.Some? then FlagsOn(d.block) else map[]
  {
    hide ReadBlock;
    assert Meaning([]) == map[];
  }

  lemma StepsFromStart(w: World, t: State, steps: seq<P.Step>, revertWorks: bool)
    requires Completes(Started(w), t, steps, revertWorks)
    ensures SavesBlocks(t.effects) && StepsOf(t.effects, revertWorks) + Final(t) == steps
  {
    assert t.effects[0..] == t.effects;
  }

  lemma PrefixSavesBlocks(effects: seq<Effect>, n: nat)
    requires SavesBlocks(effects)
    ensures SavesBlocks(Prefix(effects, n))
  {
    hide IsBlock;
  }

  lemma AfterBoot(d: Disk, e: Event)
    requires IsBlock(d.block) && e.Boot? && !d.running && SavesBlocks(Prefix(BootRun(e.world).effects, e.cut))
    ensures var t := BootRun(e.world);
            var d1 := SufferAll(Prefix(t.effects, e.cut), d, e.revertWorks, e.reverted);
            After(d, e) == if e.cut > |t.effects| && t.status == Running && IsBlock(d1.block) then HandOver(d1) else d1
  {
    hide BootRun, SufferAll, Prefix, SavesBlocks, IsBlock;
  }

  /** A run that takes some steps leaves the disk as the protocol says. */
  lemma FullRunIsSteps(d: Disk, e: Event, steps: seq<P.Step>)
    requires IsBlock(d.block) && e.Boot? && IsBlock(e.reverted) && !d.running && e.cut > |BootRun(e.world).effects|
    requires Completes(Started(e.world), BootRun(e.world), steps, e.revertWorks)
    ensures IsBlock(After(d, e).block)
    ensures Seen(After(d, e)) == P.PerformAll(steps, Seen(d), FlagsOn(e.reverted))
  {
    Readable(d.block);
    Readable(e.reverted);
    hide *;
    var t := BootRun(e.world);
    PrefixOfAll(t.effects, e.cut);
    StepsFromStart(e.world, t, steps, e.revertWorks);
    AfterBoot(d, e);
    EffectsAreSteps(t.effects, d, e.revertWorks, e.reverted);
    StepsSplit(StepsOf(t.effects, e.revertWorks), Final(t), Seen(d), FlagsOn(e.reverted));
    FinalIsStep(SufferAll(t.effects, d, e.revertWorks, e.reverted), t, FlagsOn(e.reverted));
  }

  lemma BootCan(d: Disk, e: Event)
    requires CanHappen(d, e) && e.Boot?
    ensures IsBlock(d.block) && IsBlock(e.reverted) && |e.reverted| >= 4 && |d.block| >= 4
    ensures Reverts(e.world, e.revertWorks) && e.world.block([LOAD_CALL]) in {None, Some(d.block)}
  {
  }

  lemma Readable(block: seq<byte>)
    requires IsBlock(block)
    ensures |block| >= 4
  {
  }

  lemma PrefixOfAll<T>(s: seq<T>, n: nat)
    ensures n >= |s| ==> Prefix(s, n) == s
    ensures n <= |s| ==> Prefix(s, n) == s[..n]
  {
    assert s[..|s|] == s;
  }

  lemma FinalIsStep(d: Disk, t: State, reverted: P.Flags)
    requires IsBlock(d.block)
    ensures var d1 := if t.status == Running then HandOver(d) else d;
            IsBlock(d1.block) && Seen(d1) == P.PerformAll(Final(t), Seen(d), reverted)
  {
    hide P.PerformAll, FlagsOn, P.IsSet;
    P.PerformNone(Seen(d), reverted);
    HandOverIsStep(d, reverted);
  }

  /** A run that is cut short has taken the first of its steps. */
  lemma CutRunIsSteps(d: Disk, e: Event, steps: seq<P.Step>)
    requires IsBlock(d.block) && e.Boot? && IsBlock(e.reverted) && !d.running && e.cut <= |BootRun(e.world).effects|
    requires Completes(Started(e.world), BootRun(e.world), steps, e.revertWorks)
    ensures var cut := |StepsOf(BootRun(e.world).effects[..e.cut], e.revertWorks)|;
            IsBlock(After(d, e).block)
            && Seen(After(d, e)) == P.PerformAll(P.Upto(steps, cut), Seen(d), FlagsOn(e.reverted))
  {
    Readable(d.block);
    Readable(e.reverted);
    hide *;
    var t := BootRun(e.world);
    var effects := t.effects[..e.cut];
    StepsFromStart(e.world, t, steps, e.revertWorks);
    PrefixOfAll(t.effects, e.cut);
    PrefixSavesBlocks(t.effects, e.cut);
    AfterBoot(d, e);
    FirstSteps(e.world, t, steps, e.revertWorks, e.cut);
    EffectsAreSteps(effects, d, e.revertWorks, e.reverted);
  }

  lemma FirstSteps(w: World, t: State, steps: seq<P.Step>, revertWorks: bool, k: nat)
    requires Completes(Started(w), t, steps, revertWorks) && k <= |t.effects|
    ensures var seen := StepsOf(t.effects[..k], revertWorks); P.Upto(steps, |seen|) == seen
  {
    hide StepsOf, Completes;
    PowerCut(Started(w), t, steps, revertWorks, k);
    assert t.effects[0..0 + k] == t.effects[..k];
    assert steps[..|steps|] == steps;
  }

  lemma HandOverIsStep(d: Disk, reverted: P.Flags)
    requires IsBlock(d.block)
    ensures Seen(HandOver(d)) == P.PerformAll([P.HandOff], Seen(d), reverted)
  {
    hide P.IsSet, FlagsOn, IsBlock;
    P.CutOne(P.HandOff, 1, Seen(d), reverted);
  }

  /** Every event of a disk is one of the protocol. */
  lemma EventIsRefined(d: Disk, e: Event) returns (a: P.Event)
    requires CanHappen(d, e)
    ensures IsBlock(After(d, e).block) && Seen(After(d, e)) == P.Next(Seen(d), a)
    ensures Healthy(d, e) ==> P.Stores(a)
  {
    match e
    case Boot(world, cut, revertWorks, reverted) =>
      if d.running {
        a := P.PowerOn(0, true, true, true, true, map[]);
      } else {
        a := BootIsRefined(d, e);
      }
    case PowerOff => a := P.PowerOff;
    case Rewrite(what, block) => a := what;
  }

  lemma RunIs(w: World)
    ensures BootRun(w) == StagedRun(CONF, Started(w), ProgramDepth(CONF))
  {
    hide StagedRun, CONF, ProgramDepth;
  }

  /** Which saves of the run reach the disk; the first thing that it does is to read. */
  ghost predicate RunSaves(w: World, m: P.Flags, validates: bool, marks: bool) {
    SavesAre(w, BootRun(w).effects, 1, m, validates, marks)
  }

  lemma RunSavesAre(w: World, m: P.Flags, validates: bool, marks: bool)
    requires SavesAre(w, BootRun(w).effects, |Started(w).effects| + 1, m, validates, marks)
    ensures RunSaves(w, m, validates, marks)
  {
    hide SavesAre, BootRun;
  }

  /** How many steps of the protocol a boot takes before power is lost. */
  function StepsTaken(e: Event): nat
    requires e.Boot?
  {
    var t := BootRun(e.world);
    if e.cut > |t.effects| then |StepsOf(t.effects, e.revertWorks) + Final(t)|
    else |StepsOf(t.effects[..e.cut], e.revertWorks)|
  }

  lemma StepsTakenAre(e: Event, steps: seq<P.Step>)
    requires e.Boot? && Completes(Started(e.world), BootRun(e.world), steps, e.revertWorks)
    ensures StepsTaken(e) == if e.cut > |BootRun(e.world).effects| then |steps|
                             else |StepsOf(BootRun(e.world).effects[..e.cut], e.revertWorks)|
  {
    StepsFromStart(e.world, BootRun(e.world), steps, e.revertWorks);
    hide Completes, BootRun, StepsOf, Final;
  }

  /** What the disk gives a boot to read. */
  function Loaded(d: Disk, w: World): P.Flags
    requires IsBlock(d.block)
  {
    if w.block([LOAD_CALL]).Some? then FlagsOn(d.block) else map[]
  }

  lemma RunRefines(d: Disk, e: Event) returns (validates: bool, marks: bool)
    requires CanHappen(d, e) && e.Boot?
    ensures Completes(Started(e.world), BootRun(e.world),
                      P.BootSteps(Loaded(d, e.world), e.revertWorks, validates, marks), e.revertWorks)
    ensures RunSaves(e.world, Loaded(d, e.world), validates, marks)
  {
    hide *;
    BootCan(d, e);
    var st := Started(e.world);
    StartedIsSound(e.world);
    LoadedIs(d, e.world);
    BootLoads(d, e.world);
    validates, marks := ConfRefinesProtocol(st, e.world.block([LOAD_CALL]), e.revertWorks, ProgramDepth(CONF));
    RunIs(e.world);
    RunSavesAre(e.world, Loaded(d, e.world), validates, marks);
  }

  lemma LoadedIs(d: Disk, w: World)
    requires IsBlock(d.block)
    ensures Loaded(d, w) == if w.block([LOAD_CALL]).Some? then FlagsOn(d.block) else map[]
  {
    hide FlagsOn, LOAD_CALL;
  }

  lemma BootIsRefined(d: Disk, e: Event) returns (a: P.Event)
    requires CanHappen(d, e) && e.Boot? && !d.running
    ensures IsBlock(After(d, e).block) && a.PowerOn? && Seen(After(d, e)) == P.Next(Seen(d), a)
    ensures (a.loads <==> e.world.block([LOAD_CALL]).Some?) && a.cut == StepsTaken(e)
    ensures RunSaves(e.world, Loaded(d, e.world), a.validates, a.marks)
    ensures Healthy(d, e) ==> P.Stores(a)
  {
    BootCan(d, e);
    LoadedIs(d, e.world);
    hide *;
    var validates, marks := RunRefines(d, e);
    var steps := P.BootSteps(Loaded(d, e.world), e.revertWorks, validates, marks);
    var cut;
    StepsTakenAre(e, steps);
    if e.cut > |BootRun(e.world).effects| {
      cut := |steps|;
      WholeUpto(steps);
      FullRunIsSteps(d, e, steps);
    } else {
      cut := |StepsOf(BootRun(e.world).effects[..e.cut], e.revertWorks)|;
      CutRunIsSteps(d, e, steps);
    }
    var loads := e.world.block([LOAD_CALL]).Some?;
    a := P.PowerOn(cut, loads, validates, marks, e.revertWorks, FlagsOn(e.reverted));
    NextOfBoot(d, a);
    HealthySaves(d, e, validates, marks);
    StoresWhen(a);
  }

  lemma WholeUpto(steps: seq<P.Step>)
    ensures P.Upto(steps, |steps|) == steps
  {
  }

  lemma NextOfBoot(d: Disk, a: P.Event)
    requires IsBlock(d.block) && !d.running && a.PowerOn?
    ensures var m := if a.loads then FlagsOn(d.block) else map[];
            P.Next(Seen(d), a)
            == P.PerformAll(P.Upto(P.BootSteps(m, a.revertWorks, a.validates, a.marks), a.cut), Seen(d), a.reverted)
  {
    hide P.PerformAll, P.Upto, P.BootSteps, FlagsOn;
  }

  lemma StoresWhen(a: P.Event)
    requires a.PowerOn?
    ensures P.Stores(a) <==> a.loads && a.validates && a.marks
  {
  }

  lemma HealthySaves(d: Disk, e: Event, validates: bool, marks: bool)
    requires e.Boot? && !d.running && IsBlock(d.block)
    ensures Healthy(d, e) ==> e.world.block([LOAD_CALL]).Some?
    ensures Healthy(d, e) && RunSaves(e.world, FlagsOn(d.block), validates, marks) ==> validates && marks
  {
    hide RoomFor, Stores, FlagsOn, SaveIs, P.IsSet, BootRun;
    if Healthy(d, e) && RunSaves(e.world, FlagsOn(d.block), validates, marks) {
      var effects, m := BootRun(e.world).effects, FlagsOn(d.block);
      var m1 := P.AfterAutovalidate(m);
      if Autovalidates(m) {
        SaveAnswers(e.world, effects, 1, m1, validates);
      }
      if !P.IsSet(m, P.BOOTED) {
        SaveAnswers(e.world, effects, if Autovalidates(m) then 3 else 1, m1[P.BOOTED := "1"], marks);
      }
    }
  }

  // ----- A life ---------------------------------------------------------------

  ghost predicate CanLive(d: Disk, events: seq<Event>)
    decreases |events|
  {
    events == [] || (CanHappen(d, events[0]) && CanLive(After(d, events[0]), events[1..]))
  }

  ghost function Lived(d: Disk, events: seq<Event>): Disk
    requires CanLive(d, events)
    decreases |events|
  {
    if events == [] then d else Lived(After(d, events[0]), events[1..])
  }

  ghost predicate AllHealthy(d: Disk, events: seq<Event>)
    requires CanLive(d, events)
    decreases |events|
  {
    events == [] || (Healthy(d, events[0]) && AllHealthy(After(d, events[0]), events[1..]))
  }

  /** Every life of a disk is one of the protocol. */
  lemma {:induction false} LifeIsRefined(d: Disk, events: seq<Event>) returns (seen: seq<P.Event>)
    requires IsBlock(d.block) && CanLive(d, events)
    ensures IsBlock(Lived(d, events).block) && Seen(Lived(d, events)) == P.Life(Seen(d), seen)
    ensures AllHealthy(d, events) ==> P.AlwaysStores(seen)
    decreases |events|
  {
    hide After, CanHappen, Healthy, IsBlock, Seen, P.Next, P.Stores;
    if events == [] {
      seen := [];
    } else {
      var a := EventIsRefined(d, events[0]);
      var more := LifeIsRefined(After(d, events[0]), events[1..]);
      seen := [a] + more;
      assert seen[1..] == more;
    }
  }

  /** The one-trial bound for the interpreter, the file and the block themselves: on a
      device that starts safe and can read and save its environment at every boot,
      firmware that is not validated has had control at most once, plus once for every
      revert that failed, wherever power was lost. */
  lemma OneTrialOnDisk(d: Disk, events: seq<Event>)
    requires IsBlock(d.block) && P.Safe(Seen(d)) && P.Tallied(Seen(d))
    requires CanLive(d, events) && AllHealthy(d, events)
    ensures Lived(d, events).trials <= 1 + Lived(d, events).failedReverts
  {
    var seen := LifeIsRefined(d, events);
    P.UnvalidatedFirmwareGetsOneTrial(Seen(d), seen);
    hide P.Safe, P.Tallied, P.Life, Lived, CanLive, AllHealthy, IsBlock;
  }

  /** When exactly one boot of the interpreter endangers the bound: `a` says what of
      the boot was lost. */
  lemma BootKeepsBound(d: Disk, e: Event) returns (a: P.Event)
    requires CanHappen(d, e) && e.Boot? && !d.running && P.Safe(Seen(d)) && P.Tallied(Seen(d))
    ensures a.PowerOn? && (a.loads <==> e.world.block([LOAD_CALL]).Some?) && a.cut == StepsTaken(e)
    ensures RunSaves(e.world, Loaded(d, e.world), a.validates, a.marks)
    ensures IsBlock(After(d, e).block) && Seen(After(d, e)) == P.Next(Seen(d), a)
    ensures P.StaysBounded(Seen(After(d, e))) <==> P.KeepsSafe(Seen(d), a.cut, a.loads, a.validates, a.marks)
  {
    BootCan(d, e);
    SeenRuns(d);
    hide *;
    a := BootIsRefined(d, e);
    P.OneTrialExactly(Seen(d), a);
  }

  lemma SeenRuns(d: Disk)
    requires IsBlock(d.block)
    ensures Seen(d).running == d.running
  {
  }

  // ----- A life without saves -------------------------------------------------

  /** A device that reads its block but cannot write it. */
  function LossyWorld(block: seq<byte>): World {
    World(e => "", e => Some(block), e => false, e => true, (l, r) => 0)
  }

  function UnsavedBoot(block: seq<byte>): Event {
    Boot(LossyWorld(block), |BootRun(LossyWorld(block)).effects| + 1, true, block)
  }

  function UnsavedLife(block: seq<byte>, n: nat): seq<Event> {
    if n == 0 then [] else [UnsavedBoot(block), PowerOff] + UnsavedLife(block, n - 1)
  }

  predicate IsFresh(d: Disk) {
    IsBlock(d.block) && !d.running
    && var m := FlagsOn(d.block);
       !P.IsSet(m, P.VALIDATED) && !P.IsSet(m, P.AUTOVALIDATE) && !P.IsSet(m, P.BOOTED)
  }

  /** The file itself, on such a device, hands control to fresh firmware at every one
      of `n` boots. */
  lemma {:induction false} UnsavedBootsRepeatOnDisk(d: Disk, n: nat)
    requires IsFresh(d)
    ensures CanLive(d, UnsavedLife(d.block, n))
    ensures Lived(d, UnsavedLife(d.block, n)) == d.(trials := d.trials + n)
    decreases n
  {
    hide CanHappen, After, IsFresh, IsBlock, FlagsOn, P.IsSet, UnsavedBoot, UnsavedLife;
    UnsavedLifeIs(d.block, n);
    if n > 0 {
      var e, rest := UnsavedBoot(d.block), UnsavedLife(d.block, n - 1);
      UnsavedBootHandsOver(d);
      FreshAgain(d);
      OffAfter(d);
      UnsavedBootsRepeatOnDisk(d.(trials := d.trials + 1), n - 1);
      var events := UnsavedLife(d.block, n);
      assert events[1..] == [PowerOff] + rest && events[1..][1..] == rest;
      assert CanLive(After(d, e), events[1..]);
    }
  }

  lemma UnsavedLifeIs(block: seq<byte>, n: nat)
    ensures UnsavedLife(block, n)
            == if n == 0 then [] else [UnsavedBoot(block), PowerOff] + UnsavedLife(block, n - 1)
  {
    hide UnsavedBoot;
  }

  lemma FreshAgain(d: Disk)
    requires IsFresh(d)
    ensures IsFresh(d.(trials := d.trials + 1)) && IsBlock(d.block) && d == d.(running := false)
  {
    hide IsBlock, FlagsOn, P.IsSet;
  }

  lemma OffAfter(d: Disk)
    requires IsBlock(d.block)
    ensures var on := d.(running := true, trials := d.trials + 1);
            CanHappen(on, PowerOff) && After(on, PowerOff) == d.(running := false, trials := d.trials + 1)
  {
  }

  lemma UnsavedBootHandsOver(d: Disk)
    requires IsFresh(d)
    ensures CanHappen(d, UnsavedBoot(d.block))
    ensures After(d, UnsavedBoot(d.block)) == d.(running := true, trials := d.trials + 1)
  {
    var w, e := LossyWorld(d.block), UnsavedBoot(d.block);
    var m := FlagsOn(d.block);
    FreshFacts(d);
    LossyAnswers(d.block);
    BootCan(d, e);
    StartedIsSound(w);
    HandOverFresh(d);
    hide *;
    BootLoads(d, w);
    ConfWithoutSaves(Started(w), Some(d.block), true, ProgramDepth(CONF));
    LostSteps(m);
    var t := BootRun(w);
    RunIs(w);
    StepsFromStart(w, t, [P.HandOff], true);
    OnlyHandOff(t, true);
    PrefixOfAll(t.effects, e.cut);
    AfterBoot(d, e);
    QuietEffects(t.effects, d, true, e.reverted);
  }

  lemma FreshFacts(d: Disk)
    requires IsFresh(d)
    ensures var m, e := FlagsOn(d.block), UnsavedBoot(d.block);
            && IsBlock(d.block) && !d.running
            && !P.IsSet(m, P.VALIDATED) && !P.IsSet(m, P.AUTOVALIDATE) && !P.IsSet(m, P.BOOTED)
            && e.Boot? && e.world == LossyWorld(d.block) && e.revertWorks && e.reverted == d.block
            && e.cut > |BootRun(e.world).effects| && CanHappen(d, e)
  {
    hide BootRun, IsBlock, FlagsOn, P.IsSet;
    LossyAnswers(d.block);
  }

  lemma LossyAnswers(block: seq<byte>)
    ensures var w := LossyWorld(block);
            Reverts(w, true) && Stores(w, false) && w.block([LOAD_CALL]) == Some(block)
  {
  }

  lemma HandOverFresh(d: Disk)
    requires IsFresh(d)
    ensures HandOver(d) == d.(running := true, trials := d.trials + 1)
  {
  }

  lemma LostSteps(m: P.Flags)
    requires !P.IsSet(m, P.VALIDATED) && !P.IsSet(m, P.AUTOVALIDATE) && !P.IsSet(m, P.BOOTED)
    ensures P.WithoutSaves(P.BootSteps(m, true, true, true)) == [P.HandOff]
  {
    hide P.IsSet, P.WithoutSaves;
    P.LostSaves(m, true);
  }

  lemma OnlyHandOff(t: State, revertWorks: bool)
    requires StepsOf(t.effects, revertWorks) + Final(t) == [P.HandOff]
    ensures StepsOf(t.effects, revertWorks) == [] && t.status == Running
  {
    NoHandOff(t.effects, revertWorks);
    hide StepsOf;
    var steps := StepsOf(t.effects, revertWorks);
    assert steps + [] == steps;
    assert P.HandOff in [P.HandOff];
  }

  lemma {:induction false} NoHandOff(effects: seq<Effect>, revertWorks: bool)
    ensures P.HandOff !in StepsOf(effects, revertWorks)
    decreases |effects|
  {
    if effects != [] {
      NoHandOff(effects[1..], revertWorks);
    }
  }

  /** Effects that are no steps leave the disk alone. */
  lemma {:induction false} QuietEffects(effects: seq<Effect>, d: Disk, revertWorks: bool, reverted: seq<byte>)
    requires SavesBlocks(effects) && StepsOf(effects, revertWorks) == []
    ensures SufferAll(effects, d, revertWorks, reverted) == d
    decreases |effects|
  {
    if effects != [] {
      hide ReadBlock, Meaning;
      assert StepOf(effects[0], revertWorks) == [] && StepsOf(effects[1..], revertWorks) == [];
      assert forall i :: 0 <= i < |effects[1..]| ==> effects[1..][i] == effects[i + 1];
      QuietEffects(effects[1..], d, revertWorks, reverted);
    }
  }
}
