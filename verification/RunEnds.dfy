/** How the runs of the two commissioning machines end, whatever event of the program it is
    that ends them. */
module RunEnds {
  import opened Base
  import opened Devices
  import opened NumberReader
  import opened Commissioning
  import opened Menu
  import opened MenuProofs

  // The user selects entry n of the main menu.
  predicate Commands(m: Machine, e: Event, n: int) {
    !m.quit && e.KeyLine? && Selects(m, e.line, n)
  }

  // The stop function of the device under test was called, and nothing else.
  predicate OnlyStopped(log: seq<Call>, log': seq<Call>, index: int) {
    index >= 0 && log' == log + [StopCall(index)]
  }

  // From testing to idle: by the STOP of the menu, or with exactly one discovery, and then
  // with every supporting device tried unless one refused its start.
  ghost predicate InitiatorStepEnds(m: Machine, e: Event, env: Env, s': InitiatorState) {
    var s := m.initiator;
    if s'.testing then Discoveries(s'.log) == Discoveries(s.log)
    else if Commands(m, e, 11) then OnlyStopped(s.log, s'.log, s.index)
    else
      && Discoveries(s'.log) == Discoveries(s.log) + 1
      && (env.cs.start == SOk ==> AllTried(s'.tried, m.devices, Initiator))
  }

  lemma KeyEndsInitiator(m: Machine, line: Line, env: Env)
    requires Shape(m) && !m.quit && InitiatorInv(m.initiator, m.devices) && m.initiator.testing
    ensures InitiatorStepEnds(m, KeyLine(line), env, OnKey(m, line, env).initiator)
  {
    InitiatorTestingIndexIsValid(m.initiator, m.devices);
    hide InitiatorRun, TargetRun, InitiatorInv, OnKey, Shape, Selects, AllTried, Discoveries, ReadIntOf;
    KeyCommands(m, line, env);
    OneMachineAtATime(m, line);
    if Selects(m, line, 10) {
      InitiatorEnd(m.initiator, m.devices, InitiatorBegin, env.cs);
    } else {
      InitiatorEnd(m.initiator, m.devices, InitiatorHalt, env.cs);
    }
  }

  lemma InitiatorEndsProperly(m: Machine, e: Event, env: Env)
    requires Good(m) && m.initiator.testing
    ensures InitiatorStepEnds(m, e, env, Step(m, e, env).initiator)
  {
    InitiatorTestingIndexIsValid(m.initiator, m.devices);
    hide InitiatorRun, InitiatorInv, Finder, OnKey, OnFound, TimerFires, TargetRun, Selects, AllTried, Discoveries;
    if m.quit {
    } else {
      match e {
        case KeyLine(line) =>
          KeyEndsInitiator(m, line, env);
        case InitiatorReport(ok) =>
          InitiatorEnd(m.initiator, m.devices, if ok then InitiatorSuccess else InitiatorFailure, env.cs);
        case TargetReport(_) =>
        case TimerEvent(_) =>
        case NetworkFound(network) => FoundTouchesNoMachine(m, network);
      }
    }
  }

  lemma OneMachineAtATime(m: Machine, line: Line)
    ensures Selects(m, line, 10) ==> !Selects(m, line, 11)
    ensures Selects(m, line, 8) ==> !Selects(m, line, 9)
  {
  }

  // For the target also with the device just started having got no positive timer id.
  ghost predicate TargetStepEnds(m: Machine, e: Event, env: Env, s': TargetState) {
    var s := m.target;
    if s'.testing then Discoveries(s'.log) == Discoveries(s.log)
    else if Commands(m, e, 9) then OnlyStopped(s.log, s'.log, s.index)
    else if s'.index >= 0 then
      env.cs.start == SOk && env.cs.timer.id <= 0 && Discoveries(s'.log) == Discoveries(s.log)
    else
      && Discoveries(s'.log) == Discoveries(s.log) + 1
      && (env.cs.start == SOk ==> AllTried(s'.tried, m.devices, Target))
  }

  lemma KeyEndsTarget(m: Machine, line: Line, env: Env)
    requires Shape(m) && !m.quit && TargetInv(m.target, m.devices) && m.target.testing
    ensures TargetStepEnds(m, KeyLine(line), env, OnKey(m, line, env).target)
  {
    TargetTestingIndexIsValid(m.target, m.devices);
    hide InitiatorRun, TargetRun, TargetInv, OnKey, Shape, Selects, AllTried, Discoveries, ReadIntOf;
    KeyCommands(m, line, env);
    OneMachineAtATime(m, line);
    if Selects(m, line, 8) {
      TargetEnd(m.target, m.devices, TargetBegin, env.cs);
    } else {
      TargetEnd(m.target, m.devices, TargetHalt, env.cs);
    }
  }

  lemma TargetEndsProperly(m: Machine, e: Event, env: Env)
    requires Good(m) && m.target.testing
    ensures TargetStepEnds(m, e, env, Step(m, e, env).target)
  {
    TargetTestingIndexIsValid(m.target, m.devices);
    hide TargetRun, TargetInv, Finder, OnKey, OnFound, TimerFires, InitiatorRun, Selects, AllTried, Discoveries;
    if m.quit {
    } else {
      match e {
        case KeyLine(line) =>
          KeyEndsTarget(m, line, env);
        case TargetReport(ok) =>
          TargetEnd(m.target, m.devices, if ok then TargetSuccess else TargetFailure, env.cs);
        case TimerEvent(id) => FiringEndsProperly(m.target, m.devices, id, env.cs);
        case InitiatorReport(_) =>
        case NetworkFound(network) => FoundTouchesNoMachine(m, network);
      }
    }
  }

  lemma FiringEndsProperly(s: TargetState, devs: seq<TestDevice>, id: int, r: Replies)
    requires TargetInv(s, devs) && s.testing
    ensures TargetEndsWell(s, TimerFires(s, devs, id, r), devs, r)
  {
    TargetTestingIndexIsValid(s, devs);
    var s1 := s.(pending := s.pending - {id});
    assert TargetEndsWell(s, s1, devs, r);
    hide OwnTimer, Numbered, Supports, NoneSupports, TargetRun, InOrder, AllTried, Discoveries;
    TargetGoesOnOrEnds(s1, devs, TargetTimeout, r);
  }

  // ---- Every run ends ----

  // Entry n of the main menu is not selected during the run.
  ghost predicate NeverSelected(m: Machine, events: seq<(Event, Env)>, n: int)
    decreases |events|
  {
    events == [] ||
    var before := events[..|events| - 1];
    NeverSelected(m, before, n) && !Commands(Run(m, before), events[|events| - 1].0, n)
  }

  // How many outcomes the daemon reports to the initiator.
  function InitiatorReports(events: seq<(Event, Env)>): nat {
    if events == [] then 0
    else InitiatorReports(events[..|events| - 1]) + if events[|events| - 1].0.InitiatorReport? then 1 else 0
  }

  // A failure report, or the firing of the timer whose id the machine holds.
  predicate MovesTarget(m: Machine, e: Event) {
    (e.TargetReport? && !e.success) || (e.TimerEvent? && e.id == m.target.timeoutId)
  }

  function TargetMoves(m: Machine, events: seq<(Event, Env)>): nat
    decreases |events|
  {
    if events == [] then 0
    else
      var before := events[..|events| - 1];
      TargetMoves(m, before) + if MovesTarget(Run(m, before), events[|events| - 1].0) then 1 else 0
  }

  // Without a START no event makes the machine test, and one that leaves it testing adds one
  // try if it is an outcome and none otherwise.
  ghost predicate InitiatorGoesOnBy(m: Machine, m': Machine, tries: nat) {
    m'.initiator.testing && !m'.quit ==>
      m.initiator.testing && !m.quit && |m'.initiator.tried| == |m.initiator.tried| + tries
  }

  lemma InitiatorStepTries(m: Machine, e: Event, env: Env)
    requires Good(m) && !Commands(m, e, 10)
    ensures InitiatorGoesOnBy(m, Step(m, e, env), if e.InitiatorReport? then 1 else 0)
  {
    hide InitiatorRun, InitiatorInv, Finder, OnKey, OnFound, TimerFires, TargetRun, Selects;
    match e {
      case KeyLine(line) => if !m.quit { KeyAddsNoInitiatorTry(m, line, env); }
      case InitiatorReport(ok) => ReportAddsTry(m.initiator, m.devices, ok, env.cs);
      case TargetReport(_) =>
      case TimerEvent(_) =>
      case NetworkFound(network) => FoundTouchesNoMachine(m, network);
    }
  }

  lemma KeyAddsNoInitiatorTry(m: Machine, line: Line, env: Env)
    requires Shape(m) && !m.quit && !Selects(m, line, 10)
    ensures var s' := OnKey(m, line, env).initiator; s'.testing ==> s' == m.initiator
  {
    hide InitiatorRun, TargetRun, OnKey, Shape, Selects, ReadIntOf;
    KeyCommands(m, line, env);
    HaltEndsInitiator(m.initiator, m.devices, env.cs);
  }

  lemma HaltEndsInitiator(s: InitiatorState, devs: seq<TestDevice>, r: Replies)
    ensures !InitiatorRun(s, devs, InitiatorHalt, r).state.testing
  {
    hide InitiatorStart;
  }

  lemma ReportAddsTry(s: InitiatorState, devs: seq<TestDevice>, ok: bool, r: Replies)
    requires InitiatorInv(s, devs)
    ensures var s' := InitiatorRun(s, devs, if ok then InitiatorSuccess else InitiatorFailure, r).state;
      s'.testing ==> s.testing && |s'.tried| == |s.tried| + 1
  {
    if s.testing { InitiatorProgress(s, devs, if ok then InitiatorSuccess else InitiatorFailure, r); }
    hide InitiatorStart, InOrder;
  }

  lemma {:induction false} InitiatorRunTries(m: Machine, events: seq<(Event, Env)>)
    requires Good(m) && AdmissibleRun(m, events) && NeverSelected(m, events, 10)
    ensures InitiatorGoesOnBy(m, Run(m, events), InitiatorReports(events))
    decreases |events|
  {
    hide Good, Step, Admissible, Commands;
    if events != [] {
      var n := |events| - 1;
      InitiatorRunTries(m, events[..n]);
      RunKeepsGood(m, events[..n]);
      InitiatorStepTries(Run(m, events[..n]), events[n].0, events[n].1);
    }
  }

  // From any good state, whatever else happens in between: with no START, 6*m outcomes for m
  // supporting devices leave the initiator idle, unless the program was told to quit.
  lemma InitiatorIsIdleAfterReports(m: Machine, events: seq<(Event, Env)>)
    requires Good(m) && AdmissibleRun(m, events) && NeverSelected(m, events, 10)
    ensures var m' := Run(m, events);
      InitiatorReports(events) >= 6 * |SupportSet(m'.devices, Initiator)| ==> m'.quit || !m'.initiator.testing
  {
    hide Good, Run, AdmissibleRun, NeverSelected, Sound, Logged, SupportSet, WellSaved, Orderly;
    InitiatorRunTries(m, events);
    RunKeepsGood(m, events);
    GoodCommissioning(Run(m, events));
    TestingHasTried(m);
  }

  lemma TestingHasTried(m: Machine)
    requires Good(m)
    ensures m.initiator.testing ==> m.initiator.tried != []
    ensures m.target.testing ==> m.target.tried != []
  {
  }

  ghost predicate TargetGoesOnBy(m: Machine, m': Machine, tries: nat) {
    m'.target.testing && !m'.quit ==>
      m.target.testing && !m.quit && |m'.target.tried| == |m.target.tried| + tries
  }

  lemma TargetStepTries(m: Machine, e: Event, env: Env)
    requires Good(m) && !Commands(m, e, 8)
    ensures TargetGoesOnBy(m, Step(m, e, env), if MovesTarget(m, e) then 1 else 0)
  {
    GoodTarget(m);
    hide Good, Step, Shape, TargetInv, TargetGoesOnBy, Selects, Commands;
    match e {
      case KeyLine(line) => KeyGoesOn(m, line, env);
      case TargetReport(ok) => ReportGoesOn(m, ok, env);
      case TimerEvent(id) => FiringGoesOn(m, id, env);
      case InitiatorReport(ok) => InitiatorReportGoesOn(m, ok, env);
      case NetworkFound(network) => FoundGoesOn(m, network, env);
    }
  }

  lemma GoodTarget(m: Machine)
    requires Good(m)
    ensures Shape(m) && TargetInv(m.target, m.devices)
  {
  }

  lemma KeyGoesOn(m: Machine, line: Line, env: Env)
    requires Shape(m) && !Commands(m, KeyLine(line), 8)
    ensures TargetGoesOnBy(m, Step(m, KeyLine(line), env), 0)
  {
    hide Shape, OnKey, Selects;
    if !m.quit { KeyAddsNoTargetTry(m, line, env); }
  }

  lemma ReportGoesOn(m: Machine, ok: bool, env: Env)
    requires TargetInv(m.target, m.devices)
    ensures TargetGoesOnBy(m, Step(m, TargetReport(ok), env), if ok then 0 else 1)
  {
    hide TargetRun, TargetInv;
    if ok { SuccessAddsNoTry(m.target, m.devices, env.cs); } else { FailureAddsTry(m.target, m.devices, env.cs); }
  }

  lemma FiringGoesOn(m: Machine, id: int, env: Env)
    requires TargetInv(m.target, m.devices)
    ensures TargetGoesOnBy(m, Step(m, TimerEvent(id), env), if id == m.target.timeoutId then 1 else 0)
  {
    hide TimerFires, TargetInv;
    FiringAddsTry(m.target, m.devices, id, env.cs);
  }

  lemma InitiatorReportGoesOn(m: Machine, ok: bool, env: Env)
    ensures TargetGoesOnBy(m, Step(m, InitiatorReport(ok), env), 0)
  {
    hide InitiatorRun;
  }

  lemma FoundGoesOn(m: Machine, network: NetworkInfo, env: Env)
    ensures TargetGoesOnBy(m, Step(m, NetworkFound(network), env), 0)
  {
  }

  lemma KeyAddsNoTargetTry(m: Machine, line: Line, env: Env)
    requires Shape(m) && !m.quit && !Selects(m, line, 8)
    ensures var s' := OnKey(m, line, env).target; s'.testing ==> s' == m.target
  {
    hide InitiatorRun, TargetRun, OnKey, Shape, Selects, ReadIntOf;
    KeyCommands(m, line, env);
    HaltEndsTarget(m.target, m.devices, env.cs);
  }

  lemma HaltEndsTarget(s: TargetState, devs: seq<TestDevice>, r: Replies)
    ensures !TargetRun(s, devs, TargetHalt, r).state.testing
  {
    hide TargetStart;
  }

  lemma SuccessAddsNoTry(s: TargetState, devs: seq<TestDevice>, r: Replies)
    ensures var s' := TargetRun(s, devs, TargetSuccess, r).state; s'.testing ==> s' == s
  {
    hide TargetStart;
  }

  lemma FailureAddsTry(s: TargetState, devs: seq<TestDevice>, r: Replies)
    requires TargetInv(s, devs)
    ensures var s' := TargetRun(s, devs, TargetFailure, r).state;
      s'.testing ==> s.testing && |s'.tried| == |s.tried| + 1
  {
    hide TargetInv, TargetStart;
    if s.testing { TargetProgress(s, devs, TargetFailure, r); }
  }

  lemma FiringAddsTry(s: TargetState, devs: seq<TestDevice>, id: int, r: Replies)
    requires TargetInv(s, devs)
    ensures var s' := TimerFires(s, devs, id, r);
      s'.testing ==> s.testing && |s'.tried| == |s.tried| + if id == s.timeoutId then 1 else 0
  {
    hide TargetInv, TargetStart, NoneSupports, InOrder, Numbered;
    if s.testing {
      TargetInvParts(s, devs);
      TargetMovesOn(s.(pending := s.pending - {id}), devs, TargetTimeout, r);
    }
  }

  lemma {:induction false} TargetRunTries(m: Machine, events: seq<(Event, Env)>)
    requires Good(m) && AdmissibleRun(m, events) && NeverSelected(m, events, 8)
    ensures TargetGoesOnBy(m, Run(m, events), TargetMoves(m, events))
    decreases |events|
  {
    hide Good, Step, Admissible, Commands, MovesTarget;
    if events != [] {
      var n := |events| - 1;
      TargetRunTries(m, events[..n]);
      RunKeepsGood(m, events[..n]);
      TargetStepTries(Run(m, events[..n]), events[n].0, events[n].1);
    }
  }

  // Likewise m failures and firings of its own timer id leave the target idle.
  lemma TargetIsIdleAfterMoves(m: Machine, events: seq<(Event, Env)>)
    requires Good(m) && AdmissibleRun(m, events) && NeverSelected(m, events, 8)
    ensures var m' := Run(m, events);
      TargetMoves(m, events) >= |SupportSet(m'.devices, Target)| ==> m'.quit || !m'.target.testing
  {
    hide Good, Run, AdmissibleRun, NeverSelected, Sound, Logged, SupportSet, WellSaved, Orderly, TargetMoves;
    TargetRunTries(m, events);
    RunKeepsGood(m, events);
    GoodCommissioning(Run(m, events));
    TestingHasTried(m);
  }
}
