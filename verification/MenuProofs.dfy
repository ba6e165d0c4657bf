/** What every run of the menu machine keeps, from boot on, whatever the user types, the
    daemon reports and the timers do. */
module MenuProofs {
  import opened Base
  import opened Devices
  import opened NumberReader
  import opened Commissioning
  import opened Menu

  // Network, find-join and main: the menus reached once the endpoints are initialised.
  predicate Operational(m: Machine) {
    m.current == Network || m.current == FindJoin || m.current == Main
  }

  // ---- Steps, registry and commissioning ----

  ghost predicate Shape(m: Machine) {
    && (!m.quit ==>
          match m.current
          case Entrance => m.entranceStep == 1 && m.devices == [] && m.records == []
          case Endpoint =>
            (m.endpointStep == 1 || (m.endpointStep == 2 && m.selected < |DEVICE_TYPES|)) && m.records == []
          case Network => 1 <= m.networkStep <= 7
          case FindJoin => m.findStep == 1
          case Main => m.mainStep == 1)
    && (Operational(m) ==> m.devices != [] && m.networkStarted && m.records == [Saved(m.devices)])
  }

  ghost predicate Commissions(m: Machine) {
    && AllWired(m.devices)
    && TargetInv(m.target, m.devices) && InitiatorInv(m.initiator, m.devices)
    && (!Operational(m) ==> m.target == IDLE_TARGET && m.initiator == IDLE_INITIATOR)
  }

  // From a record this program can have written, or from none, the registry stays orderly.
  ghost predicate Registers(m: Machine) {
    WellSaved(m.saved) ==> Orderly(m.devices)
  }

  lemma IdleIsInvariant(devs: seq<TestDevice>)
    ensures TargetInv(IDLE_TARGET, devs) && InitiatorInv(IDLE_INITIATOR, devs)
  {
  }

  lemma BootIsGood(env: Env)
    ensures var m := Boot(env); Shape(m) && Commissions(m) && Registers(m)
  {
    IdleIsInvariant([]);
  }

  lemma StepKeepsShape(m: Machine, e: Event, env: Env)
    requires Shape(m)
    ensures Shape(Step(m, e, env))
  {
    if m.quit || !e.KeyLine? {
      hide TargetRun, InitiatorRun, TimerFires, Saved;
    } else {
      hide Shape, OnEntrance, OnEndpoint, OnNetwork, OnFindJoin, OnMain;
      match m.current {
        case Entrance => EntranceKeepsShape(m, e.line, env);
        case Endpoint => EndpointKeepsShape(m, e.line, env);
        case Network => NetworkKeepsShape(m, e.line);
        case FindJoin => FindJoinKeepsShape(m, e.line);
        case Main => MainKeepsShape(m, e.line, env);
      }
    }
  }

  lemma EntranceKeepsShape(m: Machine, line: Line, env: Env)
    requires Shape(m) && !m.quit && m.current == Entrance
    ensures Shape(OnEntrance(m, line, env))
  {
    hide Saved, Resumed, ReadIntOf;
  }

  lemma EndpointKeepsShape(m: Machine, line: Line, env: Env)
    requires Shape(m) && !m.quit && m.current == Endpoint
    ensures Shape(OnEndpoint(m, line, env))
  {
    hide Saved, EndpointAdded, ReadIntOf, Uses;
  }

  lemma NetworkKeepsShape(m: Machine, line: Line)
    requires Shape(m) && !m.quit && m.current == Network
    ensures Shape(OnNetwork(m, line))
  {
    ChoiceKeepsShape(m, ReadIntOf(line, -1));
    hide Saved, ReadIntOf, ReadChannel, ReadTx, ReadPanId, OnNetworkChoice;
  }

  lemma ChoiceKeepsShape(m: Machine, n: int)
    requires Shape(m) && m.current == Network
    ensures m.networkStep == 1 ==> Shape(OnNetworkChoice(m, n))
  {
    hide Saved;
  }

  lemma FindJoinKeepsShape(m: Machine, line: Line)
    requires Shape(m) && !m.quit && m.current == FindJoin
    ensures Shape(OnFindJoin(m, line))
  {
    hide Saved, ReadIntOf;
  }

  lemma MainKeepsShape(m: Machine, line: Line, env: Env)
    requires Shape(m) && !m.quit && m.current == Main
    ensures Shape(OnMain(m, line, env))
  {
    hide Saved, ReadIntOf, TargetRun, InitiatorRun, Illuminance.AfterTest;
  }

  // ---- Which lines reach the machines and the illuminance test ----

  predicate TestsUntouched(m: Machine, m': Machine) {
    m'.target == m.target && m'.initiator == m.initiator && m'.passes == m.passes
  }

  lemma SetUpLeavesTests(m: Machine, line: Line, env: Env)
    ensures TestsUntouched(m, OnEntrance(m, line, env))
    ensures TestsUntouched(m, OnEndpoint(m, line, env))
  {
    hide Saved, Resumed, EndpointAdded, ReadIntOf, Uses;
  }

  lemma NetworkLeavesTests(m: Machine, line: Line)
    ensures TestsUntouched(m, OnNetwork(m, line))
  {
    hide ReadIntOf, ReadChannel, ReadTx, ReadPanId;
  }

  lemma FindJoinLeavesTests(m: Machine, line: Line)
    ensures TestsUntouched(m, OnFindJoin(m, line))
  {
    hide ReadIntOf;
  }

  // Entry n of the main menu.
  lemma MainTests(m: Machine, line: Line, env: Env)
    ensures var m', n := OnMain(m, line, env), ReadIntOf(line, -1);
      if m.mainStep == 0 || ReadQ(line) || ReadE(line) || ReadLf(line) then TestsUntouched(m, m')
      else
        && m'.target == (
          if n == 8 then TargetRun(m.target, m.devices, TargetBegin, env.cs).state
          else if n == 9 then TargetRun(m.target, m.devices, TargetHalt, env.cs).state
          else m.target)
        && m'.initiator == (
          if n == 10 then InitiatorRun(m.initiator, m.devices, InitiatorBegin, env.cs).state
          else if n == 11 then InitiatorRun(m.initiator, m.devices, InitiatorHalt, env.cs).state
          else m.initiator)
        && m'.passes == (
          if n == 2 || n == 6 then Illuminance.AfterTest(m.passes, m.devices, env.sensors) else m.passes)
  {
    hide ReadIntOf, TargetRun, InitiatorRun, Illuminance.AfterTest;
  }

  // Once a menu behind initialisation is reached the registry is frozen, non-empty, and no
  // earlier menu comes back.
  lemma StepKeepsOperational(m: Machine, e: Event, env: Env)
    requires Shape(m) && Operational(m)
    ensures var m' := Step(m, e, env); Operational(m') && m'.devices == m.devices
  {
    hide Saved, TargetRun, InitiatorRun, TimerFires, ReadIntOf, ReadChannel, ReadTx, ReadPanId;
  }

  lemma StepKeepsCommissioning(m: Machine, e: Event, env: Env)
    requires Shape(m) && Commissions(m) && Admissible(m, e, env)
    ensures Commissions(Step(m, e, env))
  {
    if m.quit {
    } else if Operational(m) {
      OperationalStepCommissions(m, e, env);
    } else {
      EarlyStepCommissions(m, e, env);
    }
  }

  lemma OperationalStepCommissions(m: Machine, e: Event, env: Env)
    requires Shape(m) && Operational(m) && !m.quit && Commissions(m) && Admissible(m, e, env)
    ensures Commissions(Step(m, e, env))
  {
    StepKeepsOperational(m, e, env);
    var r := env.cs;
    match e {
      case KeyLine(line) =>
        TargetKeepsInvHere(m, TargetBegin, r);
        TargetKeepsInvHere(m, TargetHalt, r);
        InitiatorKeepsInv(m.initiator, m.devices, InitiatorBegin, r);
        InitiatorKeepsInv(m.initiator, m.devices, InitiatorHalt, r);
        KeyCommands(m, line, env);
      case TargetReport(ok) =>
        TargetKeepsInvHere(m, if ok then TargetSuccess else TargetFailure, r);
      case InitiatorReport(ok) =>
        InitiatorKeepsInv(m.initiator, m.devices, if ok then InitiatorSuccess else InitiatorFailure, r);
      case TimerEvent(id) =>
        FiringKeepsInv(m.target, m.devices, id, r);
      case NetworkFound(network) =>
    }
  }

  lemma TargetKeepsInvHere(m: Machine, cmd: TargetCommand, r: Replies)
    requires TargetInv(m.target, m.devices) && FreshTimer(m.target, r.timer) && !cmd.TargetTimeout?
    ensures TargetInv(TargetRun(m.target, m.devices, cmd, r).state, m.devices)
  {
    TargetKeepsInv(m.target, m.devices, cmd, r);
  }

  // The line selects entry n of the main menu.
  predicate Selects(m: Machine, line: Line, n: int) {
    m.current == Main && !ReadQ(line) && !ReadE(line) && !ReadLf(line) && ReadIntOf(line, -1) == n
  }

  // Which lines run a command of which machine.
  lemma KeyCommands(m: Machine, line: Line, env: Env)
    requires Shape(m) && !m.quit
    ensures OnKey(m, line, env).target ==
            if Selects(m, line, 8) then TargetRun(m.target, m.devices, TargetBegin, env.cs).state
            else if Selects(m, line, 9) then TargetRun(m.target, m.devices, TargetHalt, env.cs).state
            else m.target
    ensures OnKey(m, line, env).initiator ==
            if Selects(m, line, 10) then InitiatorRun(m.initiator, m.devices, InitiatorBegin, env.cs).state
            else if Selects(m, line, 11) then InitiatorRun(m.initiator, m.devices, InitiatorHalt, env.cs).state
            else m.initiator
  {
    SetUpLeavesTests(m, line, env);
    NetworkLeavesTests(m, line);
    FindJoinLeavesTests(m, line);
    MainTests(m, line, env);
    assert m.current == Main ==> m.mainStep == 1;
    hide Shape, TargetRun, InitiatorRun, ReadIntOf, OnEntrance, OnEndpoint, OnNetwork, OnFindJoin, OnMain;
  }

  lemma EarlyStepCommissions(m: Machine, e: Event, env: Env)
    requires Shape(m) && !Operational(m) && !m.quit && Commissions(m) && Admissible(m, e, env)
    ensures Commissions(Step(m, e, env))
  {
    var m' := Step(m, e, env);
    EarlyStepIsIdle(m, e, env);
    IdleIsInvariant(m'.devices);
    EarlyStepDevices(m, e, env);
    ResumedKeepsWired(m.devices, m.saved);
    if m'.devices != m.devices && m'.devices != Resumed(m.devices, m.saved) {
      var t, n :| t in DEVICE_TYPES && m'.devices == EndpointAdded(m.devices, t.profile, t.deviceId, n);
      AddKeepsWired(m.devices, t.profile, t.deviceId, n);
    }
  }

  lemma EarlyStepIsIdle(m: Machine, e: Event, env: Env)
    requires Shape(m) && !Operational(m) && !m.quit && Admissible(m, e, env)
    requires m.target == IDLE_TARGET && m.initiator == IDLE_INITIATOR
    ensures var m' := Step(m, e, env); m'.target == IDLE_TARGET && m'.initiator == IDLE_INITIATOR
  {
    hide Saved, Resumed, EndpointAdded, ReadIntOf;
  }

  // Before initialisation a step leaves the registry, resumes the record, or adds one device
  // of a listed type under an unused id in 1..239.
  lemma EarlyStepDevices(m: Machine, e: Event, env: Env)
    requires Shape(m) && !Operational(m) && !m.quit
    ensures var m' := Step(m, e, env);
      || m'.devices == m.devices
      || (m.current == Entrance && m'.devices == Resumed(m.devices, m.saved))
      || exists t, n :: t in DEVICE_TYPES && ENDPOINT_ID_MIN <= n <= ENDPOINT_ID_MAX && !Uses(m.devices, n)
           && m'.devices == EndpointAdded(m.devices, t.profile, t.deviceId, n)
    ensures Step(m, e, env).saved == m.saved
  {
    hide Saved, Resumed, EndpointAdded, ReadIntOf, TargetRun, InitiatorRun, TimerFires, Uses;
    if e.KeyLine? && m.current == Endpoint && m.endpointStep == 2 {
      var t := DEVICE_TYPES[m.selected];
      assert t in DEVICE_TYPES;
    }
  }

  lemma StepKeepsSaved(m: Machine, e: Event, env: Env)
    requires Shape(m)
    ensures Step(m, e, env).saved == m.saved
  {
    hide Saved, Resumed, EndpointAdded, ReadIntOf, TargetRun, InitiatorRun, TimerFires, ReadChannel, ReadTx, ReadPanId;
  }

  lemma StepKeepsRegistry(m: Machine, e: Event, env: Env)
    requires Shape(m) && Registers(m)
    ensures Registers(Step(m, e, env))
  {
    hide Saved, Orderly, WellSaved;
    StepKeepsSaved(m, e, env);
    if m.quit || !WellSaved(m.saved) {
    } else if Operational(m) {
      StepKeepsOperational(m, e, env);
    } else {
      var m' := Step(m, e, env);
      EarlyStepDevices(m, e, env);
      if m'.devices == m.devices {
      } else if m.current == Entrance && m'.devices == Resumed(m.devices, m.saved) {
        ResumeSaveRoundTrip(m.saved);
      } else {
        var t, n :| t in DEVICE_TYPES && ENDPOINT_ID_MIN <= n <= ENDPOINT_ID_MAX && !Uses(m.devices, n)
          && m'.devices == EndpointAdded(m.devices, t.profile, t.deviceId, n);
        AddKeepsOrderly(m.devices, t.profile, t.deviceId, n);
      }
    }
  }

  // ---- The wizard ----

  // The notes end with the beginning of a pass and its first answers.
  ghost predicate AfterBegin(notes: seq<WizardNote>, join: bool) {
    notes != [] && notes[|notes| - 1] == Began(join)
  }

  ghost predicate AfterChannel(notes: seq<WizardNote>, join: bool, info: NetworkInfo) {
    notes != [] && notes[|notes| - 1] == Channel(info.channel) && AfterBegin(notes[..|notes| - 1], join)
  }

  ghost predicate AfterTx(notes: seq<WizardNote>, join: bool, info: NetworkInfo) {
    notes != [] && notes[|notes| - 1] == Tx(info.tx) && AfterChannel(notes[..|notes| - 1], join, info)
  }

  ghost predicate AfterPan(notes: seq<WizardNote>, join: bool, info: NetworkInfo) {
    notes != [] && notes[|notes| - 1] == Pan(info.panId) && AfterTx(notes[..|notes| - 1], join, info)
  }

  predicate InfoInRange(info: NetworkInfo) {
    CHANNEL_MIN <= info.channel <= CHANNEL_MAX && 0 <= info.tx <= TX_MAX && 0 <= info.panId <= PAN_MAX
  }

  // Every network formed or joined from the wizard was described by the three answers accepted
  // in the pass just made, all in range.
  ghost predicate PassesMatch(notes: seq<WizardNote>) {
    notes == [] ||
    var past, last := notes[..|notes| - 1], notes[|notes| - 1];
    PassesMatch(past) &&
    (last.Submitted? ==> InfoInRange(last.info) && AfterPan(past, last.join, last.info))
  }

  // What the current pass has accepted so far.
  ghost predicate PassUnderWay(m: Machine) {
    m.current == Network ==> Accepted(m.wizard, m.networkStep, m.info)
  }

  ghost predicate Accepted(notes: seq<WizardNote>, step: int, info: NetworkInfo) {
    && (step == 2 || step == 5 ==> AfterBegin(notes, step == 5))
    && (step == 3 || step == 6 ==> AfterChannel(notes, step == 6, info))
    && (step == 4 || step == 7 ==> AfterTx(notes, step == 7, info))
    && (step == 3 || step == 4 || step == 6 || step == 7 ==> CHANNEL_MIN <= info.channel <= CHANNEL_MAX)
    && (step == 4 || step == 7 ==> 0 <= info.tx <= TX_MAX)
  }

  lemma NoteKeepsPasses(notes: seq<WizardNote>, x: WizardNote)
    requires PassesMatch(notes)
    requires x.Submitted? ==> InfoInRange(x.info) && AfterPan(notes, x.join, x.info)
    ensures PassesMatch(notes + [x])
  {
    assert (notes + [x])[..|notes|] == notes;
  }

  lemma ChannelKeepsWizard(m: Machine, join: bool, answer: Option<int>)
    requires PassesMatch(m.wizard) && PassUnderWay(m)
    requires m.current == Network && m.networkStep == if join then 5 else 2
    requires answer.Some? ==> CHANNEL_MIN <= answer.value <= CHANNEL_MAX
    ensures var m' := OnChannel(m, answer); PassesMatch(m'.wizard) && PassUnderWay(m')
  {
    if answer.Some? {
      NoteKeepsPasses(m.wizard, Channel(answer.value));
      assert (m.wizard + [Channel(answer.value)])[..|m.wizard|] == m.wizard;
      hide PassesMatch;
    }
  }

  lemma TxKeepsWizard(m: Machine, join: bool, answer: Option<int>)
    requires PassesMatch(m.wizard) && PassUnderWay(m)
    requires m.current == Network && m.networkStep == if join then 6 else 3
    requires answer.Some? ==> 0 <= answer.value <= TX_MAX
    ensures var m' := OnTx(m, answer); PassesMatch(m'.wizard) && PassUnderWay(m')
  {
    if answer.Some? {
      NoteKeepsPasses(m.wizard, Tx(answer.value));
      assert (m.wizard + [Tx(answer.value)])[..|m.wizard|] == m.wizard;
      hide PassesMatch;
    }
  }

  lemma PanKeepsWizard(m: Machine, join: bool, answer: Option<int>)
    requires PassesMatch(m.wizard) && PassUnderWay(m)
    requires m.current == Network && m.networkStep == if join then 7 else 4
    requires answer.Some? ==> 0 <= answer.value <= PAN_MAX
    ensures var m' := OnPan(m, join, answer); PassesMatch(m'.wizard) && PassUnderWay(m')
  {
    if answer.Some? {
      var m' := OnPan(m, join, answer);
      var w := m.wizard + [Pan(answer.value)];
      NoteKeepsPasses(m.wizard, Pan(answer.value));
      assert w[..|m.wizard|] == m.wizard;
      NoteKeepsPasses(w, Submitted(join, m'.info));
      assert m'.wizard == w + [Submitted(join, m'.info)];
      hide PassesMatch;
    }
  }

  lemma AnswerKeepsWizard(m: Machine, line: Line)
    requires PassesMatch(m.wizard) && PassUnderWay(m)
    requires m.current == Network && 2 <= m.networkStep <= 7
    ensures var m' := OnNetwork(m, line); PassesMatch(m'.wizard) && PassUnderWay(m')
  {
    TxAnswersAreNonNegative(line);
    hide ReadIntOf, ReadTx, PassesMatch, PassUnderWay, OnChannel, OnTx, OnPan;
    match m.networkStep {
      case 2 => ChannelKeepsWizard(m, false, ReadChannel(line));
      case 3 => TxKeepsWizard(m, false, ReadTx(line));
      case 4 => PanKeepsWizard(m, false, ReadPanId(line));
      case 5 => ChannelKeepsWizard(m, true, ReadChannel(line));
      case 6 => TxKeepsWizard(m, true, ReadTx(line));
      case 7 => PanKeepsWizard(m, true, ReadPanId(line));
    }
  }

  lemma StepKeepsWizard(m: Machine, e: Event, env: Env)
    requires Shape(m) && PassesMatch(m.wizard) && PassUnderWay(m)
    ensures var m' := Step(m, e, env); PassesMatch(m'.wizard) && PassUnderWay(m')
  {
    hide PassesMatch, PassUnderWay, OnKey, OnNetwork;
    if m.quit {
    } else if e.KeyLine? && m.current == Network {
      if m.networkStep == 1 { MenuKeyKeepsWizard(m, e.line); } else { AnswerKeepsWizard(m, e.line); }
      assert Step(m, e, env) == OnNetwork(m, e.line) by { StepIsNetworkKey(m, e, env); }
    } else {
      OtherStepsKeepWizard(m, e, env);
    }
  }

  lemma StepIsNetworkKey(m: Machine, e: Event, env: Env)
    requires !m.quit && e.KeyLine? && m.current == Network
    ensures Step(m, e, env) == OnNetwork(m, e.line)
  {
  }

  lemma MenuKeyKeepsWizard(m: Machine, line: Line)
    requires PassesMatch(m.wizard) && m.current == Network && m.networkStep == 1
    ensures var m' := OnNetwork(m, line); PassesMatch(m'.wizard) && PassUnderWay(m')
  {
    ChoiceKeepsWizard(m, ReadIntOf(line, -1));
    StaysAtMenu(m);
    hide ReadIntOf, PassesMatch, PassUnderWay, OnNetworkChoice;
  }

  lemma StaysAtMenu(m: Machine)
    requires m.current == Network && m.networkStep == 1
    ensures PassUnderWay(m) && PassUnderWay(m.(quit := true))
  {
  }

  lemma ChoiceKeepsWizard(m: Machine, n: int)
    requires PassesMatch(m.wizard) && m.current == Network && m.networkStep == 1
    ensures var m' := OnNetworkChoice(m, n); PassesMatch(m'.wizard) && PassUnderWay(m')
  {
    BeganAccepted(m.wizard, m.info);
    if n == 2 || n == 4 {
      NoteKeepsPasses(m.wizard, Began(n == 4));
      hide PassesMatch, Accepted, EnterMain, EnterFindJoin;
    } else if n == 8 || n == 10 {
      hide PassesMatch, Accepted;
    } else {
      hide PassesMatch, Accepted, EnterMain, EnterFindJoin;
      assert OnNetworkChoice(m, n) == m;
    }
  }

  lemma BeganAccepted(notes: seq<WizardNote>, info: NetworkInfo)
    ensures Accepted(notes, 1, info)
    ensures Accepted(notes + [Began(false)], 2, info) && Accepted(notes + [Began(true)], 5, info)
  {
  }

  lemma OtherStepsKeepWizard(m: Machine, e: Event, env: Env)
    requires Shape(m) && PassUnderWay(m) && !m.quit && !(e.KeyLine? && m.current == Network)
    ensures var m' := Step(m, e, env); m'.wizard == m.wizard && PassUnderWay(m')
  {
    hide Saved, Resumed, EndpointAdded, ReadIntOf, TargetRun, InitiatorRun, TimerFires;
    hide AfterBegin, AfterChannel, AfterTx;
  }

  // ---- The finder ----

  // The networks reported since the last reset, the dropped ones included.
  function FoundSince(notes: seq<FindNote>): seq<NetworkInfo> {
    if notes == [] then [] else AfterNote(FoundSince(notes[..|notes| - 1]), notes[|notes| - 1])
  }

  function AfterNote(past: seq<NetworkInfo>, note: FindNote): seq<NetworkInfo> {
    if note.Reset? then [] else if note.Found? then past + [note.info] else past
  }

  // Every join picked one of the first eight networks reported after the last reset before it.
  ghost predicate JoinsMatch(notes: seq<FindNote>) {
    notes == [] ||
    var past, last := notes[..|notes| - 1], notes[|notes| - 1];
    JoinsMatch(past) && (last.Joined? ==> Offered(past, last.choice, last.info))
  }

  ghost predicate Offered(notes: seq<FindNote>, choice: int, info: NetworkInfo) {
    var since := FoundSince(notes);
    Reset in notes && 1 <= choice <= FIND_MAX && choice <= |since| && since[choice - 1] == info
  }

  // The slots hold the first eight of those reports.
  ghost predicate Slots(found: seq<NetworkInfo>, findSize: int, since: seq<NetworkInfo>) {
    && |found| == FIND_MAX
    && findSize == (if |since| < FIND_MAX then |since| else FIND_MAX)
    && found[..findSize] == since[..findSize]
  }

  ghost predicate Finder(m: Machine) {
    && JoinsMatch(m.finds)
    && (m.current == FindJoin ==> Reset in m.finds)
    && Slots(m.found, m.findSize, FoundSince(m.finds))
  }

  lemma NoteKeepsJoins(notes: seq<FindNote>, x: FindNote)
    requires JoinsMatch(notes)
    requires x.Joined? ==> Offered(notes, x.choice, x.info)
    ensures JoinsMatch(notes + [x])
    ensures FoundSince(notes + [x]) == AfterNote(FoundSince(notes), x)
    ensures Reset in notes || x == Reset ==> Reset in notes + [x]
  {
    assert (notes + [x])[..|notes|] == notes;
    assert (notes + [x])[|notes|] == x;
  }

  lemma StepKeepsFinder(m: Machine, e: Event, env: Env)
    requires Shape(m) && Finder(m)
    ensures Finder(Step(m, e, env))
  {
    hide Finder, OnFound, OnNetwork, OnFindJoin;
    if m.quit {
    } else if e.NetworkFound? {
      FoundKeepsFinder(m, e.network);
    } else if e.KeyLine? && m.current == Network {
      NetworkKeyKeepsFinder(m, e.line);
    } else if e.KeyLine? && m.current == FindJoin {
      FindKeyKeepsFinder(m, e.line);
    } else {
      OtherStepsKeepFinder(m, e, env);
      SameFinder(m, Step(m, e, env));
    }
  }

  lemma FoundKeepsFinder(m: Machine, network: NetworkInfo)
    requires Finder(m)
    ensures Finder(OnFound(m, network))
  {
    NoteKeepsJoins(m.finds, Found(network));
    hide JoinsMatch, FoundSince;
    var since := FoundSince(m.finds);
    var m' := OnFound(m, network);
    assert FoundSince(m'.finds) == since + [network];
    if |since| < FIND_MAX {
      assert m'.found[..m'.findSize] == m.found[..m.findSize] + [network];
    } else {
      assert (since + [network])[..FIND_MAX] == since[..FIND_MAX];
    }
  }

  lemma ResetKeepsFinder(m: Machine)
    requires Finder(m)
    ensures Finder(EnterFindJoin(m)) && Finder(FindNetwork(m))
  {
    NoteKeepsJoins(m.finds, Reset);
    hide JoinsMatch, FoundSince;
  }

  lemma SameFinder(m: Machine, m': Machine)
    requires Finder(m) && m'.finds == m.finds && m'.found == m.found && m'.findSize == m.findSize
    requires m'.current == FindJoin ==> m.current == FindJoin
    ensures Finder(m')
  {
    hide JoinsMatch, FoundSince, Slots;
  }

  lemma NetworkKeyKeepsFinder(m: Machine, line: Line)
    requires Shape(m) && Finder(m) && m.current == Network && !m.quit
    ensures Finder(OnNetwork(m, line))
  {
    if m.networkStep == 1 && !ReadQ(line) && !ReadE(line) && !ReadLf(line) {
      ChoiceKeepsFinder(m, ReadIntOf(line, -1));
      hide Finder, OnNetworkChoice, ReadIntOf;
    } else {
      hide Finder, ReadIntOf, ReadChannel, ReadTx, ReadPanId;
      SameFinder(m, OnNetwork(m, line));
    }
  }

  lemma ChoiceKeepsFinder(m: Machine, n: int)
    requires Finder(m) && m.current == Network
    ensures Finder(OnNetworkChoice(m, n))
  {
    if n == 10 {
      ResetKeepsFinder(m);
      hide Finder, EnterFindJoin;
    } else {
      OtherChoices(m, n);
      hide *;
      SameFinder(m, OnNetworkChoice(m, n));
    }
  }

  lemma OtherChoices(m: Machine, n: int)
    requires m.current == Network && n != 10
    ensures var m' := OnNetworkChoice(m, n);
      m'.finds == m.finds && m'.found == m.found && m'.findSize == m.findSize && m'.current != FindJoin
  {
  }

  lemma FindKeyKeepsFinder(m: Machine, line: Line)
    requires Shape(m) && Finder(m) && m.current == FindJoin && !m.quit
    ensures Finder(OnFindJoin(m, line))
  {
    var n := ReadIntOf(line, -1);
    if ReadQ(line) || ReadE(line) || ReadLf(line) || (n != 9 && !(1 <= n <= FIND_MAX && n <= m.findSize)) {
      hide Finder, ReadIntOf;
      SameFinder(m, OnFindJoin(m, line));
    } else if n == 9 {
      ResetKeepsFinder(m);
      hide Finder, ReadIntOf, FindNetwork;
    } else {
      hide ReadIntOf;
      JoinKeepsFinder(m, n);
    }
  }

  lemma JoinKeepsFinder(m: Machine, n: int)
    requires Finder(m) && m.current == FindJoin && 1 <= n <= m.findSize
    ensures m.findSize <= |m.found| && Finder(m.(finds := m.finds + [Joined(n, m.found[n - 1])]))
  {
    var since := FoundSince(m.finds);
    assert m.found[..m.findSize][n - 1] == since[..m.findSize][n - 1];
    NoteKeepsJoins(m.finds, Joined(n, m.found[n - 1]));
    hide JoinsMatch, FoundSince, Slots;
  }

  lemma OtherStepsKeepFinder(m: Machine, e: Event, env: Env)
    requires Shape(m) && !m.quit && !e.NetworkFound?
    requires !(e.KeyLine? && (m.current == Network || m.current == FindJoin))
    ensures var m' := Step(m, e, env);
      && m'.finds == m.finds && m'.found == m.found && m'.findSize == m.findSize
      && (m'.current == FindJoin ==> m.current == FindJoin)
  {
    hide Saved, Resumed, EndpointAdded, ReadIntOf, TargetRun, InitiatorRun, TimerFires;
  }

  // ---- The illuminance test ----

  lemma StepKeepsLight(m: Machine, e: Event, env: Env)
    requires Illuminance.AllInRange(m.passes)
    ensures Illuminance.AllInRange(Step(m, e, env).passes)
  {
    StepPasses(m, e, env);
    Illuminance.TestKeepsRange(m.passes, m.devices, env.sensors);
    hide Step, Illuminance.AllInRange, Illuminance.AfterTest;
  }

  lemma StepPasses(m: Machine, e: Event, env: Env)
    ensures var ps := Step(m, e, env).passes;
      ps == m.passes || ps == Illuminance.AfterTest(m.passes, m.devices, env.sensors)
  {
    if e.KeyLine? {
      SetUpLeavesTests(m, e.line, env);
      NetworkLeavesTests(m, e.line);
      FindJoinLeavesTests(m, e.line);
      MainTests(m, e.line, env);
    }
    hide TargetRun, InitiatorRun, TimerFires, Illuminance.AfterTest, ReadIntOf;
    hide OnEntrance, OnEndpoint, OnNetwork, OnFindJoin, OnMain;
  }

  // ---- Start calls ----

  // The start calls since the last START are the tries.
  ghost predicate Logged(log: seq<Call>, tried: seq<nat>) {
    exists before: nat :: before <= |StartsOf(log)| && StartsOf(log)[before..] == tried
  }

  lemma LoggedNext(log: seq<Call>, log': seq<Call>, tried: seq<nat>, tried': seq<nat>)
    requires Logged(log, tried) && LogsTry(log, log', tried, tried')
    ensures Logged(log', tried')
  {
    var before: nat :| before <= |StartsOf(log)| && StartsOf(log)[before..] == tried;
    hide StartsOf;
    if tried' != tried {
      assert (StartsOf(log) + [Last(tried')])[before..] == StartsOf(log)[before..] + [Last(tried')];
    }
    assert StartsOf(log')[before..] == tried';
  }

  lemma TargetStaysLogged(s: TargetState, devs: seq<TestDevice>, cmd: TargetCommand, r: Replies)
    requires TargetInv(s, devs) && Logged(s.log, s.tried)
    ensures var s' := TargetRun(s, devs, cmd, r).state; Logged(s'.log, s'.tried)
  {
    TargetLogsTries(s, devs, cmd, r);
    assert StartsOf(s.log)[|StartsOf(s.log)|..] == [];
    hide StartsOf, LogsTry, TargetInv, TargetRun;
    var s' := TargetRun(s, devs, cmd, r).state;
    LoggedNext(s.log, s'.log, if cmd.TargetBegin? then [] else s.tried, s'.tried);
  }

  lemma InitiatorStaysLogged(s: InitiatorState, devs: seq<TestDevice>, cmd: InitiatorCommand, r: Replies)
    requires InitiatorInv(s, devs) && Logged(s.log, s.tried)
    ensures var s' := InitiatorRun(s, devs, cmd, r).state; Logged(s'.log, s'.tried)
  {
    InitiatorLogsTries(s, devs, cmd, r);
    assert StartsOf(s.log)[|StartsOf(s.log)|..] == [];
    hide StartsOf, LogsTry, InitiatorInv, InitiatorRun;
    var s' := InitiatorRun(s, devs, cmd, r).state;
    LoggedNext(s.log, s'.log, if cmd.InitiatorBegin? then [] else s.tried, s'.tried);
  }

  lemma FiringStaysLogged(s: TargetState, devs: seq<TestDevice>, id: int, r: Replies)
    requires TargetInv(s, devs) && Logged(s.log, s.tried)
    ensures var s' := TimerFires(s, devs, id, r); Logged(s'.log, s'.tried)
  {
    if s.testing && s.timeoutId == id {
      TargetTestingIndexIsValid(s, devs);
      var s1 := s.(pending := s.pending - {id});
      RunningTargetLogsTries(s1, devs, TargetTimeout, r);
      hide StartsOf, LogsTry, TargetInv, TargetRun;
      var s' := TargetRun(s1, devs, TargetTimeout, r).state;
      LoggedNext(s.log, s'.log, s.tried, s'.tried);
    } else {
      hide TargetStart, Logged;
    }
  }

  ghost predicate BothLogged(m: Machine) {
    Logged(m.target.log, m.target.tried) && Logged(m.initiator.log, m.initiator.tried)
  }

  lemma StepKeepsLogged(m: Machine, e: Event, env: Env)
    requires Shape(m) && Commissions(m) && BothLogged(m)
    ensures BothLogged(Step(m, e, env))
  {
    hide Logged, TargetInv, InitiatorInv, TargetRun, InitiatorRun, TimerFires, OnKey, OnFound;
    match e {
      case KeyLine(line) =>
        if !m.quit {
          KeyCommands(m, line, env);
          TargetStaysLogged(m.target, m.devices, TargetBegin, env.cs);
          TargetStaysLogged(m.target, m.devices, TargetHalt, env.cs);
          InitiatorStaysLogged(m.initiator, m.devices, InitiatorBegin, env.cs);
          InitiatorStaysLogged(m.initiator, m.devices, InitiatorHalt, env.cs);
        }
      case TargetReport(ok) =>
        TargetStaysLogged(m.target, m.devices, if ok then TargetSuccess else TargetFailure, env.cs);
      case InitiatorReport(ok) =>
        InitiatorStaysLogged(m.initiator, m.devices, if ok then InitiatorSuccess else InitiatorFailure, env.cs);
      case TimerEvent(id) =>
        FiringStaysLogged(m.target, m.devices, id, env.cs);
      case NetworkFound(network) =>
        FoundTouchesNoMachine(m, network);
    }
  }

  lemma FoundTouchesNoMachine(m: Machine, network: NetworkInfo)
    ensures OnFound(m, network).target == m.target && OnFound(m, network).initiator == m.initiator
  {
  }

  // ---- Whole runs ----

  ghost predicate Good(m: Machine) {
    && Shape(m) && Commissions(m) && Registers(m)
    && PassesMatch(m.wizard) && PassUnderWay(m)
    && Finder(m)
    && BothLogged(m)
    && Illuminance.AllInRange(m.passes)
  }

  lemma BootGood(env: Env)
    ensures Good(Boot(env))
  {
    BootIsGood(env);
    assert StartsOf([])[0..] == [];
  }

  lemma StepKeepsGood(m: Machine, e: Event, env: Env)
    requires Good(m) && Admissible(m, e, env)
    ensures Good(Step(m, e, env))
  {
    hide Shape, Commissions, Registers, PassesMatch, PassUnderWay, Finder, BothLogged, Step, Admissible;
    hide Illuminance.AllInRange;
    StepKeepsShape(m, e, env);
    StepKeepsCommissioning(m, e, env);
    StepKeepsRegistry(m, e, env);
    StepKeepsWizard(m, e, env);
    StepKeepsFinder(m, e, env);
    StepKeepsLogged(m, e, env);
    StepKeepsLight(m, e, env);
  }

  // Every reachable state is good.
  lemma {:induction false} RunKeepsGood(m: Machine, events: seq<(Event, Env)>)
    requires Good(m) && AdmissibleRun(m, events)
    ensures Good(Run(m, events))
    decreases |events|
  {
    hide Good, Step, Admissible;
    if events != [] {
      var n := |events| - 1;
      RunKeepsGood(m, events[..n]);
      StepKeepsGood(Run(m, events[..n]), events[n].0, events[n].1);
    }
  }

  // Nothing that happens after initialisation adds, removes or changes a device, or leads back
  // to the menus that could.
  lemma {:induction false} RegistryIsFrozen(m: Machine, events: seq<(Event, Env)>)
    requires Good(m) && Operational(m) && AdmissibleRun(m, events)
    ensures var m' := Run(m, events); Operational(m') && m'.devices == m.devices && m'.devices != []
    decreases |events|
  {
    hide Good, Step, Admissible;
    if events == [] {
      assert m.devices != [] by { GoodShape(m); }
    } else {
      var n := |events| - 1;
      RegistryIsFrozen(m, events[..n]);
      RunKeepsGood(m, events[..n]);
      GoodShape(Run(m, events[..n]));
      StepKeepsOperational(Run(m, events[..n]), events[n].0, events[n].1);
    }
  }

  lemma GoodShape(m: Machine)
    requires Good(m)
    ensures Shape(m)
    ensures Operational(m) ==> m.devices != [] && m.records == [Saved(m.devices)]
  {
  }

  ghost predicate Sound(m: Machine) {
    var t, i, devs := m.target, m.initiator, m.devices;
    && (t.testing || i.testing ==> Operational(m))
    && (t.testing ==> 0 <= t.index < |devs| && Supports(devs[t.index], Target))
    && (i.testing ==> 0 <= i.index < |devs| && Supports(devs[i.index], Initiator) && 0 <= i.retry <= RETRY_COUNT)
    && (t.testing && i.testing ==> t.index != i.index)
  }

  // In every reachable state a commissioning machine under test holds a valid index of a
  // device that can be started and stopped, with a retry budget of 0..5, so the branches for a
  // bad index are never taken; and the two machines never hold the same index.
  lemma TestingIsSound(env: Env, events: seq<(Event, Env)>)
    requires AdmissibleRun(Boot(env), events)
    ensures Sound(Run(Boot(env), events))
  {
    var m := Run(Boot(env), events);
    BootGood(env);
    RunKeepsGood(Boot(env), events);
    GoodCommissioning(m);
  }

  lemma GoodCommissioning(m: Machine)
    requires Good(m)
    ensures Sound(m)
    ensures |m.initiator.tried| <= 6 * |SupportSet(m.devices, Initiator)|
    ensures Logged(m.initiator.log, m.initiator.tried)
    ensures |m.target.tried| <= |SupportSet(m.devices, Target)|
    ensures Logged(m.target.log, m.target.tried)
    ensures WellSaved(m.saved) ==> Orderly(m.devices)
  {
    if m.target.testing { TargetTestingIndexIsValid(m.target, m.devices); }
    if m.initiator.testing { InitiatorTestingIndexIsValid(m.initiator, m.devices); }
    if m.target.testing && m.initiator.testing { DifferentDevices(m.target, m.initiator, m.devices); }
    RunLength(m.initiator.tried, m.devices, Initiator, 6);
    RunLength(m.target.tried, m.devices, Target, 1);
  }

  ghost predicate HonestRun(events: seq<(Event, Env)>) {
    forall i :: 0 <= i < |events| ==> HonestTimer(events[i].1.cs.timer)
  }

  // Over any run, a target under test is not stuck exactly when its newest timer was
  // registered: that timer, armed for the device under test, is then pending, and of all
  // pending timers it alone, when it fires, moves the machine. It always was if the loop never
  // refuses a timer behind a positive id.
  lemma TargetIsNeverStuck(env: Env, events: seq<(Event, Env)>, r: Replies)
    requires AdmissibleRun(Boot(env), events)
    requires Run(Boot(env), events).target.testing
    ensures var m := Run(Boot(env), events); NotStuck(m.target, m.devices, r) <==> m.target.live
    ensures HonestRun(events) ==> Run(Boot(env), events).target.live
  {
    BootGood(env);
    RunKeepsGood(Boot(env), events);
    if HonestRun(events) { HonestSessionIsLive(env, events); }
    hide Good, Run, TimerFires, Boot, AdmissibleRun, NotStuck;
    NotStuckIffLive(Run(Boot(env), events), r);
  }

  lemma NotStuckIffLive(m: Machine, r: Replies)
    requires Good(m) && m.target.testing
    ensures NotStuck(m.target, m.devices, r) <==> m.target.live
  {
    if m.target.live {
      LiveRunIsNotStuck(m, r);
    } else {
      assert TargetInv(m.target, m.devices);
      hide Good, TimerFires, InOrder;
    }
  }

  ghost predicate NotStuck(t: TargetState, devs: seq<TestDevice>, r: Replies) {
    && t.timeoutId in t.pending
    && |t.armings| > 0 && t.pending[t.timeoutId] == |t.armings| - 1
    && t.armings[|t.armings| - 1] == t.index
    && forall id :: id in t.pending ==>
         (TimerFires(t, devs, id, r) != t.(pending := t.pending - {id}) <==> id == t.timeoutId)
  }

  lemma LiveRunIsNotStuck(m: Machine, r: Replies)
    requires Good(m) && m.target.testing && m.target.live
    ensures NotStuck(m.target, m.devices, r)
  {
    var t, devs := m.target, m.devices;
    assert TargetInv(t, devs);
    hide Good, TimerFires;
    forall id | id in t.pending
      ensures TimerFires(t, devs, id, r) != t.(pending := t.pending - {id}) <==> id == t.timeoutId
    {
      FiringActsIff(t, devs, id, r);
    }
  }

  lemma {:induction false} HonestRunIsLive(m: Machine, events: seq<(Event, Env)>)
    requires HonestRun(events) && (m.target.testing ==> m.target.live)
    ensures var t := Run(m, events).target; t.testing ==> t.live
    decreases |events|
  {
    if events != [] {
      var n := |events| - 1;
      HonestRunIsLive(m, events[..n]);
      HonestStepIsLive(Run(m, events[..n]), events[n].0, events[n].1);
    }
  }

  lemma HonestSessionIsLive(env: Env, events: seq<(Event, Env)>)
    requires HonestRun(events)
    ensures var t := Run(Boot(env), events).target; t.testing ==> t.live
  {
    HonestRunIsLive(Boot(env), events);
  }

  lemma HonestStepIsLive(m: Machine, e: Event, env: Env)
    requires HonestTimer(env.cs.timer) && (m.target.testing ==> m.target.live)
    ensures var t := Step(m, e, env).target; t.testing ==> t.live
  {
    match e {
      case KeyLine(line) =>
        HonestTimersStayLive(m.target, m.devices, TargetBegin, env.cs);
        HonestTimersStayLive(m.target, m.devices, TargetHalt, env.cs);
        AnyKeyTouchesTarget(m, line, env);
      case TargetReport(ok) =>
        HonestTimersStayLive(m.target, m.devices, if ok then TargetSuccess else TargetFailure, env.cs);
      case TimerEvent(id) =>
        HonestTimersStayLive(m.target.(pending := m.target.pending - {id}), m.devices, TargetTimeout, env.cs);
      case InitiatorReport(_) =>
      case NetworkFound(_) =>
    }
  }

  lemma AnyKeyTouchesTarget(m: Machine, line: Line, env: Env)
    ensures var t := OnKey(m, line, env).target;
      || t == m.target
      || t == TargetRun(m.target, m.devices, TargetBegin, env.cs).state
      || t == TargetRun(m.target, m.devices, TargetHalt, env.cs).state
  {
    SetUpLeavesTests(m, line, env);
    NetworkLeavesTests(m, line);
    FindJoinLeavesTests(m, line);
    MainTests(m, line, env);
    hide TargetRun, InitiatorRun, ReadIntOf, OnEntrance, OnEndpoint, OnNetwork, OnFindJoin, OnMain;
  }

  // Every network the program forms or joins by hand, over any run.
  lemma ManualNetworksAreAnswered(env: Env, events: seq<(Event, Env)>)
    requires AdmissibleRun(Boot(env), events)
    ensures PassesMatch(Run(Boot(env), events).wizard)
    ensures JoinsMatch(Run(Boot(env), events).finds)
  {
    BootGood(env);
    RunKeepsGood(Boot(env), events);
  }

  // Every range the illuminance test ever asked for is the one the number of passes
  // determines, and every value it sent is in the range, over any run.
  lemma IlluminanceStaysInRange(env: Env, events: seq<(Event, Env)>)
    requires AdmissibleRun(Boot(env), events)
    ensures Illuminance.AllInRange(Run(Boot(env), events).passes)
  {
    BootGood(env);
    RunKeepsGood(Boot(env), events);
  }

  // A run, event by event.
  lemma {:induction false} AdmissibleUpTo(m: Machine, events: seq<(Event, Env)>, k: nat)
    requires AdmissibleRun(m, events) && k < |events|
    ensures AdmissibleRun(m, events[..k])
    ensures Admissible(Run(m, events[..k]), events[k].0, events[k].1)
    ensures Run(m, events[..k + 1]) == Step(Run(m, events[..k]), events[k].0, events[k].1)
    decreases |events|
  {
    hide Admissible, Step;
    var n := |events| - 1;
    if k < n {
      AdmissibleUpTo(m, events[..n], k);
      assert events[..n][..k] == events[..k] && events[..n][..k + 1] == events[..k + 1];
    } else {
      assert events[..k + 1] == events;
    }
  }

  // Two sessions: the record the first one saved, answered to the second one and resumed with
  // "0", rebuilds the first five devices and is saved again unchanged.
  lemma SessionResumes(env: Env, events: seq<(Event, Env)>, m: Machine, rec: SavedRecord,
                       env2: Env, env3: Env, line: Line)
    requires AdmissibleRun(Boot(env), events) && m == Run(Boot(env), events)
    requires Operational(m) && WellSaved(m.saved) && m.records == [rec]
    requires env2.local == Some(rec)
    requires ReadIntOf(line, -1) == 0 && env3.initialize == SOk
    ensures var m2 := Step(Boot(env2), KeyLine(line), env3);
      && m2.current == Network && !m2.quit
      && m2.devices == m.devices[..if |m.devices| < 5 then |m.devices| else 5]
      && m2.records == [rec]
  {
    BootGood(env);
    RunKeepsGood(Boot(env), events);
    GoodShape(m);
    GoodCommissioning(m);
    hide Good, Sound, Orderly, WellSaved, Resumed, Step, Run, AdmissibleRun, Boot, ReadIntOf, Operational;
    SaveResumeRoundTrip(m.devices);
    ResumedSession(m.devices, env2, env3, line);
  }

  lemma ResumedSession(devs: seq<TestDevice>, env2: Env, env3: Env, line: Line)
    requires devs != [] && Resumed([], Saved(devs)) == devs[..|Saved(devs)|]
    requires Saved(Resumed([], Saved(devs))) == Saved(devs)
    requires env2.local == Some(Saved(devs))
    requires ReadIntOf(line, -1) == 0 && env3.initialize == SOk
    ensures var m2 := Step(Boot(env2), KeyLine(line), env3);
      && m2.current == Network && !m2.quit
      && m2.devices == devs[..|Saved(devs)|]
      && m2.records == [Saved(devs)]
  {
    assert |Saved(devs)| > 0;
    hide Saved, Resumed, ReadIntOf;
    assert [] + [Saved(devs)] == [Saved(devs)];
  }
}
