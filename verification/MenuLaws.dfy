/** What the entries of the menus lead to and what the dialogues behind them come to, said of
    the lines typed. */
module MenuLaws {
  import opened Base
  import opened Devices
  import opened NumberReader
  import opened Commissioning
  import opened CommandLaws
  import opened Menu
  import opened MenuProofs
  import Illuminance

  // ---- The network menu and its wizard ----

  predicate AtNetwork(m: Machine, step: int) {
    !m.quit && m.current == Network && m.networkStep == step
  }

  // The lines that end the program, by their first character.
  predicate Quits(line: Line) { line[0] in "qQeE" }

  // The line is neither empty nor one that quits, and reads as n.
  predicate Picks(line: Line, n: int) {
    !Quits(line) && line[0] != '\n' && ReadIntOf(line, -1) == n
  }

  // Every line in the network menu: 2 forms, 4 joins, 8 and 10 lead on, q and e quit, and all
  // else changes nothing.
  lemma NetworkEntries(m: Machine, line: Line, env: Env)
    requires AtNetwork(m, 1)
    ensures Step(m, KeyLine(line), env) ==
      if Quits(line) then m.(quit := true)
      else if Picks(line, 2) then m.(networkStep := 2, wizard := m.wizard + [Began(false)])
      else if Picks(line, 4) then m.(networkStep := 5, wizard := m.wizard + [Began(true)])
      else if Picks(line, 8) then m.(current := Main, mainStep := 1)
      else if Picks(line, 10) then
        m.(current := FindJoin, findStep := 1, findSize := 0, finds := m.finds + [Reset])
      else m
  {
    hide ReadIntOf;
  }

  // The step of the wizard at which a question is asked: channel, tx power, pan id.
  function Question(join: bool, k: nat): int { (if join then 5 else 2) + k }

  lemma ChannelAnswered(m: Machine, line: Line, env: Env, join: bool, c: int)
    requires AtNetwork(m, Question(join, 0)) && ReadChannel(line) == Some(c)
    ensures var m' := Step(m, KeyLine(line), env);
      AtNetwork(m', Question(join, 1)) && m'.info.channel == c && m'.wizard == m.wizard + [Channel(c)]
  {
    hide ReadChannel;
  }

  lemma TxAnswered(m: Machine, line: Line, env: Env, join: bool, t: int)
    requires AtNetwork(m, Question(join, 1)) && ReadTx(line) == Some(t)
    ensures var m' := Step(m, KeyLine(line), env);
      && AtNetwork(m', Question(join, 2)) && m'.info.channel == m.info.channel && m'.info.tx == t
      && m'.wizard == m.wizard + [Tx(t)]
  {
    hide ReadTx;
  }

  lemma PanAnswered(m: Machine, line: Line, env: Env, join: bool, p: int)
    requires AtNetwork(m, Question(join, 2)) && ReadPanId(line) == Some(p)
    ensures var m' := Step(m, KeyLine(line), env);
      AtNetwork(m', 1) && m'.info == NetworkInfo(m.info.channel, m.info.tx, p) &&
      m'.wizard == m.wizard + [Pan(p), Submitted(join, NetworkInfo(m.info.channel, m.info.tx, p))]
  {
    hide ReadPanId;
  }

  // An answer that is not accepted changes nothing: the question is asked again.
  lemma RejectedAnswerAsksAgain(m: Machine, line: Line, env: Env, join: bool, k: nat)
    requires k <= 2 && AtNetwork(m, Question(join, k))
    requires (if k == 0 then ReadChannel(line) else if k == 1 then ReadTx(line) else ReadPanId(line)) == None
    ensures Step(m, KeyLine(line), env) == m
  {
    hide ReadChannel, ReadTx, ReadPanId;
  }

  // No callback and no timer disturbs the wizard.
  lemma WizardUndisturbed(m: Machine, e: Event, env: Env)
    requires !e.KeyLine?
    ensures var m' := Step(m, e, env);
      && m'.current == m.current && m'.networkStep == m.networkStep && m'.quit == m.quit
      && m'.info == m.info && m'.wizard == m.wizard
  {
    hide TargetRun, InitiatorRun, TimerFires;
  }

  // The four lines of a pass.
  datatype PassLines = PassLines(entry: Line, channel: Line, tx: Line, pan: Line)

  function AfterPass(m: Machine, lines: PassLines, env: Env): Machine {
    var m1 := Step(m, KeyLine(lines.entry), env);
    var m2 := Step(m1, KeyLine(lines.channel), env);
    var m3 := Step(m2, KeyLine(lines.tx), env);
    Step(m3, KeyLine(lines.pan), env)
  }

  // Entry 2, a channel, a power and a pan id form exactly that network; entry 4 and the same
  // answers join it. Either way the menu is back afterwards.
  lemma WizardSubmitsAnswers(m: Machine, lines: PassLines, env: Env, join: bool, c: int, t: int, p: int)
    requires AtNetwork(m, 1) && Picks(lines.entry, if join then 4 else 2)
    requires ReadChannel(lines.channel) == Some(c) && ReadTx(lines.tx) == Some(t) && ReadPanId(lines.pan) == Some(p)
    ensures var m' := AfterPass(m, lines, env);
      && AtNetwork(m', 1) && m'.info == NetworkInfo(c, t, p)
      && m'.wizard == m.wizard + [Began(join), Channel(c), Tx(t), Pan(p), Submitted(join, NetworkInfo(c, t, p))]
  {
    hide Step, ReadChannel, ReadTx, ReadPanId, ReadIntOf;
    var m1 := Step(m, KeyLine(lines.entry), env);
    var m2 := Step(m1, KeyLine(lines.channel), env);
    var m3 := Step(m2, KeyLine(lines.tx), env);
    NetworkEntries(m, lines.entry, env);
    ChannelAnswered(m1, lines.channel, env, join, c);
    TxAnswered(m2, lines.tx, env, join, t);
    PanAnswered(m3, lines.pan, env, join, p);
  }

  // Typed out: the network of any channel in 11..26, power in 0..8 and pan id in 0..0xFFFF.
  lemma WizardSubmitsTyped(m: Machine, env: Env, join: bool, c: nat, t: nat, p: nat)
    requires AtNetwork(m, 1) && 11 <= c <= 26 && t <= 8 && p <= 0xFFFF
    ensures var lines := PassLines(Typed(if join then 4 else 2), Typed(c), Typed(t), Typed(p));
      var m' := AfterPass(m, lines, env);
      && AtNetwork(m', 1)
      && m'.wizard == m.wizard + [Began(join), Channel(c), Tx(t), Pan(p), Submitted(join, NetworkInfo(c, t, p))]
  {
    TypedPicks(if join then 4 else 2);
    AnswersAccepted(c);
    AnswersAccepted(t);
    AnswersAccepted(p);
    hide AtNetwork, Picks, ReadChannel, ReadTx, ReadPanId, AfterPass, NumberReader.Typed;
    var lines := PassLines(Typed(if join then 4 else 2), Typed(c), Typed(t), Typed(p));
    WizardSubmitsAnswers(m, lines, env, join, c, t, p);
  }

  lemma TypedPicks(n: nat)
    ensures Picks(Typed(n), n)
  {
    TypedReads(n, -1);
    hide ReadIntOf;
    TypedStart(n);
  }

  lemma TypedStart(n: nat)
    ensures IsDigit(Typed(n)[0], 10)
  {
    hide Radix.Digits;
    assert Radix.AreDigits(Radix.Digits(n, 10), 10);
    assert Typed(n)[0] == DigitChar(Radix.Digits(n, 10)[0]);
  }

  // ---- The other menus ----

  // Entry n <= 8 joins the n-th network reported since the last search, if there is one.
  lemma FindJoinEntries(m: Machine, line: Line, env: Env)
    requires !m.quit && m.current == FindJoin && m.findStep == 1 && Finder(m)
    ensures var m', since, n := Step(m, KeyLine(line), env), FoundSince(m.finds), ReadIntOf(line, -1);
      m' ==
      if Quits(line) then m.(quit := true)
      else if Picks(line, 0) then m.(current := Network, networkStarted := true, networkStep := 1)
      else if Picks(line, 9) then m.(findSize := 0, finds := m.finds + [Reset])
      else if line[0] != '\n' && 1 <= n <= 8 && n <= |since| then m.(finds := m.finds + [Joined(n, since[n - 1])])
      else m
  {
    hide ReadIntOf, JoinsMatch, FoundSince;
    SlotIsReport(m, ReadIntOf(line, -1));
  }

  lemma SlotIsReport(m: Machine, n: int)
    requires Finder(m)
    ensures 0 <= m.findSize <= 8 && |m.found| == 8
    ensures 1 <= n <= 8 ==> (n <= m.findSize <==> n <= |FoundSince(m.finds)|)
    ensures 1 <= n <= m.findSize ==> m.found[n - 1] == FoundSince(m.finds)[n - 1]
  {
    hide JoinsMatch, FoundSince;
    var since := FoundSince(m.finds);
    assert 1 <= n <= m.findSize ==> m.found[..m.findSize][n - 1] == since[..m.findSize][n - 1];
  }

  // The main menu: 0 leads back, q and e quit, and which entries run which test is KeyCommands.
  lemma MainEntries(m: Machine, line: Line, env: Env)
    requires !m.quit && m.current == Main && m.mainStep == 1
    ensures var m' := Step(m, KeyLine(line), env);
      m'.(target := m.target, initiator := m.initiator, passes := m.passes) ==
      if Quits(line) then m.(quit := true)
      else if Picks(line, 0) then m.(current := Network, networkStarted := true, networkStep := 1)
      else m
  {
    hide ReadIntOf, TargetRun, InitiatorRun, Illuminance.AfterTest;
  }

  // What initialising the endpoints comes to: with none the program quits; otherwise the first
  // five are recorded, and the network menu follows if the daemon agrees.
  ghost predicate Initialised(m: Machine, m': Machine, env: Env) {
    && m'.devices == m.devices
    && (m.devices == [] ==> m' == m.(quit := true))
    && (m.devices != [] ==>
          && m'.records == m.records + [Saved(m.devices)]
          && (if env.initialize == SOk then AtNetwork(m', 1) && m'.networkStarted else m'.quit))
  }

  lemma InitialisedHere(m: Machine, env: Env)
    requires !m.quit
    ensures Initialised(m, InitEndpoints(m, env), env)
  {
    hide Saved;
  }

  // With a saved record the program asks whether to resume it; without one it asks for devices.
  lemma BootLeadsTo(env: Env)
    ensures var m, asks := Boot(env), env.local.Some? && env.local.value != [];
      && !m.quit && m.devices == [] && m.records == [] && m.wizard == [] && m.finds == [] && m.passes == []
      && m.saved == (if asks then env.local.value else [])
      && (if asks then m.current == Entrance && m.entranceStep == 1
          else m.current == Endpoint && m.endpointStep == 1)
  {
  }

  // The first menu: 0 resumes the saved record, 1 starts the endpoint dialogue.
  lemma EntranceEntries(m: Machine, line: Line, env: Env)
    requires !m.quit && m.current == Entrance && m.entranceStep == 1
    ensures var m', n := Step(m, KeyLine(line), env), ReadIntOf(line, -1);
      && (n == 0 ==> Initialised(m.(devices := Resumed(m.devices, m.saved)), m', env))
      && (n == 1 ==> m' == m.(current := Endpoint, endpointStep := 1))
      && (n != 0 && n != 1 ==> m' == m)
  {
    hide ReadIntOf, Resumed, Initialised, InitEndpoints;
    InitialisedHere(m.(devices := Resumed(m.devices, m.saved)), env);
  }

  // The endpoint dialogue: 0 ends it once there is a device, 1..6 ask for the id of a device.
  lemma EndpointEntries(m: Machine, line: Line, env: Env)
    requires !m.quit && m.current == Endpoint && m.endpointStep == 1
    ensures var m', n := Step(m, KeyLine(line), env), ReadIntOf(line, -1);
      && (n == 0 && m.devices != [] ==> Initialised(m, m', env))
      && (1 <= n <= 6 ==> m' == m.(selected := n - 1, endpointStep := 2))
      && (n < 0 || n > 6 || (n == 0 && m.devices == []) ==> m' == m)
  {
    hide ReadIntOf, Initialised, InitEndpoints;
    InitialisedHere(m, env);
  }

  // The device types in menu order, and the ids an empty line stands for.
  const TYPE_MENU := [0x0000, 0x0001, 0x0100, 0x0101, 0x0106, 0x0006]
  const DEFAULT_IDS := [1, 2, 19, 20, 25, 34]

  // Two lines of the dialogue, a type and an id: they add exactly that device if the id is in
  // 1..239 and not in use, and ask for another id if not.
  lemma DeviceIsAdded(m: Machine, kind: Line, id: Line, env: Env, n: int, k: int)
    requires !m.quit && m.current == Endpoint && m.endpointStep == 1
    requires ReadIntOf(kind, -1) == n && 1 <= n <= 6
    requires k == if id[0] == '\n' then DEFAULT_IDS[n - 1] else ReadIntOf(id, -1)
    ensures var m1 := Step(m, KeyLine(kind), env);
      var m' := Step(m1, KeyLine(id), env);
      if 1 <= k <= 239 && (forall d :: d in m.devices ==> d.endpointId != k) then
        && m'.endpointStep == 1 && |m'.devices| == |m.devices| + 1 && m'.devices[..|m.devices|] == m.devices
        && var d := m'.devices[|m.devices|];
           d.profile == 0x0104 && d.deviceId == TYPE_MENU[n - 1] && d.endpointId == k && Supported(d)
      else m' == m1
  {
    EndpointEntries(m, kind, env);
    hide Step, ReadIntOf, Supported;
    TypesInOrder(n);
    var m1 := Step(m, KeyLine(kind), env);
    IdAnswered(m1, id, env, n, k);
  }

  lemma TypesInOrder(n: int)
    requires 1 <= n <= 6
    ensures var t := DEVICE_TYPES[n - 1];
      && t.profile == 0x0104 && t.deviceId == TYPE_MENU[n - 1] && t.defaultEndpoint == DEFAULT_IDS[n - 1]
      && CapabilitiesOf(t.profile, t.deviceId).Some?
  {
  }

  lemma IdAnswered(m: Machine, id: Line, env: Env, n: int, k: int)
    requires !m.quit && m.current == Endpoint && m.endpointStep == 2 && 1 <= n <= 6 && m.selected == n - 1
    requires k == if id[0] == '\n' then DEFAULT_IDS[n - 1] else ReadIntOf(id, -1)
    ensures var m' := Step(m, KeyLine(id), env);
      if 1 <= k <= 239 && (forall d :: d in m.devices ==> d.endpointId != k) then
        && m'.endpointStep == 1 && |m'.devices| == |m.devices| + 1 && m'.devices[..|m.devices|] == m.devices
        && var d := m'.devices[|m.devices|];
           d.profile == 0x0104 && d.deviceId == TYPE_MENU[n - 1] && d.endpointId == k && Supported(d)
      else m' == m
  {
    TypesInOrder(n);
    UsedIff(m.devices, k);
    hide ReadIntOf, CapabilitiesOf, Uses;
  }

  lemma UsedIff(devs: seq<TestDevice>, k: int)
    ensures Uses(devs, k) <==> exists d :: d in devs && d.endpointId == k
  {
    if d :| d in devs && d.endpointId == k { var i :| 0 <= i < |devs| && devs[i] == d; }
  }

  // ---- Reports from the daemon ----

  // An attempt of the initiator reported as failed is repeated while its budget lasts; one
  // reported as successful, or failed for the last time, is followed by the next device.
  lemma InitiatorReports(m: Machine, env: Env, success: bool, next: nat)
    requires Good(m) && !m.quit && m.initiator.testing && env.cs.start == SOk
    requires FirstFrom(m.devices, Initiator, m.initiator.index + 1, next)
    ensures var s, s' := m.initiator, Step(m, InitiatorReport(success), env).initiator;
      var d := if success || s.retry == 0 then next else s.index;
      && s'.testing && s'.index == d && s'.log == s.log + [StartCall(d)]
      && s'.retry == if success || s.retry == 0 then 5 else s.retry - 1
  {
    GoodIsValid(m);
    hide Good, InitiatorRun, FirstFrom;
    if success || m.initiator.retry == 0 {
      NextDeviceIsStarted(m.initiator, m.devices, success, next, env.cs);
    } else {
      FailedDeviceIsRetried(m.initiator, m.devices, m.initiator.index, env.cs);
    }
  }

  // A target reported as successful keeps its turn; one reported as failed loses it to the
  // next device, without a stop call.
  lemma TargetReports(m: Machine, env: Env, next: nat)
    requires Good(m) && !m.quit && m.target.testing && env.cs.start == SOk
    requires FirstFrom(m.devices, Target, m.target.index + 1, next)
    ensures Step(m, TargetReport(true), env) == m
    ensures var s' := Step(m, TargetReport(false), env).target;
      s'.index == next && s'.log == m.target.log + [StartCall(next)] && (s'.testing <==> env.cs.timer.id > 0)
  {
    GoodIsValid(m);
    TargetStopsOrStays(m.target, m.devices, TargetSuccess, 0, env.cs);
    NextDeviceIsArmed(m.target, m.devices, next, env.cs);
    hide Good, TargetRun, FirstFrom;
    assert m.target.log + [] == m.target.log;
  }

  lemma GoodIsValid(m: Machine)
    requires Good(m)
    ensures InitiatorInv(m.initiator, m.devices) && TargetOrder(m.target, m.devices)
    ensures m.initiator.testing ==>
      m.initiator.index >= 0 && m.initiator.retry >= 0
    ensures m.target.testing ==> m.target.index >= 0
  {
    GoodCommissioning(m);
    hide InOrder;
  }
}
