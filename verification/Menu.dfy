/** The menu machine of examples/zigbee/artik_zigbee_example.c as a state transition: one
    keyboard line, daemon callback or timer firing at a time. */
module Menu {
  import opened Base
  import opened Devices
  import opened NumberReader
  import opened Commissioning
  import Illuminance

  const FIND_MAX := 8

  // The handler `current_func` points to.
  datatype Menu = Entrance | Endpoint | Network | FindJoin | Main

  datatype NetworkInfo = NetworkInfo(channel: int, tx: int, panId: int)

  type SavedRecord = rec: seq<LocalEndpoint> | |rec| <= MAX_ENDPOINTS

  // History of the form/join wizard, and of network finding.
  datatype WizardNote =
    | Began(join: bool) | Channel(value: int) | Tx(value: int) | Pan(value: int)
    | Submitted(join: bool, info: NetworkInfo)
  datatype FindNote = Reset | Found(info: NetworkInfo) | Joined(choice: int, info: NetworkInfo)

  // The statics of the example, with the history its runs are judged by: the records handed
  // to set_local_endpoint, the wizard's notes, the finder's notes and the passes of the
  // illuminance test, which also determine its three statics.
  datatype Machine = Machine(
    current: Menu,
    entranceStep: int, endpointStep: int, networkStep: int, findStep: int, mainStep: int,
    saved: SavedRecord, selected: nat,
    networkStarted: bool, info: NetworkInfo,
    found: seq<NetworkInfo>, findSize: int,
    devices: seq<TestDevice>, target: TargetState, initiator: InitiatorState,
    quit: bool,
    records: seq<SavedRecord>, wizard: seq<WizardNote>, finds: seq<FindNote>,
    passes: seq<Illuminance.Pass>)

  // What the daemon answers during one event: the saved record (None for an error or no
  // answer), the result of initialize, and the device replies.
  datatype Env = Env(
    local: Option<SavedRecord>, initialize: Error, cs: Replies, sensors: seq<Illuminance.Replies>)

  datatype Event =
    | KeyLine(line: Line)
    | TargetReport(success: bool)
    | InitiatorReport(success: bool)
    | TimerEvent(id: int)
    | NetworkFound(network: NetworkInfo)

  const ZERO_INFO := NetworkInfo(0, 0, 0)

  const BLANK: Machine := Machine(
    Entrance, 0, 0, 0, 0, 0, [], 0, false, ZERO_INFO,
    [ZERO_INFO, ZERO_INFO, ZERO_INFO, ZERO_INFO, ZERO_INFO, ZERO_INFO, ZERO_INFO, ZERO_INFO], 0,
    [], IDLE_TARGET, IDLE_INITIATOR, false, [], [], [], [])

  // ---- Entering a menu: _func_entry, and step 0 of each handler ----

  function EnterEndpoint(m: Machine): Machine {
    m.(current := Endpoint, endpointStep := 1)
  }

  function EnterEntrance(m: Machine, env: Env): Machine {
    var m1 := m.(current := Entrance, entranceStep := 0, saved := env.local.GetOr([]));
    if m1.saved != [] then m1.(entranceStep := 1) else EnterEndpoint(m1)
  }

  function EnterNetwork(m: Machine): Machine {
    m.(current := Network, networkStarted := true, networkStep := 1)
  }

  function FindNetwork(m: Machine): Machine {
    m.(findSize := 0, finds := m.finds + [Reset])
  }

  function EnterFindJoin(m: Machine): Machine {
    FindNetwork(m.(current := FindJoin, findStep := 1))
  }

  function EnterMain(m: Machine): Machine {
    m.(current := Main, mainStep := 1)
  }

  // _func_endpoint_init and what both its callers do with the result: set_local_endpoint's
  // own result is ignored, initialize's decides.
  function InitEndpoints(m: Machine, env: Env): Machine {
    if m.devices == [] then m.(quit := true)
    else
      var m1 := m.(records := m.records + [Saved(m.devices)]);
      if env.initialize == SOk then EnterNetwork(m1) else m1.(quit := true)
  }

  // ---- One keyboard line ----

  function OnEntrance(m: Machine, line: Line, env: Env): Machine {
    if m.entranceStep == 0 then EnterEntrance(m, env)
    else
      var n := ReadIntOf(line, -1);
      if n == 0 then InitEndpoints(m.(devices := Resumed(m.devices, m.saved)), env)
      else if n == 1 then EnterEndpoint(m)
      else m
  }

  function OnEndpoint(m: Machine, line: Line, env: Env): Machine {
    match m.endpointStep
    case 0 => EnterEndpoint(m)
    case 1 => OnDeviceType(m, ReadIntOf(line, -1), env)
    case 2 => OnEndpointId(m, line)
    case _ => m
  }

  function OnDeviceType(m: Machine, n: int, env: Env): Machine {
    if n == 0 then (if m.devices == [] then m else InitEndpoints(m, env))
    else if 1 <= n <= |DEVICE_TYPES| then m.(selected := n - 1, endpointStep := 2)
    else m
  }

  function OnEndpointId(m: Machine, line: Line): Machine {
    if m.selected >= |DEVICE_TYPES| then m
    else
      var t := DEVICE_TYPES[m.selected];
      var n := if ReadLf(line) then t.defaultEndpoint else ReadIntOf(line, -1);
      if ENDPOINT_ID_MIN <= n <= ENDPOINT_ID_MAX && !Uses(m.devices, n) then
        m.(devices := EndpointAdded(m.devices, t.profile, t.deviceId, n), endpointStep := 1)
      else m
  }

  function OnNetwork(m: Machine, line: Line): Machine {
    match m.networkStep
    case 0 => EnterNetwork(m)
    case 1 =>
      if ReadQ(line) || ReadE(line) then m.(quit := true)
      else if ReadLf(line) then m
      else OnNetworkChoice(m, ReadIntOf(line, -1))
    case 2 => OnChannel(m, ReadChannel(line))
    case 3 => OnTx(m, ReadTx(line))
    case 4 => OnPan(m, false, ReadPanId(line))
    case 5 => OnChannel(m, ReadChannel(line))
    case 6 => OnTx(m, ReadTx(line))
    case 7 => OnPan(m, true, ReadPanId(line))
    case _ => m
  }

  // The entries that change the state; the others only call the daemon or print.
  function OnNetworkChoice(m: Machine, n: int): Machine {
    if n == 2 then m.(networkStep := 2, wizard := m.wizard + [Began(false)])
    else if n == 4 then m.(networkStep := 5, wizard := m.wizard + [Began(true)])
    else if n == 8 then EnterMain(m)
    else if n == 10 then EnterFindJoin(m)
    else m
  }

  function OnChannel(m: Machine, answer: Option<int>): Machine {
    if answer.None? then m
    else m.(info := m.info.(channel := answer.value), networkStep := m.networkStep + 1,
            wizard := m.wizard + [Channel(answer.value)])
  }

  function OnTx(m: Machine, answer: Option<int>): Machine {
    if answer.None? then m
    else m.(info := m.info.(tx := answer.value), networkStep := m.networkStep + 1,
            wizard := m.wizard + [Tx(answer.value)])
  }

  function OnPan(m: Machine, join: bool, answer: Option<int>): Machine {
    if answer.None? then m
    else
      var info := m.info.(panId := answer.value);
      m.(info := info, networkStep := 1,
         wizard := m.wizard + [Pan(answer.value), Submitted(join, info)])
  }

  function OnFindJoin(m: Machine, line: Line): Machine {
    if m.findStep == 0 then FindNetwork(m.(findStep := 1))
    else if ReadQ(line) || ReadE(line) then m.(quit := true)
    else if ReadLf(line) then m
    else
      var n := ReadIntOf(line, -1);
      if n == 0 then EnterNetwork(m)
      else if n == 9 then FindNetwork(m)
      else if 1 <= n <= 8 && n <= m.findSize <= |m.found| then
        m.(finds := m.finds + [Joined(n, m.found[n - 1])])
      else m
  }

  function OnMain(m: Machine, line: Line, env: Env): Machine {
    if m.mainStep == 0 then EnterMain(m)
    else if ReadQ(line) || ReadE(line) then m.(quit := true)
    else if ReadLf(line) then m
    else
      var n := ReadIntOf(line, -1);
      if n == 0 then EnterNetwork(m)
      else if n == 2 || n == 6 then m.(passes := Illuminance.AfterTest(m.passes, m.devices, env.sensors))
      else if n == 8 then m.(target := TargetRun(m.target, m.devices, TargetBegin, env.cs).state)
      else if n == 9 then m.(target := TargetRun(m.target, m.devices, TargetHalt, env.cs).state)
      else if n == 10 then m.(initiator := InitiatorRun(m.initiator, m.devices, InitiatorBegin, env.cs).state)
      else if n == 11 then m.(initiator := InitiatorRun(m.initiator, m.devices, InitiatorHalt, env.cs).state)
      else m
  }

  function OnKey(m: Machine, line: Line, env: Env): Machine {
    match m.current
    case Entrance => OnEntrance(m, line, env)
    case Endpoint => OnEndpoint(m, line, env)
    case Network => OnNetwork(m, line)
    case FindJoin => OnFindJoin(m, line)
    case Main => OnMain(m, line, env)
  }

  // ---- Callbacks ----

  // A found network goes to the next free slot; the ninth and later ones are dropped.
  function OnFound(m: Machine, network: NetworkInfo): Machine {
    var m1 := m.(finds := m.finds + [Found(network)]);
    if 0 <= m.findSize < FIND_MAX && m.findSize < |m.found|
    then m1.(found := m.found[m.findSize := network], findSize := m.findSize + 1)
    else m1
  }

  // Once the loop has been told to quit, no event is handled any more.
  function Step(m: Machine, e: Event, env: Env): Machine {
    if m.quit then m
    else
      match e
      case KeyLine(line) => OnKey(m, line, env)
      case TargetReport(ok) =>
        m.(target := TargetRun(m.target, m.devices, if ok then TargetSuccess else TargetFailure, env.cs).state)
      case InitiatorReport(ok) =>
        m.(initiator := InitiatorRun(m.initiator, m.devices, if ok then InitiatorSuccess else InitiatorFailure,
                                     env.cs).state)
      case TimerEvent(id) => m.(target := TimerFires(m.target, m.devices, id, env.cs))
      case NetworkFound(network) => OnFound(m, network)
  }

  // main: _func_entry(_func_entrance) before the loop runs.
  function Boot(env: Env): Machine {
    EnterEntrance(BLANK, env)
  }

  // What the event loop guarantees: only pending timers fire, and new ids are not in use.
  ghost predicate Admissible(m: Machine, e: Event, env: Env) {
    match e
    case TimerEvent(id) =>
      id in m.target.pending && FreshTimer(m.target.(pending := m.target.pending - {id}), env.cs.timer)
    case _ => FreshTimer(m.target, env.cs.timer)
  }

  function Run(m: Machine, events: seq<(Event, Env)>): Machine
    decreases |events|
  {
    if events == [] then m
    else
      var (e, env) := events[|events| - 1];
      Step(Run(m, events[..|events| - 1]), e, env)
  }

  ghost predicate AdmissibleRun(m: Machine, events: seq<(Event, Env)>)
    decreases |events|
  {
    events == [] ||
    var (e, env) := events[|events| - 1];
    AdmissibleRun(m, events[..|events| - 1]) && Admissible(Run(m, events[..|events| - 1]), e, env)
  }
}
