/** The static variables and handlers of examples/zigbee/artik_zigbee_example.c, working on the
    heap registry. Each handler is proved against the transition of the same name in Menu and
    Commissioning; what runs of those transitions keep is proved in MenuProofs. */
module ZigbeeExample {
  import opened Base
  import opened Devices
  import opened Registry
  import opened NumberReader
  import opened Commissioning
  import opened Menu
  import opened MenuProofs

  // The search all four loops over the registry make.
  method FindSupporting(registry: TestDevices, role: Role, from: nat) returns (i: nat)
    requires registry.Valid() && from <= |registry.devices|
    ensures i == NextSupporting(registry.devices, role, from)
  {
    hide TestDevices.Valid, Supports;
    var count := registry.Count();
    i := from;
    while i < count
      invariant from <= i <= count == |registry.devices|
      invariant NextSupporting(registry.devices, role, from) == NextSupporting(registry.devices, role, i)
    {
      var testDevice := registry.Get(i);
      if Supports(testDevice.value, role) { break; }
      i := i + 1;
    }
  }

  // Ending a run and arming a timer set the index themselves.
  lemma IndexDoesNotMatter(s: TargetState, k: int, i: nat, t: TimerReply)
    ensures Ended(s.(index := k)) == Ended(s) && Arm(s.(index := k), i, t) == Arm(s, i, t)
  {
  }

  /** The target machine: cs_target_testing, cs_target_testing_index and cs_target_timeout_id. */
  class TargetMachine {
    const registry: TestDevices

    var testing: bool
    var testingIndex: int
    var timeoutId: int

    // History, kept up to date beside the calls it records.
    ghost var pending: map<int, nat>
    ghost var armings: seq<int>
    ghost var live: bool
    ghost var tried: seq<nat>
    ghost var log: seq<Call>

    ghost function State(): TargetState
      reads this
    {
      TargetState(testing, testingIndex, timeoutId, pending, armings, live, tried, log)
    }

    constructor (registry: TestDevices)
      ensures State() == IDLE_TARGET && this.registry == registry
    {
      this.registry := registry;
      testing, testingIndex, timeoutId := false, -1, -1;
      pending, armings, live, tried, log := map[], [], false, [], [];
    }

    // add_timer, with the reply of the loop: the id comes back whether or not it was registered.
    method AddTimer(t: TimerReply, ghost index: nat) returns (id: int)
      modifies this`pending, this`armings
      ensures pending == if t.registered then old(pending)[t.id := |old(armings)|] else old(pending)
      ensures armings == old(armings) + [index] && id == t.id
    {
      if t.registered { pending := pending[t.id := |armings|]; }
      armings := armings + [index];
      return t.id;
    }

    method RemoveTimer(id: int)
      modifies this`pending
      ensures pending == old(pending) - {id}
    {
      pending := pending - {id};
    }

    method Start(index: nat, r: Replies) returns (ret: Error)
      requires registry.Valid() && index <= |registry.devices|
      modifies this
      ensures var out := TargetStart(old(State()), registry.devices, index, r);
        State() == out.state && ret == out.ret
    {
      hide NextSupporting, NoneSupports, Supports, TestDevices.Valid, Arm, Ended;
      ret := SOk;
      var first := FindSupporting(registry, Target, 0);
      var count := registry.Count();
      NoneSupportsIff(registry.devices, Target);
      if first == count { return ENotSupported; }
      ghost var s := State();
      testingIndex := -1;
      var i := FindSupporting(registry, Target, index);
      if i < count {
        ret := StartDevice(i, r.start);
        s := s.(tried := s.tried + [i], log := s.log + [StartCall(i)]);
      }
      IndexDoesNotMatter(s, testingIndex, i, r.timer);
      assert State() == s.(index := testingIndex);
      if testingIndex == -1 {
        End();
        ret := r.discover;
      } else {
        ArmTimer(i, r.timer);
      }
    }

    method StartDevice(i: nat, start: Error) returns (ret: Error)
      requires testingIndex == -1
      modifies this`testingIndex, this`tried, this`log
      ensures ret == start && testingIndex == (if start == SOk then i else -1)
      ensures tried == old(tried) + [i] && log == old(log) + [StartCall(i)]
    {
      ret := start;
      tried, log := tried + [i], log + [StartCall(i)];
      if ret == SOk { testingIndex := i; }
    }

    method End()
      requires testingIndex == -1
      modifies this
      ensures State() == Ended(old(State()))
    {
      testing := false;
      RemoveTimer(timeoutId);
      log := log + [DiscoverCall];
    }

    method ArmTimer(ghost i: nat, t: TimerReply)
      requires testingIndex == i
      modifies this
      ensures State() == Arm(old(State()), i, t)
    {
      var id := AddTimer(t, i);
      if id > 0 {
        timeoutId := id;
        testing := true;
        live := t.registered;
      } else {
        testing := false;
      }
    }

    method Run(cmd: TargetCommand, r: Replies) returns (ret: Error)
      requires registry.Valid()
      modifies this
      ensures var out := TargetRun(old(State()), registry.devices, cmd, r);
        State() == out.state && ret == out.ret
    {
      hide TestDevices.Valid, TargetStart, NextSupporting, NoneSupports;
      ret := SOk;
      if !testing {
        if cmd == TargetBegin {
          tried := [];
          ret := Start(0, r);
        }
        return;
      }
      if testingIndex < 0 {
        testing := false;
        return EInvalidValue;
      }
      var testDevice := registry.Get(testingIndex);
      if testDevice.None? {
        testing := false;
        return EInvalidValue;
      }
      match cmd
      case TargetBegin =>
        tried := [];
        ret := Start(0, r);
      case TargetHalt =>
        ret := r.stop;
        log := log + [StopCall(testingIndex)];
        testing := false;
      case TargetTimeout =>
        log := log + [StopCall(testingIndex)];
        ret := Start(testingIndex + 1, r);
      case TargetSuccess =>
      case TargetFailure =>
        ret := Start(testingIndex + 1, r);
    }

    // _on_timer_callback: the loop has forgotten the timer, and only a matching id counts.
    method OnTimer(id: int, r: Replies)
      requires registry.Valid() && id in pending
      modifies this
      ensures State() == TimerFires(old(State()), registry.devices, id, r)
    {
      pending := pending - {id};
      if timeoutId == id {
        var _ := Run(TargetTimeout, r);
      }
    }
  }

  /** The initiator machine: cs_initiator_testing, cs_initiator_testing_index and cs_initiator_retry. */
  class InitiatorMachine {
    const registry: TestDevices

    var testing: bool
    var testingIndex: int
    var retry: int

    ghost var tried: seq<nat>
    ghost var log: seq<Call>

    ghost function State(): InitiatorState
      reads this
    {
      InitiatorState(testing, testingIndex, retry, tried, log)
    }

    constructor (registry: TestDevices)
      ensures State() == IDLE_INITIATOR && this.registry == registry
    {
      this.registry := registry;
      testing, testingIndex, retry, tried, log := false, -1, 0, [], [];
    }

    method Start(index: nat, retryCount: int, r: Replies) returns (result: Error)
      requires registry.Valid() && index <= |registry.devices|
      modifies this
      ensures var out := InitiatorStart(old(State()), registry.devices, index, retryCount, r);
        State() == out.state && result == out.ret
    {
      hide NextSupporting, NoneSupports, Supports, TestDevices.Valid;
      result := SOk;
      var first := FindSupporting(registry, Initiator, 0);
      var count := registry.Count();
      NoneSupportsIff(registry.devices, Initiator);
      if first == count { return ENotSupported; }
      testingIndex := -1;
      var i := FindSupporting(registry, Initiator, index);
      if i < count {
        result := r.start;
        tried, log := tried + [i], log + [StartCall(i)];
        if result == SOk { testingIndex := i; }
      }
      if testingIndex == -1 {
        testing := false;
        log := log + [DiscoverCall];
        result := r.discover;
      } else {
        testing := true;
        retry := retryCount;
      }
    }

    method Run(cmd: InitiatorCommand, r: Replies) returns (result: Error)
      requires registry.Valid()
      modifies this
      ensures var out := InitiatorRun(old(State()), registry.devices, cmd, r);
        State() == out.state && result == out.ret
    {
      hide TestDevices.Valid, InitiatorStart;
      result := SOk;
      if !testing {
        if cmd == InitiatorBegin {
          tried := [];
          result := Start(0, RETRY_COUNT, r);
        }
        return;
      }
      if testingIndex < 0 {
        testing := false;
        return EInvalidValue;
      }
      var testDevice := registry.Get(testingIndex);
      if testDevice.None? {
        testing := false;
        return EInvalidValue;
      }
      match cmd
      case InitiatorBegin =>
        tried := [];
        result := Start(0, RETRY_COUNT, r);
      case InitiatorHalt =>
        result := r.stop;
        log := log + [StopCall(testingIndex)];
        testing := false;
      case InitiatorSuccess =>
        result := Start(testingIndex + 1, RETRY_COUNT, r);
      case InitiatorFailure =>
        var left := retry;
        retry := retry - 1;
        if left > 0 {
          result := Start(testingIndex, retry, r);
        } else {
          result := Start(testingIndex + 1, RETRY_COUNT, r);
        }
    }
  }

  /** The menus and everything else. */
  class Example {
    const registry: TestDevices
    const target: TargetMachine
    const initiator: InitiatorMachine
    const light: Illuminance.IlluminanceTest
    const nwkFoundList: array<NetworkInfo>

    var currentFunc: Menu
    var entranceStep: int
    var endpointStep: int
    var networkStep: int
    var findStep: int
    var mainStep: int
    var endpointInfo: SavedRecord
    var selectDeviceType: nat
    var networkStarted: bool
    var setNetworkInfo: NetworkInfo
    var nwkFindSize: int
    var quit: bool

    // History, kept up to date beside the calls it records.
    ghost var records: seq<SavedRecord>
    ghost var wizard: seq<WizardNote>
    ghost var finds: seq<FindNote>

    ghost predicate Valid()
      reads this, registry, registry.list, registry.list.nodes, nwkFoundList, light
    {
      && registry.Valid() && AllWired(registry.devices) && light.Valid()
      && target.registry == registry && initiator.registry == registry && light.registry == registry
      && nwkFoundList.Length == FIND_MAX && 0 <= nwkFindSize <= FIND_MAX
      && selectDeviceType < |DEVICE_TYPES|
    }

    ghost function State(): Machine
      reads this, registry, nwkFoundList, target, initiator, light
    {
      Machine(currentFunc, entranceStep, endpointStep, networkStep, findStep, mainStep,
              endpointInfo, selectDeviceType, networkStarted, setNetworkInfo,
              nwkFoundList[..], nwkFindSize,
              registry.devices, target.State(), initiator.State(), quit, records, wizard, finds,
              light.passes)
    }

    // The fields hold exactly the state m.
    ghost predicate Is(m: Machine)
      reads this, registry, nwkFoundList, target, initiator, light
    {
      && currentFunc == m.current
      && entranceStep == m.entranceStep && endpointStep == m.endpointStep && networkStep == m.networkStep
      && findStep == m.findStep && mainStep == m.mainStep
      && endpointInfo == m.saved && selectDeviceType == m.selected
      && networkStarted == m.networkStarted && setNetworkInfo == m.info
      && nwkFoundList[..] == m.found && nwkFindSize == m.findSize
      && registry.devices == m.devices
      && target.State() == m.target && initiator.State() == m.initiator
      && quit == m.quit && records == m.records && wizard == m.wizard && finds == m.finds
      && light.passes == m.passes
    }

    lemma IsState(m: Machine)
      requires Is(m)
      ensures State() == m
    {
    }

    // The program before main runs: all statics at their initial values.
    constructor ()
      ensures Valid() && State() == BLANK
      ensures fresh(registry) && fresh(registry.list) && registry.list.nodes == []
      ensures fresh(nwkFoundList) && fresh(target) && fresh(initiator) && fresh(light)
    {
      var devices := new TestDevices();
      registry := devices;
      target := new TargetMachine(devices);
      initiator := new InitiatorMachine(devices);
      light := new Illuminance.IlluminanceTest(devices);
      nwkFoundList := new NetworkInfo[FIND_MAX](_ => ZERO_INFO);
      currentFunc := Entrance;
      entranceStep, endpointStep, networkStep, findStep, mainStep := 0, 0, 0, 0, 0;
      endpointInfo, selectDeviceType := [], 0;
      networkStarted, setNetworkInfo, nwkFindSize, quit := false, ZERO_INFO, 0, false;
      records, wizard, finds := [], [], [];
      new;
      assert nwkFoundList[..] == BLANK.found;
    }

    // ---- Entering a menu ----

    method FuncEntryEndpoint()
      modifies this`currentFunc, this`endpointStep
      ensures Is(EnterEndpoint(old(State())))
    {
      currentFunc := Endpoint;
      endpointStep := 1;
    }

    method FuncEntryEntrance(env: Env)
      modifies this`currentFunc, this`endpointStep, this`entranceStep, this`endpointInfo
      ensures Is(EnterEntrance(old(State()), env))
    {
      currentFunc := Entrance;
      entranceStep := 0;
      endpointInfo := [];
      if env.local.Some? { endpointInfo := env.local.value; }
      if env.local.Some? && |endpointInfo| > 0 {
        entranceStep := 1;
      } else {
        FuncEntryEndpoint();
      }
    }

    method FuncEntryNetwork()
      modifies this`currentFunc, this`networkStarted, this`networkStep
      ensures Is(EnterNetwork(old(State())))
    {
      currentFunc := Network;
      if !networkStarted { networkStarted := true; }
      networkStep := 1;
    }

    method FindNetworks()
      modifies this`nwkFindSize, this`finds
      ensures Is(FindNetwork(old(State()))) && nwkFindSize == 0
    {
      nwkFindSize := 0;
      finds := finds + [Reset];
    }

    method FuncEntryFindJoin()
      modifies this`currentFunc, this`findStep, this`nwkFindSize, this`finds
      ensures Is(EnterFindJoin(old(State()))) && nwkFindSize == 0
    {
      currentFunc := FindJoin;
      findStep := 0;
      FindNetworks();
      findStep := 1;
    }

    method FuncEntryMain()
      modifies this`currentFunc, this`mainStep
      ensures Is(EnterMain(old(State())))
    {
      currentFunc := Main;
      mainStep := 1;
    }

    // _func_endpoint_init: the handles of the first five devices, then their data one by one.
    method EndpointInit(env: Env) returns (ret: Error)
      requires Valid()
      modifies this`records
      ensures registry.devices == [] ==> ret == EZigbeeNoDevice && records == old(records)
      ensures registry.devices != [] ==>
        ret == env.initialize && records == old(records) + [Saved(registry.devices)]
    {
      var handles := registry.HandleList(MAX_ENDPOINTS);
      if |handles| <= 0 { return EZigbeeNoDevice; }
      var info: seq<LocalEndpoint> := [];
      var i := 0;
      while i < |handles|
        invariant i <= |handles| == |Saved(registry.devices)|
        invariant records == old(records)
        invariant info == Saved(registry.devices)[..i]
      {
        var device := registry.Get(i);
        if device.Some? { info := info + [Record(device.value)]; }
        i := i + 1;
      }
      assert info == Saved(registry.devices);
      records := records + [info];
      return env.initialize;
    }

    // What both its callers do with the result.
    method InitOrQuit(env: Env)
      requires Valid()
      modifies this`records, this`quit, this`currentFunc, this`networkStarted, this`networkStep
      ensures Is(InitEndpoints(old(State()), env))
    {
      hide Saved;
      var ret := EndpointInit(env);
      if ret == SOk { FuncEntryNetwork(); } else { quit := true; }
    }

    // ---- Keyboard handlers ----

    method FuncEntrance(line: Line, env: Env)
      requires Valid()
      modifies this, registry, registry.list, registry.Cells()
      ensures Valid()
      ensures fresh(registry.Cells() - old(registry.Cells()))
      ensures Is(OnEntrance(old(State()), line, env))
    {
      hide ReadIntOf, Resumed, InitEndpoints;
      if entranceStep == 0 {
        FuncEntryEntrance(env);
        return;
      }
      var n := ReadInt(line, |line|, -1);
      assert line[..|line|] == line;
      if n == 0 {
        ResumeAndInit(env);
      } else if n == 1 {
        FuncEntryEndpoint();
      }
    }

    method ResumeAndInit(env: Env)
      requires Valid()
      modifies this`records, this`quit, this`currentFunc, this`networkStarted, this`networkStep
      modifies registry, registry.list, registry.Cells()
      ensures Valid()
      ensures fresh(registry.Cells() - old(registry.Cells()))
      ensures Is(InitEndpoints(old(State()).(devices := Resumed(old(registry.devices), endpointInfo)), env))
    {
      hide TestDevices.Valid, Illuminance.IlluminanceTest.Valid, AllWired, TargetMachine.State, InitiatorMachine.State;
      hide Resumed, InitEndpoints;
      Resume();
      InitOrQuit(env);
    }

    method Resume()
      requires Valid()
      modifies registry, registry.list, registry.Cells()
      ensures Valid() && registry.devices == Resumed(old(registry.devices), endpointInfo)
      ensures fresh(registry.Cells() - old(registry.Cells()))
    {
      var i := 0;
      while i < |endpointInfo|
        invariant 0 <= i <= |endpointInfo|
        invariant Valid() && fresh(registry.Cells() - old(registry.Cells()))
        invariant registry.devices == Resumed(old(registry.devices), endpointInfo[..i])
      {
        var ep := endpointInfo[i];
        AddKeepsWired(registry.devices, ep.profile, ep.deviceId, ep.endpointId);
        var _ := registry.EndpointAdd(ep.profile, ep.deviceId, ep.endpointId);
        assert endpointInfo[..i + 1][..i] == endpointInfo[..i];
        i := i + 1;
      }
      assert endpointInfo[..i] == endpointInfo;
    }

    method FuncEndpoint(line: Line, env: Env)
      requires Valid()
      modifies this, registry, registry.list, registry.Cells()
      ensures Valid()
      ensures fresh(registry.Cells() - old(registry.Cells()))
      ensures Is(OnEndpoint(old(State()), line, env))
    {
      hide ReadIntOf, OnDeviceType, OnEndpointId;
      if endpointStep == 0 {
        FuncEntryEndpoint();
      } else if endpointStep == 1 {
        AddDevice(line, env);
      } else if endpointStep == 2 {
        SetEndpointId(line);
      }
    }

    method AddDevice(line: Line, env: Env)
      requires Valid()
      modifies this
      ensures Valid()
      ensures Is(OnDeviceType(old(State()), ReadIntOf(line, -1), env))
    {
      hide TestDevices.Valid, Illuminance.IlluminanceTest.Valid, AllWired, TargetMachine.State, InitiatorMachine.State;
      hide ReadIntOf, InitEndpoints;
      var n := ReadInt(line, |line|, -1);
      assert line[..|line|] == line;
      if n == 0 {
        var count := registry.Count();
        if count != 0 { InitOrQuit(env); }
      } else if 1 <= n <= |DEVICE_TYPES| {
        selectDeviceType := n - 1;
        endpointStep := 2;
      }
    }

    // An empty line takes the default id of the type.
    method TypedId(line: Line, default: int) returns (n: int)
      ensures n == if ReadLf(line) then default else ReadIntOf(line, -1)
    {
      hide ReadIntOf;
      n := default;
      if !ReadLf(line) { n := ReadInt(line, |line|, -1); }
      assert line[..|line|] == line;
    }

    method SetEndpointId(line: Line)
      requires Valid()
      modifies this`endpointStep, registry, registry.list, registry.Cells()
      ensures Valid()
      ensures fresh(registry.Cells() - old(registry.Cells()))
      ensures Is(OnEndpointId(old(State()), line))
    {
      hide TestDevices.Valid, Illuminance.IlluminanceTest.Valid, AllWired, TargetMachine.State, InitiatorMachine.State;
      hide EndpointAdded, ReadIntOf, Uses, CapabilitiesOf;
      var t := DEVICE_TYPES[selectDeviceType];
      var n := TypedId(line, t.defaultEndpoint);
      if ENDPOINT_ID_MIN <= n <= ENDPOINT_ID_MAX {
        var added := AddIfUnused(t, n);
        if added { endpointStep := 1; }
      }
    }

    method AddIfUnused(t: DeviceType, n: int) returns (unused: bool)
      requires registry.Valid() && AllWired(registry.devices)
      modifies registry, registry.list, registry.Cells()
      ensures registry.Valid() && AllWired(registry.devices)
      ensures fresh(registry.Cells() - old(registry.Cells()))
      ensures unused <==> !Uses(old(registry.devices), n)
      ensures registry.devices ==
        if unused then EndpointAdded(old(registry.devices), t.profile, t.deviceId, n) else old(registry.devices)
    {
      unused := registry.CheckEndpointId(n);
      if unused {
        AddKeepsWired(registry.devices, t.profile, t.deviceId, n);
        var _ := registry.EndpointAdd(t.profile, t.deviceId, n);
      }
    }

    method FuncNetwork(line: Line)
      requires Valid()
      modifies this
      ensures Valid()
      ensures Is(OnNetwork(old(State()), line))
    {
      hide TestDevices.Valid, Illuminance.IlluminanceTest.Valid, AllWired, TargetMachine.State, InitiatorMachine.State;
      match networkStep
      case 0 => FuncEntryNetwork();
      case 1 => NetworkCommand(line);
      case 2 => AnswerChannel(line);
      case 3 => AnswerTx(line);
      case 4 => AnswerPan(line, false);
      case 5 => AnswerChannel(line);
      case 6 => AnswerTx(line);
      case 7 => AnswerPan(line, true);
      case _ =>
    }

    method NetworkCommand(line: Line)
      requires Valid() && networkStep == 1
      modifies this
      ensures Valid()
      ensures Is(OnNetwork(old(State()), line))
    {
      hide TestDevices.Valid, Illuminance.IlluminanceTest.Valid, AllWired, TargetMachine.State, InitiatorMachine.State;
      hide ReadIntOf, ReadChannel, ReadTx, ReadPanId, OnChannel, OnTx, OnPan;
      if ReadQ(line) || ReadE(line) {
        quit := true;
      } else if !ReadLf(line) {
        var n := ReadInt(line, |line|, -1);
        assert line[..|line|] == line;
        if n == 2 {
          networkStep := 2;
          wizard := wizard + [Began(false)];
        } else if n == 4 {
          networkStep := 5;
          wizard := wizard + [Began(true)];
        } else if n == 8 {
          FuncEntryMain();
        } else if n == 10 {
          FuncEntryFindJoin();
        }
      }
    }

    method AnswerChannel(line: Line)
      modifies this`setNetworkInfo, this`networkStep, this`wizard
      ensures Is(OnChannel(old(State()), ReadChannel(line)))
    {
      hide ReadIntOf;
      var n := DEFAULT_CHANNEL;
      if !ReadLf(line) { n := ReadInt(line, |line|, -1); }
      assert line[..|line|] == line;
      if CHANNEL_MIN <= n <= CHANNEL_MAX {
        setNetworkInfo := setNetworkInfo.(channel := n);
        networkStep := networkStep + 1;
        wizard := wizard + [Channel(n)];
      }
    }

    method AnswerTx(line: Line)
      modifies this`setNetworkInfo, this`networkStep, this`wizard
      ensures Is(OnTx(old(State()), ReadTx(line)))
    {
      hide ReadIntOf;
      var n := DEFAULT_TX;
      if !ReadLf(line) { n := ReadInt(line, |line|, INVALID_TX); }
      assert line[..|line|] == line;
      if TX_MIN <= n <= TX_MAX {
        setNetworkInfo := setNetworkInfo.(tx := n);
        networkStep := networkStep + 1;
        wizard := wizard + [Tx(n)];
      }
    }

    method AnswerPan(line: Line, join: bool)
      modifies this`setNetworkInfo, this`networkStep, this`wizard
      ensures Is(OnPan(old(State()), join, ReadPanId(line)))
    {
      hide ReadIntOf;
      var n := DEFAULT_PAN;
      if !ReadLf(line) { n := ReadInt(line, |line|, -1); }
      assert line[..|line|] == line;
      if 0 <= n <= PAN_MAX {
        setNetworkInfo := setNetworkInfo.(panId := n);
        wizard := wizard + [Pan(n), Submitted(join, setNetworkInfo)];
        networkStep := 1;
      }
    }

    method FuncNetworkFindJoin(line: Line)
      requires Valid()
      modifies this
      ensures Valid()
      ensures Is(OnFindJoin(old(State()), line))
    {
      hide TestDevices.Valid, Illuminance.IlluminanceTest.Valid, AllWired, TargetMachine.State, InitiatorMachine.State;
      hide ReadIntOf;
      if findStep == 0 {
        FindNetworks();
        findStep := 1;
      } else if ReadQ(line) || ReadE(line) {
        quit := true;
      } else if !ReadLf(line) {
        var n := ReadInt(line, |line|, -1);
        assert line[..|line|] == line;
        if n < 0 || n > 9 {
        } else if n == 0 {
          FuncEntryNetwork();
        } else if n == 9 {
          FindNetworks();
        } else if nwkFindSize > 0 && n <= nwkFindSize {
          finds := finds + [Joined(n, nwkFoundList[n - 1])];
        }
      }
    }

    method FuncMain(line: Line, env: Env)
      requires Valid()
      modifies this, target, initiator, light
      ensures Valid()
      ensures Is(OnMain(old(State()), line, env))
    {
      if mainStep == 0 {
        FuncEntryMain();
      } else if ReadQ(line) || ReadE(line) {
        quit := true;
      } else if !ReadLf(line) {
        var n := ReadInt(line, |line|, -1);
        assert line[..|line|] == line;
        if n == 0 {
          FuncEntryNetwork();
        } else {
          MainTest(n, env);
        }
      }
    }

    // The entries of the main menu that reach a machine or the illuminance test; entry 2 runs
    // all tests.
    method MainTest(n: int, env: Env)
      requires Valid() && n != 0
      modifies target, initiator, light
      ensures Valid()
      ensures Is(old(State()).(
        target :=
          if n == 8 then TargetRun(old(target.State()), registry.devices, TargetBegin, env.cs).state
          else if n == 9 then TargetRun(old(target.State()), registry.devices, TargetHalt, env.cs).state
          else old(target.State()),
        initiator :=
          if n == 10 then InitiatorRun(old(initiator.State()), registry.devices, InitiatorBegin, env.cs).state
          else if n == 11 then InitiatorRun(old(initiator.State()), registry.devices, InitiatorHalt, env.cs).state
          else old(initiator.State()),
        passes :=
          if n == 2 || n == 6 then Illuminance.AfterTest(old(light.passes), registry.devices, env.sensors)
          else old(light.passes)))
    {
      hide TargetRun, InitiatorRun, Illuminance.AfterTest, Illuminance.AllInRange, AllWired;
      if n == 2 || n == 6 {
        var _ := light.Test(env.sensors);
      } else if n == 8 {
        var _ := target.Run(TargetBegin, env.cs);
      } else if n == 9 {
        var _ := target.Run(TargetHalt, env.cs);
      } else if n == 10 {
        var _ := initiator.Run(InitiatorBegin, env.cs);
      } else if n == 11 {
        var _ := initiator.Run(InitiatorHalt, env.cs);
      }
    }

    // ---- The callbacks of the event loop ----

    method OnKeyboardReceived(line: Line, env: Env)
      requires Valid() && !quit
      modifies this, target, initiator, light, registry, registry.list, registry.Cells()
      ensures Valid()
      ensures fresh(registry.Cells() - old(registry.Cells()))
      ensures Is(Step(old(State()), KeyLine(line), env))
    {
      hide OnEntrance, OnEndpoint, OnNetwork, OnFindJoin, OnMain;
      match currentFunc
      case Entrance => FuncEntrance(line, env);
      case Endpoint => FuncEndpoint(line, env);
      case Network => FuncNetwork(line);
      case FindJoin => FuncNetworkFindJoin(line);
      case Main => FuncMain(line, env);
    }

    method OnTimerCallback(id: int, env: Env)
      requires Valid() && !quit && id in target.pending
      modifies target
      ensures Valid()
      ensures Is(Step(old(State()), TimerEvent(id), env))
    {
      target.OnTimer(id, env.cs);
    }

    method OnCommissioningStatus(ofTarget: bool, success: bool, env: Env)
      requires Valid() && !quit
      modifies target, initiator
      ensures Valid()
      ensures Is(Step(old(State()), if ofTarget then TargetReport(success) else InitiatorReport(success), env))
    {
      hide TargetRun, InitiatorRun;
      if ofTarget {
        var _ := target.Run(if success then TargetSuccess else TargetFailure, env.cs);
      } else {
        var _ := initiator.Run(if success then InitiatorSuccess else InitiatorFailure, env.cs);
      }
    }

    method OnNetworkFound(network: NetworkInfo, env: Env)
      requires Valid() && !quit
      modifies this, nwkFoundList
      ensures Valid()
      ensures Is(Step(old(State()), NetworkFound(network), env))
    {
      hide TestDevices.Valid, Illuminance.IlluminanceTest.Valid, AllWired, TargetMachine.State, InitiatorMachine.State;
      finds := finds + [Found(network)];
      if nwkFindSize < FIND_MAX {
        nwkFoundList[nwkFindSize] := network;
        nwkFindSize := nwkFindSize + 1;
      }
    }

    // main, up to the event loop.
    method Start(env: Env)
      requires Valid() && State() == BLANK
      modifies this
      ensures Valid()
      ensures Is(Boot(env))
    {
      FuncEntryEntrance(env);
    }

    lemma StateIs()
      ensures Is(State())
    {
    }

    // One turn of the event loop, which after the request to quit hands out nothing more.
    method Handle(e: Event, env: Env)
      requires Valid() && Admissible(State(), e, env)
      modifies this, target, initiator, light, nwkFoundList, registry, registry.list, registry.Cells()
      ensures Valid()
      ensures fresh(registry.Cells() - old(registry.Cells()))
      ensures Is(Step(old(State()), e, env))
    {
      hide TestDevices.Valid, Illuminance.IlluminanceTest.Valid, AllWired, Is, OnKey, OnFound, FreshTimer;
      hide TargetRun, InitiatorRun, TimerFires;
      if quit {
        StateIs();
        return;
      }
      match e
      case KeyLine(line) => OnKeyboardReceived(line, env);
      case TargetReport(ok) => OnCommissioningStatus(true, ok, env);
      case InitiatorReport(ok) => OnCommissioningStatus(false, ok, env);
      case TimerEvent(id) => OnTimerCallback(id, env);
      case NetworkFound(network) => OnNetworkFound(network, env);
    }

    // main: whatever the user types, the daemon reports and the timers do, the program ends in
    // the state the transitions lead to; it is a good and sound one, and a target under test is
    // not stuck exactly when the loop registered its timer.
    method RunLoop(env: Env, events: seq<(Event, Env)>)
      requires Valid() && State() == BLANK
      requires AdmissibleRun(Boot(env), events)
      modifies this, target, initiator, light, nwkFoundList, registry, registry.list, registry.Cells()
      ensures Valid() && State() == Run(Boot(env), events)
      ensures Good(State()) && Sound(State())
      ensures target.testing ==> forall r :: NotStuck(target.State(), registry.devices, r) <==> target.live
      ensures HonestRun(events) && target.testing ==> target.live
    {
      hide TestDevices.Valid, Illuminance.IlluminanceTest.Valid, AllWired, Is, Step, Admissible, Good, Sound;
      hide HonestRun, NotStuck;
      Start(env);
      IsState(Boot(env));
      hide Boot;
      for i := 0 to |events|
        invariant Valid() && fresh(registry.Cells() - old(registry.Cells()))
        invariant State() == Run(Boot(env), events[..i])
      {
        AdmissibleUpTo(Boot(env), events, i);
        Handle(events[i].0, events[i].1);
        IsState(Run(Boot(env), events[..i + 1]));
      }
      assert events[..|events|] == events;
      BootGood(env);
      RunKeepsGood(Boot(env), events);
      TestingIsSound(env, events);
      if HonestRun(events) { HonestSessionIsLive(env, events); }
      if target.testing {
        forall r ensures NotStuck(target.State(), registry.devices, r) <==> target.live {
          TargetIsNeverStuck(env, events, r);
        }
      }
    }
  }
  // The whole program, from the initial values of its statics.
  method Program(env: Env, events: seq<(Event, Env)>) returns (program: Example)
    requires AdmissibleRun(Boot(env), events)
    ensures fresh(program) && program.Valid() && program.State() == Run(Boot(env), events)
    ensures Good(program.State()) && Sound(program.State())
    ensures var t, devs := program.target, program.registry.devices;
      && (t.testing ==> forall r :: NotStuck(t.State(), devs, r) <==> t.live)
      && (HonestRun(events) && t.testing ==> t.live)
  {
    program := new Example();
    hide TestDevices.Valid, Illuminance.IlluminanceTest.Valid, AllWired, Good, Sound, Run, AdmissibleRun, Boot;
    hide NotStuck, HonestRun;
    program.RunLoop(env, events);
  }
}
