# Verified model of the ARTIK SDK examples

A Dafny model of the code of the ARTIK SDK that does more than declare an interface: the
generic linked list, the ZigBee example with its commissioning runs, menus and device registry,
and the small parsers and printers of the SPI, cloud and security examples. Main results:

* **Commissioning.** The ZigBee example walks its registered devices with two machines, driven
  by menu commands, daemon callbacks and one-shot timers in any order. `Commissioning.dfy` has
  the two machines as transitions and what every run keeps, `Menu.dfy` the whole program as one
  state machine, and `MenuProofs.dfy` the invariant of its reachable states: the registry is
  frozen once the network menu is reached, no bad index is ever used, the machines never meet
  on a device, stale timers do nothing while the loop registers the new ones, runs end and skip
  nothing. `ZigbeeExample.dfy` has the
  static variables as fields of classes, over the registry on the heap; each method is proved to
  make exactly the transition of the state machine, and `RunLoop` handles any sequence of events
  and ends in a state for which the invariants are proved. `CommandLaws.dfy` says outright what
  each command does and that a run of accepted starts gives every device its turns,
  `MenuLaws.dfy` what every line typed in a menu leads to, `RunEnds.dfy` how runs end, and
  `Session.dfy` has a session that reaches the states the results speak of.
* **The list.** `ArtikList.dfy` has the list as linked nodes on the heap, with all its lookups,
  deletions and the copy, each against a sequence; `HeapLog.dfy` the conservation of nodes over
  any history. `Registry.dfy` is the device registry on top of it, `Devices.dfy` what its
  operations mean, with the save and resume round trip.
* **Numbers and text.** `NumberReader.dfy` (keyboard numbers), `SpiHex.dfy` (hex parser and hex
  dump), `JsonField.dfy` (field extraction), `SigningTime.dfy` (dates) each have the C loops as
  methods and round trips over all inputs; `Radix.dfy` is their positional notation.
  `Illuminance.dfy` is the illuminance sweep.

## What the code does not do

Where a promise of the code or of its prompts fails, the exact condition is proved.

* `add_timer` returns the id variable without looking at the result of the loop, and the Linux
  loop leaves that variable unset when it refuses the timer (src/modules/base/loop/linux_loop.c:88).
  With a positive id left there a target run is under test without a timer made for it; it is not
  stuck if and only if the loop registered its newest timer. If the id left there is that of an
  older timer still pending, that timer stops the device under test when it fires, although it
  was made for another one. Stale timers are harmless if and only if the newest timer was
  registered or the id the machine holds is not pending.
* A start the device accepts begins a target run if and only if the timer id is positive. The
  TizenRT loop gives out the id 0 first, and again after 254
  (src/modules/base/loop/tizenrt_loop.c:324-327); the started device is then abandoned with its
  timer pending.
* The tx power prompt offers -9..8. The reader skips the minus sign, so -5 enters 5 and no
  negative power can be entered.
* `0x5` reads as 0, because two digits are required behind `0x`.
* A failing endpoint add leaves the registry unchanged if and only if the id is non-zero and only
  the failed device itself stands from the first use of that id on; for an id in use it
  otherwise deletes the older device. The endpoint menu asks for an unused id first; resuming a
  saved record does not check, so a record with duplicate ids can lose a device this way.
* The hex dump prints bytes above 0x7F with eight digits where `char` is signed, so its columns
  do not read back there.
* A JSON value without quotes is never read as it stands, and if it is the last of the response,
  the search runs past the end of the text.
* A JSON key whose quoted prefix does not fit 255 characters is misread. The keys the program
  searches for are short.
* A hex argument without any digit fails or succeeds as `malloc(0)` does.

## Model

| member | source | states |
|---|---|---|
| `MenuProofs.TestingIsSound` | examples/zigbee/artik_zigbee_example.c:838-1128 | After every run of user lines, daemon callbacks and timer firings: a machine under test holds a valid index of a device with both start and stop, the retry budget is 0..5, testing happens only in the operational menus, and the two machines never hold the same index, so no branch for a bad index is ever taken |
| `MenuProofs.TargetIsNeverStuck` | examples/zigbee/artik_zigbee_example.c:838-974 | In every reachable state, a target under test is not stuck if and only if the loop registered its newest timer: then this timer is pending, armed for exactly the device under test, and of all pending timers exactly this one moves the machine when it fires; and it was registered in every run in which a refused timer leaves no positive id |
| `MenuProofs.NotStuckIffLive` | examples/zigbee/artik_zigbee_example.c:838-974 | The same if and only if in any good state |
| `MenuProofs.LiveRunIsNotStuck` | examples/zigbee/artik_zigbee_example.c:2724-2744 | In any good state whose newest timer was registered: the timer is pending, it was made for the device under test, and a pending timer acts if and only if it is that one |
| `MenuProofs.HonestRunIsLive` | examples/zigbee/artik_zigbee_common.c:529-552 | Over any run in which a refused timer leaves no positive id, a target under test always has its newest timer registered |
| `MenuProofs.RunKeepsGood` | examples/zigbee/artik_zigbee_example.c:1130-2112 | The whole invariant (menu steps, registry, both machines and their logs, wizard answers, found networks, illuminance passes) is kept by every admissible run |
| `MenuProofs.StepKeepsGood` | examples/zigbee/artik_zigbee_example.c:1222-2744 | Every single event keeps the whole invariant |
| `MenuProofs.BootGood` | examples/zigbee/artik_zigbee_example.c:2769-2786 | The state in which the event loop starts satisfies the invariant |
| `MenuProofs.RegistryIsFrozen` | examples/zigbee/artik_zigbee_example.c:1130-1750 | Once the menu is network, find-join or main it never goes back to entrance or endpoint, and the registry stays non-empty and unchanged whatever happens |
| `MenuProofs.StepKeepsShape` | examples/zigbee/artik_zigbee_example.c:1222-2112 | Every event keeps each handler within its own steps; in the operational menus the endpoints were initialised once, with the record saved from the present registry |
| `MenuProofs.StepKeepsOperational` | examples/zigbee/artik_zigbee_example.c:1222-1750 | No event leads from an operational menu back to the set-up menus or changes the registry |
| `MenuProofs.StepKeepsCommissioning` | examples/zigbee/artik_zigbee_example.c:838-1128 | Every admissible event keeps the invariants of both commissioning machines; before the network menu both machines are idle |
| `MenuProofs.StepKeepsRegistry` | examples/zigbee/artik_zigbee_example.c:1752-2112 | Unless the saved record was not one this program writes, every event keeps the registry orderly: supported devices with distinct ids in 1..239 |
| `MenuProofs.GoodCommissioning` | examples/zigbee/artik_zigbee_example.c:976-1128 | In every good state the start calls since the last initiator START are its tries, at most six per supporting device, and those since the last target START its tries, at most one per supporting device |
| `MenuProofs.StepKeepsLogged` | examples/zigbee/artik_zigbee_example.c:816-1128 | No event adds a start call that is not a try, or a try that is not a start call |
| `MenuProofs.ManualNetworksAreAnswered` | examples/zigbee/artik_zigbee_example.c:1408-1750 | Over every run, each form or join of the wizard passes exactly the channel, tx and pan id accepted in that same pass, all in range; each find-join picks one of the first eight networks reported since the last reset before it |
| `MenuLaws.WizardSubmitsAnswers` | examples/zigbee/artik_zigbee_example.c:1552-1750 | From the network menu, entry 2 and three accepted answers form exactly the network of these answers, and entry 4 and the same answers join it; the submission happens, and the menu is back afterwards |
| `MenuLaws.WizardSubmitsTyped` | examples/zigbee/artik_zigbee_example.c:1552-1750 | With the numbers typed out: every channel in 11..26, power in 0..8 and pan id up to 0xFFFF |
| `MenuLaws.RejectedAnswerAsksAgain` | examples/zigbee/artik_zigbee_example.c:1674-1750 | An answer that is not accepted changes nothing |
| `MenuLaws.WizardUndisturbed` | examples/zigbee/artik_zigbee_example.c:2235-2744 | No callback and no timer changes the step, the answers or the submissions of the wizard |
| `MenuLaws.NetworkEntries` | examples/zigbee/artik_zigbee_example.c:1552-1660 | Every line in the network menu: 2 and 4 begin the wizards, 8 leads to the main menu, 10 to the search, q and e quit, all else changes nothing |
| `MenuLaws.FindJoinEntries` | examples/zigbee/artik_zigbee_example.c:1408-1505 | Every line in the find-join menu: 0 leads back, 9 searches again, 1..8 join the network reported at that place since the last search, q and e quit, all else changes nothing |
| `MenuLaws.MainEntries` | examples/zigbee/artik_zigbee_example.c:1222-1318 | Every line in the main menu: 0 leads back, q and e quit, and apart from the tests all else changes nothing |
| `MenuProofs.KeyCommands` | examples/zigbee/artik_zigbee_example.c:1136-1202 | Exactly entries 8 and 9 of the main menu start and stop the target, and 10 and 11 the initiator |
| `MenuLaws.EntranceEntries` | examples/zigbee/artik_zigbee_example.c:2040-2112 | 0 adds the devices of the saved record and initialises them, 1 begins the endpoint dialogue, all else changes nothing |
| `MenuLaws.EndpointEntries` | examples/zigbee/artik_zigbee_example.c:1959-2000 | 0 initialises the devices if there are any, 1..6 choose a type, all else changes nothing |
| `MenuLaws.DeviceIsAdded` | examples/zigbee/artik_zigbee_example.c:1959-2038 | A type and an id, or an empty line for its default id, add exactly that device behind the others if the id is in 1..239 and unused, and ask for another id if not |
| `MenuLaws.BootLeadsTo` | examples/zigbee/artik_zigbee_example.c:2040-2066 | With a saved record the program asks whether to resume it, without one it asks for devices |
| `MenuLaws.InitiatorReports` | examples/zigbee/artik_zigbee_example.c:2645-2689 | A reported failure of the initiator repeats the device while it has retries; a reported success, or the last failure, starts the next one |
| `MenuLaws.TargetReports` | examples/zigbee/artik_zigbee_example.c:2645-2689 | A reported success of the target changes nothing; a reported failure starts the next device without a stop call |
| `MenuProofs.StepKeepsWizard` | examples/zigbee/artik_zigbee_example.c:1507-1750 | Every event keeps the bookkeeping of the wizard: what the current pass accepted so far is what is stored |
| `MenuProofs.StepKeepsFinder` | examples/zigbee/artik_zigbee_example.c:1393-1505 | Every event keeps the slots of found networks equal to the first eight reports since the last reset |
| `MenuProofs.IlluminanceStaysInRange` | examples/zigbee/artik_zigbee_example.c:478-568 | Over every run, the k-th range asked for is 100+50*((k+1) mod 99) to 10000-50*((k+1) mod 99), and every value sent is inside its range and the one of the closed form |
| `RunEnds.InitiatorEndsProperly` | examples/zigbee/artik_zigbee_example.c:1043-1128 | Whatever event of the program it is: an initiator under test goes idle by STOP, with the one stop call, or with exactly one discover, and then every supporting device was tried unless a start was refused; as long as it goes on it discovers nothing |
| `RunEnds.TargetEndsProperly` | examples/zigbee/artik_zigbee_example.c:816-974 | The same for the target, timer firings included; it can also go idle because the device just started got no positive timer id, and then there is no discover |
| `RunEnds.InitiatorIsIdleAfterReports` | examples/zigbee/artik_zigbee_example.c:976-1128 | From any good state, over any run without an initiator START and whatever else happens in between, 6*m reported outcomes for m supporting devices leave the initiator idle, unless the program was told to quit |
| `RunEnds.TargetIsIdleAfterMoves` | examples/zigbee/artik_zigbee_example.c:816-974 | Likewise without a target START, m reported failures and firings of the stored timer id leave the target idle |
| `MenuProofs.SessionResumes` | examples/zigbee/artik_zigbee_example.c:1908-2112 | A session that initialised its endpoints saved one record; a later session that finds this record and resumes gets the first five devices back, functions included, goes to the network menu and saves the same record |
| `Session.SessionExists` | examples/zigbee/artik_zigbee_example.c:1130-2112 | Five typed lines (a light, its default id, done, main menu, target start) reach an operational state with the target testing, so the results about runs are not empty |
| `Commissioning.TargetKeepsInv` | examples/zigbee/artik_zigbee_example.c:816-974 | Every target command keeps the target invariant: devices tried in order without skipping, each once, timer numbering consistent, the timer of the device under test its own |
| `Commissioning.FiringKeepsInv` | examples/zigbee/artik_zigbee_example.c:2724-2744 | So does the firing of any pending timer |
| `Commissioning.FiringActsIff` | examples/zigbee/artik_zigbee_example.c:2724-2744 | A firing changes more than the list of pending timers if and only if the target is testing and the id is the stored one |
| `Commissioning.OnlyTheNewestTimerActs` | examples/zigbee/artik_zigbee_example.c:2724-2744 | While the target is testing with its newest timer registered, the pending timer that acts is exactly that one, and its arming was for the device under test |
| `Commissioning.StaleTimersHarmlessIff` | examples/zigbee/artik_zigbee_example.c:2724-2744 | While the target is testing, every pending timer of an earlier arming leaves the machine alone when it fires if and only if the newest timer was registered or the stored id is not pending |
| `Commissioning.StaleTimerCanAct` | examples/zigbee/artik_zigbee_common.c:533-551 | The remaining case occurs: a refused timer that leaves the id of the first device's timer behind lets that timer stop the second device and end the run |
| `Commissioning.TimerPendingIffRegistered` | examples/zigbee/artik_zigbee_common.c:529-552 | A target under test has its newest timer pending exactly when the loop registered it |
| `Commissioning.HonestTimersStayLive` | examples/zigbee/artik_zigbee_common.c:529-552 | If a refused timer leaves no positive id, no command puts the target to testing without a registered timer |
| `Commissioning.ArmKeepsTimers` | examples/zigbee/artik_zigbee_common.c:529-552 | With an id no pending timer has, a new timer keeps the pending ones apart, and the machine holds the id of the newest one exactly if the loop registered it; if not, no pending timer is its own |
| `Commissioning.UnregisteredTimerStalls` | examples/zigbee/artik_zigbee_common.c:544-551 | add_timer does not look at the result of the loop: from any state, a start that gets a positive id for a refused timer leaves the machine testing while no pending timer is for the device |
| `Commissioning.AcceptedStartTestsIffIdPositive` | examples/zigbee/artik_zigbee_example.c:869-878 | From any state, a start the device accepts leaves the machine testing if and only if the timer id is positive; whatever the id, the start call is made, nothing is discovered, and the timer is pending exactly if it was registered |
| `Commissioning.ZeroTimerIdAbandonsRun` | examples/zigbee/artik_zigbee_example.c:869-878 | From any state, an accepted start with a registered timer of id 0 or less ends the run with the device started and the timer pending, and its firing calls nothing |
| `Commissioning.TargetProgress` | examples/zigbee/artik_zigbee_example.c:938-968 | A timeout or failure either ends the target run, with one discover unless a timer could not be armed, or moves on to a later device |
| `Commissioning.TargetStartEffect` | examples/zigbee/artik_zigbee_example.c:838-881 | A start makes at most one start call, to the next supporting device; the machine is testing afterwards if and only if there was one, it accepted and the timer id is positive; it discovers exactly when there was none or it refused |
| `Commissioning.TargetEnd` | examples/zigbee/artik_zigbee_example.c:884-974 | A command under test stops with one stop call, or goes on, or ends with exactly one discover and every supporting device tried unless one refused, or ends because the timer id is not positive |
| `Commissioning.TargetLogsTries` | examples/zigbee/artik_zigbee_example.c:816-974 | Every command adds as many start calls as tries, to the same devices; START forgets the earlier tries |
| `Commissioning.TargetRunIsBounded` | examples/zigbee/artik_zigbee_example.c:816-974 | A START in any state, then any timeouts and failures, whatever ids the timers get: the start calls made are exactly the tries, at most m for m supporting devices, and m timeouts or failures end the run |
| `CommandLaws.EveryTargetGetsOneTurn` | examples/zigbee/artik_zigbee_example.c:816-974 | A START in any state, every start accepted and every timer id positive: each of the m supporting devices is started exactly once, whichever of them time out or fail, and the run is over after m timeouts and failures and not before |
| `CommandLaws.NextDeviceIsArmed` | examples/zigbee/artik_zigbee_example.c:938-968 | A timeout stops the device under test, a failure does not; both then start the first supporting device behind it and arm a timer for it, or, refused, remove the timer and discover |
| `CommandLaws.LastTargetEndsRun` | examples/zigbee/artik_zigbee_example.c:860-881 | With no supporting device behind it the held timer is removed and the daemon discovers |
| `CommandLaws.TargetBeginsWith` | examples/zigbee/artik_zigbee_example.c:838-881 | START starts the first supporting device |
| `CommandLaws.TargetStopsOrStays` | examples/zigbee/artik_zigbee_example.c:884-937 | STOP makes one stop call and leaves the timer to the loop; a success changes nothing; an idle machine answers only to START, and START without a supporting device with ENotSupported |
| `CommandLaws.OwnTimerMovesOn` | examples/zigbee/artik_zigbee_example.c:2724-2744 | The firing of the stored id stops the device under test and starts the next one |
| `Commissioning.InitiatorKeepsInv` | examples/zigbee/artik_zigbee_example.c:976-1128 | Every initiator command keeps the initiator invariant: devices tried in order without skipping, each at most six times, the retry counter equal to the tries left |
| `Commissioning.InitiatorProgress` | examples/zigbee/artik_zigbee_example.c:1099-1123 | A success or failure ends the run or advances lexicographically: a later device, or the same one with one retry less; a success never stays on the device |
| `Commissioning.InitiatorEnd` | examples/zigbee/artik_zigbee_example.c:1021-1040 | A run ends by STOP with one stop call, or with exactly one discover, and then all supporting devices were tried unless a start was refused; otherwise nothing is discovered |
| `Commissioning.InitiatorStartEnds` | examples/zigbee/artik_zigbee_example.c:999-1040 | A start makes at most one start call, to the next supporting device, and discovers exactly when it leaves the machine idle, that is when there was none or it refused |
| `Commissioning.InitiatorLogsTries` | examples/zigbee/artik_zigbee_example.c:976-1128 | Every command adds as many start calls as tries, to the same devices; START forgets the earlier tries |
| `Commissioning.InitiatorAfterTries` | examples/zigbee/artik_zigbee_example.c:1099-1123 | While a sequence of outcomes leaves the machine testing, each of them made exactly one start |
| `Commissioning.InitiatorRunIsBounded` | examples/zigbee/artik_zigbee_example.c:976-1128 | A START in any state and whatever outcomes follow: the start calls made are exactly the tries, at most 6*m for m supporting devices, and 6*m outcomes end the run |
| `CommandLaws.EveryDeviceGetsSixAttempts` | examples/zigbee/artik_zigbee_example.c:976-1128 | A START in any state, then failures only, every start accepted: each of the m supporting devices is started exactly six times, and the run is over after 6*m failures and not before |
| `CommandLaws.FailedDeviceIsRetried` | examples/zigbee/artik_zigbee_example.c:1109-1118 | A failed device with retries left is started again, with one retry less; a refused start ends the run with one discover |
| `CommandLaws.NextDeviceIsStarted` | examples/zigbee/artik_zigbee_example.c:1099-1123 | After a success, or a failure without retries left, the first supporting device behind the present one is started, with five retries |
| `CommandLaws.LastDeviceEndsRun` | examples/zigbee/artik_zigbee_example.c:1025-1040 | With no supporting device behind it the run is over, with one discover and no start |
| `CommandLaws.BeginStartsFirst` | examples/zigbee/artik_zigbee_example.c:1049-1059 | START starts the first supporting device, with five retries; without one it answers ENotSupported and calls nothing |
| `CommandLaws.HaltStopsDevice` | examples/zigbee/artik_zigbee_example.c:1043-1098 | STOP makes the one stop call of the device under test; in an idle machine every command but START does nothing |
| `Commissioning.DifferentDevices` | examples/zigbee/artik_zigbee_example.c:816-1128 | Two machines that are both testing test different devices |
| `Commissioning.RunLength` | examples/zigbee/artik_zigbee_example.c:838-860 | An in-order sequence of tries with at most b per device has at most b*m members |
| `Commissioning.TryNext` | examples/zigbee/artik_zigbee_example.c:1000-1025 | Starting the next supporting device, or the same one within its budget, keeps the order and skips nothing |
| `ZigbeeExample.FindSupporting` | examples/zigbee/artik_zigbee_example.c:999-1014 | The registry loop stops at the first device from the given index that supports the role |
| `ZigbeeExample.TargetMachine.Start` | examples/zigbee/artik_zigbee_example.c:816-882 | Updates the three statics exactly as the transition of the target machine says, and returns its result code |
| `ZigbeeExample.TargetMachine.Run` | examples/zigbee/artik_zigbee_example.c:884-974 | The same for each of the five commands, bad-index branches included |
| `ZigbeeExample.TargetMachine.OnTimer` | examples/zigbee/artik_zigbee_example.c:2724-2744 | A firing is compared with the stored id before it counts as a timeout |
| `ZigbeeExample.InitiatorMachine.Start` | examples/zigbee/artik_zigbee_example.c:976-1041 | Updates the statics exactly as the transition of the initiator machine says |
| `ZigbeeExample.InitiatorMachine.Run` | examples/zigbee/artik_zigbee_example.c:1043-1128 | The transition of each of the four commands, bad-index branches included; what it means is said by the laws of CommandLaws |
| `ZigbeeExample.Example.constructor` | examples/zigbee/artik_zigbee_example.c:59-80 | All statics start at their C initial values |
| `ZigbeeExample.Example.Start` | examples/zigbee/artik_zigbee_example.c:2769-2786 | Brings the fields to the state in which the event loop starts |
| `ZigbeeExample.Example.Handle` | examples/zigbee/artik_zigbee_example.c:2746-2766 | One event of any kind changes the program on the heap exactly as the step of the state machine says, and adds only fresh nodes to the registry |
| `ZigbeeExample.Example.RunLoop` | examples/zigbee/artik_zigbee_example.c:2769-2794 | After any admissible sequence of events the program on the heap is in the state the machine runs to; this state is good and sound, and a target under test is not stuck if and only if the loop registered its newest timer |
| `ZigbeeExample.Program` | examples/zigbee/artik_zigbee_example.c:2769-2794 | The same for the program as it starts, with nothing assumed about it |
| `ZigbeeExample.Example.OnKeyboardReceived` | examples/zigbee/artik_zigbee_example.c:2746-2766 | One line changes all statics, the registry on the heap, both machines and the illuminance test exactly as the step of the state machine says; nodes it adds are fresh |
| `ZigbeeExample.Example.OnTimerCallback` | examples/zigbee/artik_zigbee_example.c:2724-2744 | The same for a timer firing |
| `ZigbeeExample.Example.OnCommissioningStatus` | examples/zigbee/artik_zigbee_example.c:2645-2689 | The same for the commissioning reports |
| `ZigbeeExample.Example.OnNetworkFound` | examples/zigbee/artik_zigbee_example.c:2403-2422 | A found network fills the next free slot of the array; from the ninth on they are dropped |
| `ZigbeeExample.Example.FuncEntrance` | examples/zigbee/artik_zigbee_example.c:2040-2112 | Resume or set up anew, field by field as the step says |
| `ZigbeeExample.Example.Resume` | examples/zigbee/artik_zigbee_example.c:2077-2098 | The loop over the saved record rebuilds the registry as the recursive definition of resuming does |
| `ZigbeeExample.Example.FuncEndpoint` | examples/zigbee/artik_zigbee_example.c:1959-2038 | The three steps of the endpoint dialogue |
| `ZigbeeExample.Example.TypedId` | examples/zigbee/artik_zigbee_example.c:2005-2009 | An empty line takes the default endpoint id of the type, any other line its number |
| `ZigbeeExample.Example.EndpointInit` | examples/zigbee/artik_zigbee_example.c:1908-1945 | Saves the first five registry entries in order; an empty registry is an error; the result of initialize decides |
| `ZigbeeExample.Example.FuncNetwork` | examples/zigbee/artik_zigbee_example.c:1507-1750 | The network menu and the two wizards make the transition that MenuLaws.NetworkEntries and MenuLaws.WizardSubmitsAnswers describe |
| `ZigbeeExample.Example.FuncNetworkFindJoin` | examples/zigbee/artik_zigbee_example.c:1408-1505 | The find-join menu; a join is in bounds of the found networks |
| `ZigbeeExample.Example.FuncMain` | examples/zigbee/artik_zigbee_example.c:1222-1318 | The main menu: START and STOP of both machines, and the illuminance test by its own entry or as part of all tests |
| `ZigbeeExample.Example.MainTest` | examples/zigbee/artik_zigbee_example.c:1136-1202 | The numbered tests: which entry runs which command of which machine, or the illuminance test |
| `Devices.ExactlyOneRole` | examples/zigbee/artik_zigbee_example.c:1766-1891 | The installed functions give each supported type exactly one of the two roles and an unsupported type none |
| `Devices.WhoInitiates` | examples/zigbee/artik_zigbee_example.c:1766-1891 | The two switches and the light sensor take part as initiators, the two lights and the remote control as targets, and nothing else takes part |
| `Devices.HasFunctionIff` | examples/zigbee/artik_zigbee_example.c:1766-1891 | For each function the device types that have it |
| `Devices.AddsSixTypes` | examples/zigbee/artik_zigbee_example.c:1752-1906 | One of the six types is appended with its functions and S_OK; any other is deleted again by id and answered with EBadArgs |
| `Devices.DeletesFirst` | examples/zigbee/artik_zigbee_common.c:431-441 | A deletion takes out the first device of the id, and none for the id 0 or an unused one |
| `Devices.FailedAddUnchangedIff` | examples/zigbee/artik_zigbee_example.c:1892-1906 | A failing add leaves the registry as it was if and only if the endpoint id is non-zero and all devices from the first of that id on equal the failed one |
| `Devices.FailedAddUnchangedIffUnused` | examples/zigbee/artik_zigbee_example.c:1892-1906 | Where the failed device is not in the registry already: if and only if the id is non-zero and not in use |
| `Devices.AddKeepsOrderly` | examples/zigbee/artik_zigbee_example.c:2005-2034 | An add after the uniqueness and range checks keeps the registry orderly, for supported and unsupported types |
| `Devices.AddKeepsWired` | examples/zigbee/artik_zigbee_example.c:1752-1906 | Every add leaves each device wired by the table or not at all |
| `Devices.ResumedKeepsWired` | examples/zigbee/artik_zigbee_example.c:2077-2098 | So does resuming from any record, duplicates included |
| `Devices.SaveResumeRoundTrip` | examples/zigbee/artik_zigbee_example.c:1908-2103 | Saving and resuming an orderly registry rebuilds its first five devices in order, functions included, and saving again writes the same record |
| `Devices.ResumeSaveRoundTrip` | examples/zigbee/artik_zigbee_example.c:2077-2103 | Resuming from a record this program can have written and saving again gives the record back |
| `Devices.NextSupporting` | examples/zigbee/artik_zigbee_example.c:840-846 | The first supporting position from an index on; everything before it does not support the role |
| `Devices.EndpointIndex` | examples/zigbee/artik_zigbee_common.c:381-398 | The first device with the id, and a position in range exactly when some device has it |
| `Devices.Saved` | examples/zigbee/artik_zigbee_example.c:1908-1945 | As many entries as devices, at most five, each the record of the device at its position |
| `Registry.TestDevices.Add` | examples/zigbee/artik_zigbee_common.c:400-429 | Appends a device without functions; its node carries the endpoint id as handle |
| `Registry.TestDevices.Delete` | examples/zigbee/artik_zigbee_common.c:431-441 | Removes the first device with the endpoint id (id 0 removes nothing) |
| `Registry.TestDevices.EndpointAdd` | examples/zigbee/artik_zigbee_example.c:1752-1906 | Append, install the functions of the type, or delete again and fail |
| `Registry.TestDevices.Get` | examples/zigbee/artik_zigbee_common.c:496-505 | The device at a position |
| `Registry.TestDevices.GetByEndpointId` | examples/zigbee/artik_zigbee_common.c:381-398 | The first device with the endpoint id |
| `Registry.TestDevices.CheckEndpointId` | examples/zigbee/artik_zigbee_common.c:454-476 | True exactly when no device uses the id |
| `Registry.TestDevices.HandleList` | examples/zigbee/artik_zigbee_common.c:478-494 | The first endpoint ids in order, at most as many as asked for |
| `Registry.TestDevices.Count` | examples/zigbee/artik_zigbee_common.c:449-452 | The number of devices |
| `Registry.TestDevices.ReleaseAll` | examples/zigbee/artik_zigbee_common.c:443-447 | Empties the registry |
| `Registry.HandleFindsEndpoint` | examples/zigbee/artik_zigbee_common.c:381-398 | Searching the nodes by handle finds the same position as searching the devices by endpoint id |
| `ArtikList.List.Add` | inc/base/artik_list.h:102-135 | A fresh zeroed node is appended, its handle the one given or its own address; a size below the node header is refused and changes nothing |
| `ArtikList.List.End` | inc/base/artik_list.h:455-467 | The last node |
| `ArtikList.List.Cpy` | inc/base/artik_list.h:146-167 | The destination gets fresh nodes whose handle, size, clear and copy callbacks are those of the source nodes in order, with the data copied by the callback if there is one and as it is if not; the source is untouched; the three error cases change nothing |
| `ArtikList.List.CopyInto` | inc/base/artik_list.h:146-167 | The loop of the copy, field by field in the same way, each node first linked into the source by the memcpy and then cut |
| `ArtikList.List.FillCopy` | inc/base/artik_list.h:156-163 | The memcpy with its temporary link into the source, the callback and the cut leave every field of the new last node that of the source node, the data copied by the callback if there is one |
| `ArtikList.List.Size` | inc/base/artik_list.h:176-187 | The number of nodes |
| `ArtikList.List.DeleteNode` | inc/base/artik_list.h:196-226 | Removes exactly this node, first or later; its clear callback is called once if the node has one, and then it is freed; EBadArgs if it is not linked, and nothing is called |
| `ArtikList.List.DeleteHandle` | inc/base/artik_list.h:234-264 | Removes exactly the first node with the handle, with its clear callback called if it has one, and then the free |
| `ArtikList.List.DeletePos` | inc/base/artik_list.h:272-302 | Removes exactly the node at the position, with its clear callback called if it has one, and then the free |
| `ArtikList.List.DeleteCheck` | inc/base/artik_list.h:313-342 | Removes exactly the first node the check accepts, with its clear callback called if it has one, and then the free |
| `ArtikList.List.DeleteAll` | inc/base/artik_list.h:351-369 | Frees all nodes in list order and nothing else, each cleared exactly once if it has a clear callback and never if not |
| `ArtikList.List.GetByHandle` | inc/base/artik_list.h:380-393 | The first node with the handle, null for the invalid handle |
| `ArtikList.List.GetByPos` | inc/base/artik_list.h:404-420 | The node at the position |
| `ArtikList.List.GetByCheck` | inc/base/artik_list.h:431-445 | The first node the check accepts |
| `ArtikList.DeleteHandleByLookup` | inc/base/artik_list.h:234-264 | delete_node of get_by_handle has the same result code, final list and heap history as delete_handle |
| `ArtikList.DeletePosByLookup` | inc/base/artik_list.h:272-302 | delete_node of get_by_pos has the same effect as delete_pos |
| `ArtikList.DeleteCheckByLookup` | inc/base/artik_list.h:313-342 | delete_node of get_by_check has the same effect as delete_check |
| `ArtikList.DeleteFoundNode` | inc/base/artik_list.h:196-226 | The node a lookup found is deleted at the position it was found at |
| `ArtikList.CopyKeepsHandles` | inc/base/artik_list.h:146-167 | A lookup by handle finds the same position in the copy, for default handles too |
| `ArtikList.ChainedWithout` | inc/base/artik_list.h:209-221 | Bypassing one link leaves the chain of the remaining nodes |
| `ArtikList.ReachableIffNotFreed` | inc/base/artik_list.h:215-369 | Over any history of the list a node is linked exactly when it was allocated and not freed; nothing is freed twice, and the clear callback ran exactly as often as the node was freed having one, which the deletions read off the node itself |
| `HeapLog.Conservation` | inc/base/artik_list.h:215-369 | Every disciplined history is balanced: for each node, live plus freed equals allocated, and clears equal frees with a clear callback |
| `HeapLog.AfterDispose` | inc/base/artik_list.h:215-221 | Disposing of a live node takes exactly it out of the live ones |
| `HeapLog.AfterAlloc` | inc/base/artik_list.h:107-123 | An allocation adds exactly the new node to the live ones |
| `NumberReader.ReadInt` | examples/zigbee/artik_zigbee_common.c:93-116 | The scanner computes the specification function and reads no index at or above max_size |
| `NumberReader.ReadNumeral` | examples/zigbee/artik_zigbee_common.c:51-91 | The accumulator loops compute the value of the longest digit prefix |
| `NumberReader.ReadsPrintedDecimal` | examples/zigbee/artik_zigbee_common.c:93-116 | A printed decimal is read back, whatever non-digits stand before it |
| `NumberReader.ReadsPrintedHexIff` | examples/zigbee/artik_zigbee_common.c:104-112 | Hex digits behind 0x are read back if and only if there are at least two or the digit is 0; a lone digit reads as 0 |
| `NumberReader.ReadsPrintedHex4` | examples/zigbee/artik_zigbee_common.c:51-70 | Every number printed with 0x%04X is read back |
| `NumberReader.ReadsHexInEitherCase` | examples/zigbee/artik_zigbee_common.c:40-70 | Hex digits in upper or lower case, or mixed, behind 0x or 0X are read as their number; the digits are given as characters |
| `NumberReader.NumeralWritten` | examples/zigbee/artik_zigbee_common.c:40-70 | The same for the digits alone |
| `NumberReader.DigitsAreThese` | examples/zigbee/artik_zigbee_common.c:32-49 | Which characters are decimal and hexadecimal digits, and what each is worth |
| `NumberReader.StopsAtLineEnd` | examples/zigbee/artik_zigbee_common.c:93-103 | The scan ends at a newline or NUL, whatever follows |
| `NumberReader.AnswersAccepted` | examples/zigbee/artik_zigbee_common.c:300-361 | The three questions accept exactly 11..26, 0..8 and 0..0xFFFF of the typed numbers, and an empty line as 25, 2 and 0x1234 |
| `NumberReader.PrefixIgnored` | examples/zigbee/artik_zigbee_common.c:93-116 | Non-digits, a minus sign among them, before a number do not matter |
| `NumberReader.DefaultIffNoDigit` | examples/zigbee/artik_zigbee_common.c:93-116 | The default matters exactly when every digit stands behind a NUL or newline, and then it is the answer; every other answer is non-negative |
| `NumberReader.TxAnswersAreNonNegative` | examples/zigbee/artik_zigbee_common.c:321-340 | Of the offered range -9..8 exactly 0..8 can be entered, with or without a sign |
| `NumberReader.DigitRun` | examples/zigbee/artik_zigbee_common.c:72-91 | The longest prefix of digits |
| `NumberReader.Scan` | examples/zigbee/artik_zigbee_common.c:93-103 | The first digit, NUL or newline |
| `Radix.DigitsValue` | examples/zigbee/artik_zigbee_common.c:72-91 | The digits of a number denote it |
| `Radix.ValueInjective` | examples/spi/artik_spi_example.c:125-139 | Digit strings of one length with one value are equal |
| `SpiHex.HexStringToArray` | examples/spi/artik_spi_example.c:76-144 | Succeeds exactly when all non-space characters are hex digits and there are some (or malloc(0) gives a pointer); then half as many bytes, rounded up, with the value of the digits; on failure no buffer is left |
| `SpiHex.Compact` | examples/spi/artik_spi_example.c:91-96 | The white space is removed in place, the order kept |
| `SpiHex.EvenedSame` | examples/spi/artik_spi_example.c:98-115 | The zero before an odd number of digits changes neither validity nor value |
| `SpiHex.ConvertPairs` | examples/spi/artik_spi_example.c:124-139 | The pair loop gives a buffer exactly for hex digits, with their value |
| `SpiHex.SpellsOne` | examples/spi/artik_spi_example.c:76-144 | The text determines the bytes |
| `SpiHex.CaseDoesNotMatter` | examples/spi/artik_spi_example.c:76-144 | Texts that differ only in the case of their letters spell the same bytes |
| `SpiHex.WrittenSpells` | examples/spi/artik_spi_example.c:76-144 | A text of given hex digits in either case, with white space anywhere, spells exactly the bytes of that number |
| `SpiHex.PackedChar` | examples/spi/artik_spi_example.c:91-96 | White space is the six characters of the C locale |
| `SpiHex.PrintBuffer` | examples/spi/artik_spi_example.c:196-233 | The nested loops print the dump: rows of 16, gaps after every fourth column, blanks in a short last row, printable characters |
| `SpiHex.LineLayout` | examples/spi/artik_spi_example.c:196-233 | Where char is unsigned, each byte has its two upper-case digits at its column and a space behind them, and in the text column stands at its place as its character, or as a dot if it is not in 0x20..0x7E |
| `SpiHex.SignExtended` | examples/spi/artik_spi_example.c:213 | Where char is signed, a byte above 0x7F is printed as 0xFFFFFF00 plus the byte |
| `SpiHex.PackedColumns` | examples/spi/artik_spi_example.c:208-222 | Without white space the hex columns of all rows are the bytes in order, two digits each, eight for a sign-extended one |
| `SpiHex.DumpIsHex` | examples/spi/artik_spi_example.c:208-222 | The columns of every dump are accepted by the parser, except of an empty buffer where malloc(0) gives none |
| `SpiHex.DumpParseIff` | examples/spi/artik_spi_example.c:76-233 | Parsing the hex columns of a dump gives the buffer back if and only if char is unsigned or no byte is above 0x7F; otherwise each such byte adds three |
| `SpiHex.CutDump` | examples/spi/artik_spi_example.c:196-233 | Where char is unsigned, the hex columns can be cut out of the printed text by their width alone: 52 characters per line of a long dump, 3n+n/4 of a short one |
| `SpiHex.PrintedTextIsParsedBack` | examples/spi/artik_spi_example.c:76-233 | Where char is unsigned, the printed text cut to its columns spells exactly the bytes of the buffer and no others |
| `JsonField.ParseJsonObject` | examples/cloud/artik_cloud_example.c:295-324 | The search and the copy loop compute the specification function; a missing end token, where the C loop runs past the text, is told apart |
| `JsonField.StrStr` | examples/cloud/artik_cloud_example.c:303-309 | Stops at the first occurrence |
| `JsonField.EndOf` | examples/cloud/artik_cloud_example.c:316-318 | The count loop stops at the first end token |
| `JsonField.ExtractionUndoesPrinting` | examples/cloud/artik_cloud_example.c:295-324 | From a compact object of strings, bare values (numbers, true, false, null) and flat objects, the first field with the key in document order decides: nothing is found exactly if there is none, its text is returned if and only if it is not bare, and the loop runs past the end of the text if and only if it is bare and the last field of all |
| `JsonField.BareIsMisread` | examples/cloud/artik_cloud_example.c:310-321 | A bare value is never returned as it stands, and the loop runs past the end exactly when no quote follows |
| `JsonField.InPairs` | examples/cloud/artik_cloud_example.c:295-324 | Inside an object the first pair with the key decides, and without one the search goes on behind it |
| `JsonField.SkipQuoted` | examples/cloud/artik_cloud_example.c:301-304 | A quoted text that is not the key, or is a value, never starts a match |
| `JsonField.InnerFieldFound` | examples/cloud/artik_cloud_example.c:727-740 | Applied to data and then to an inner key, the first inner field decides in the same way, even if the response has the key elsewhere |
| `JsonField.ErrorHidesData` | examples/cloud/artik_cloud_example.c:326-342 | From a response that has an error no data is taken, and with an error object the loop runs past the end exactly for a bare last message |
| `JsonField.OverlongKeyMisread` | examples/cloud/artik_cloud_example.c:298-301 | At a key too long for the 256-byte prefix buffer what is copied does not depend on the value |
| `JsonField.RightIffKeyFits` | examples/cloud/artik_cloud_example.c:298-301 | The extraction is right on every object if and only if the prefix fits its buffer |
| `SigningTime.ParseInt` | examples/security/pkcs7_sig_verify/pkcs7_sig_verify.c:145-157 | Advances over exactly n digits and gives their value, wrapped to an unsigned int, or fails at the first other character |
| `SigningTime.WrapOnce` | examples/security/pkcs7_sig_verify/pkcs7_sig_verify.c:152-153 | Wrapping at every step gives what wrapping the number once gives |
| `SigningTime.ParseDateOption` | examples/security/pkcs7_sig_verify/pkcs7_sig_verify.c:222-300 | Fills the six fields in order; the first bad one decides; no character beyond the nineteenth is read |
| `SigningTime.DateReads` | examples/security/pkcs7_sig_verify/pkcs7_sig_verify.c:222-300 | A date that is accepted is read month first, then day, year, hour, minute and second, each by the digits at its place |
| `SigningTime.FailsAtFirstBadField` | examples/security/pkcs7_sig_verify/pkcs7_sig_verify.c:222-300 | A date is too short exactly below 19 characters, and fails at exactly the first field that is not written in digits |
| `SigningTime.PrintParseIff` | examples/security/pkcs7_sig_verify/pkcs7_sig_verify.c:94-300 | Parsing what was printed gives the time back if and only if every field fits its width |
| `SigningTime.ParsePrintIff` | examples/security/pkcs7_sig_verify/pkcs7_sig_verify.c:94-300 | Printing a parsed date gives its first 19 characters back if and only if the separators were the right ones |
| `SigningTime.OnlyNineteenRead` | examples/security/pkcs7_sig_verify/pkcs7_sig_verify.c:222-300 | Nothing behind the nineteenth character matters |
| `SigningTime.PrintedField` | examples/security/pkcs7_sig_verify/pkcs7_sig_verify.c:94-98 | A zero-padded field has its width and denotes its number |
| `SigningTime.PrintedAnyField` | examples/security/pkcs7_sig_verify/pkcs7_sig_verify.c:94-98 | A field of any value: the number in decimal, or from 2^31 on a minus sign and what is missing to 2^32, never shorter than the width |
| `Illuminance.ClosedForm` | examples/zigbee/artik_zigbee_example.c:508-519 | After j passes min is 100+50*(j mod 99) and max 10000-50*(j mod 99), so min < max; the value is between them, and is given by a closed form of its own |
| `Illuminance.TestKeepsRange` | examples/zigbee/artik_zigbee_example.c:505-519 | A test over any devices with any answers keeps all ranges and values ever sent as the closed form says |
| `Illuminance.IlluminanceTest.MakePass` | examples/zigbee/artik_zigbee_example.c:505-560 | The statics move on before the device is asked; range and value sent are those of the pass, whatever the device answers |
| `Illuminance.IlluminanceTest.Test` | examples/zigbee/artik_zigbee_example.c:478-568 | One pass for each sensor in registry order up to the first failure, over any number of calls; without a sensor ENotSupported |
| `Illuminance.TestCourse` | examples/zigbee/artik_zigbee_example.c:478-568 | The sensors are asked in order, once each, until one fails; the value is sent to those that took the range and answered; the last one asked decides the result |
| `Illuminance.SensorsAre` | examples/zigbee/artik_zigbee_example.c:484-506 | The sensors are the light sensors of the registry in its order |

## Left out

- MenuProofs.StepKeepsRegistry: only for a saved record this program can have written; the resume path checks no duplicate ids, and a record with duplicates gives a registry with duplicates.
- NumberReader.ReadInt: numbers are unbounded; overflow of the C int is not modelled.
- NumberReader.ReadNumeral: numbers are unbounded; overflow of the C int is not modelled.
- MenuProofs.RunKeepsGood: only pending timers fire and a new timer id is not one of the pending ones, which is what the loop guarantees; timers of other users of the loop are not modelled.
- ArtikList.List.Cpy: a copy callback is a function of the data of the old node, so a callback that changes handle, size or links of the new node is not modelled.
- ArtikList.List.Remove: a clear callback is only logged, so one that changes the list or its nodes is not modelled.
- ArtikList.List.Add: allocation never fails; null list pointers are not modelled, since a list object always exists; a default handle is a value of its own and never equals a chosen number.
- Illuminance.IlluminanceTest.Test: the value a device answers with is only printed by the code and is not modelled.
- JsonField.ExtractionUndoesPrinting: objects without white space and one level of nesting; arrays and escaped quotes are not in the printed objects.
- SpiHex.PrintBuffer: characters are printed as in the C locale, and a byte above 0x7F is shown as a dot.
- ZigbeeExample.Example.FuncMain: the device information and the identify, on/off, level and remote control tests change none of the modelled statics and appear as no change.
- ZigbeeExample.Example.FuncNetwork: the commands that only call the daemon or print (show, start, leave, permit join, discover, the local reset before `e` quits) change none of the statics and appear as no change.
- ZigbeeExample.Example.OnCommissioningStatus: the flags initiator_reminder and conducted_by_commissioning, which only choose what is printed and whether a join is followed by a discover, are not modelled.
- ZigbeeExample.Example.OnKeyboardReceived: a line is any non-empty text; events that arrive after the loop was told to quit are ignored.
- ZigbeeExample.Example.RunLoop: the release of the devices after the loop is Registry.TestDevices.ReleaseAll and not part of the run.
- The module headers that only declare function pointers (cloud, http, mqtt, lwm2m, coap, bluetooth, wifi, sensors, security): daemon and device calls are parameters of the events instead.
- Prompts, sleeping, command line parsing, file reading and the error message table.
- Freeing of device and timer payloads, which the registry itself does not do.
- The other dump of the security examples, which is the SPI dump with a different row copy.
