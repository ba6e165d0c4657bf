/** The two EZ-mode commissioning machines of examples/zigbee/artik_zigbee_example.c as
    state transitions, for a fixed list of devices, and what every run of them keeps. */
module Commissioning {
  import opened Base
  import opened Devices

  const RETRY_COUNT := 5

  // A call made to a device (by its position) or to the daemon.
  datatype Call = StartCall(index: nat) | StopCall(index: nat) | DiscoverCall

  // What add_timeout_callback did: whether a timer was registered, and the id left in the
  // caller's variable, which add_timer returns without looking at the error code.
  datatype TimerReply = TimerReply(registered: bool, id: int)

  // The environment's answers to the calls one command can make.
  datatype Replies = Replies(start: Error, stop: Error, discover: Error, timer: TimerReply)

  datatype Outcome<S> = Outcome(state: S, ret: Error)

  // ---- Target ----

  datatype TargetCommand = TargetBegin | TargetHalt | TargetTimeout | TargetSuccess | TargetFailure

  // The statics cs_target_testing, cs_target_testing_index and cs_target_timeout_id, with the
  // history: the loop's pending one-shot timers (id -> number of the arming), the device each
  // arming was made for, whether the newest arming was registered, the devices tried since
  // the last START, and all calls made.
  datatype TargetState = TargetState(
    testing: bool, index: int, timeoutId: int,
    pending: map<int, nat>, armings: seq<int>, live: bool,
    tried: seq<nat>, log: seq<Call>)

  const IDLE_TARGET := TargetState(false, -1, -1, map[], [], false, [], [])

  function Arm(s: TargetState, index: nat, t: TimerReply): TargetState {
    var s1 := s.(
      index := index,
      pending := if t.registered then s.pending[t.id := |s.armings|] else s.pending,
      armings := s.armings + [index]);
    if t.id > 0 then s1.(timeoutId := t.id, testing := true, live := t.registered)
    else s1.(testing := false)
  }

  function TargetStart(s: TargetState, devs: seq<TestDevice>, from: nat, r: Replies): Outcome<TargetState>
    requires from <= |devs|
  {
    if NoneSupports(devs, Target) then Outcome(s, ENotSupported)
    else
      var i := NextSupporting(devs, Target, from);
      if i < |devs| && r.start == SOk then
        Outcome(Arm(s.(tried := s.tried + [i], log := s.log + [StartCall(i)]), i, r.timer), SOk)
      else
        var s1 := if i < |devs| then s.(tried := s.tried + [i], log := s.log + [StartCall(i)]) else s;
        Outcome(Ended(s1), r.discover)
  }

  // No more test devices: the timer is removed and the daemon told to discover.
  function Ended(s: TargetState): TargetState {
    s.(testing := false, index := -1, pending := s.pending - {s.timeoutId}, log := s.log + [DiscoverCall])
  }

  function TargetRun(s: TargetState, devs: seq<TestDevice>, cmd: TargetCommand, r: Replies): Outcome<TargetState> {
    if !s.testing then
      if cmd.TargetBegin? then TargetStart(s.(tried := []), devs, 0, r) else Outcome(s, SOk)
    else if s.index < 0 || s.index >= |devs| then
      Outcome(s.(testing := false), EInvalidValue)
    else
      match cmd
      case TargetBegin => TargetStart(s.(tried := []), devs, 0, r)
      case TargetHalt => Outcome(s.(testing := false, log := s.log + [StopCall(s.index)]), r.stop)
      case TargetTimeout => TargetStart(s.(log := s.log + [StopCall(s.index)]), devs, s.index + 1, r)
      case TargetSuccess => Outcome(s, SOk)
      case TargetFailure => TargetStart(s, devs, s.index + 1, r)
  }

  // A pending timer fires: the loop forgets it, and the callback acts only on a matching id.
  function TimerFires(s: TargetState, devs: seq<TestDevice>, id: int, r: Replies): TargetState {
    var s1 := s.(pending := s.pending - {id});
    if s.timeoutId == id then TargetRun(s1, devs, TargetTimeout, r).state else s1
  }

  // ---- Initiator ----

  datatype InitiatorCommand = InitiatorBegin | InitiatorHalt | InitiatorSuccess | InitiatorFailure

  // cs_initiator_testing, cs_initiator_testing_index, cs_initiator_retry, and the history.
  datatype InitiatorState = InitiatorState(
    testing: bool, index: int, retry: int, tried: seq<nat>, log: seq<Call>)

  const IDLE_INITIATOR := InitiatorState(false, -1, 0, [], [])

  function InitiatorStart(s: InitiatorState, devs: seq<TestDevice>, from: nat, retry: int, r: Replies)
    : Outcome<InitiatorState>
    requires from <= |devs|
  {
    if NoneSupports(devs, Initiator) then Outcome(s, ENotSupported)
    else
      var i := NextSupporting(devs, Initiator, from);
      var s1 := if i < |devs| then s.(tried := s.tried + [i], log := s.log + [StartCall(i)]) else s;
      if i < |devs| && r.start == SOk then Outcome(Started(s1, i, retry), SOk)
      else Outcome(Finished(s1), r.discover)
  }

  function Started(s: InitiatorState, i: nat, retry: int): InitiatorState {
    s.(testing := true, index := i, retry := retry)
  }

  // No more test devices: the daemon is told to discover.
  function Finished(s: InitiatorState): InitiatorState {
    s.(testing := false, index := -1, log := s.log + [DiscoverCall])
  }

  function InitiatorRun(s: InitiatorState, devs: seq<TestDevice>, cmd: InitiatorCommand, r: Replies)
    : Outcome<InitiatorState>
  {
    if !s.testing then
      if cmd.InitiatorBegin? then InitiatorStart(s.(tried := []), devs, 0, RETRY_COUNT, r)
      else Outcome(s, SOk)
    else if s.index < 0 || s.index >= |devs| then
      Outcome(s.(testing := false), EInvalidValue)
    else
      match cmd
      case InitiatorBegin => InitiatorStart(s.(tried := []), devs, 0, RETRY_COUNT, r)
      case InitiatorHalt => Outcome(s.(testing := false, log := s.log + [StopCall(s.index)]), r.stop)
      case InitiatorSuccess => InitiatorStart(s, devs, s.index + 1, RETRY_COUNT, r)
      case InitiatorFailure =>
        if s.retry > 0 then InitiatorStart(s.(retry := s.retry - 1), devs, s.index, s.retry - 1, r)
        else InitiatorStart(s.(retry := s.retry - 1), devs, s.index + 1, RETRY_COUNT, r)
  }

  // ---- The order in which devices are tried ----

  function Last(xs: seq<nat>): nat
    requires xs != []
  {
    xs[|xs| - 1]
  }

  // How often d was tried.
  function Times(tried: seq<nat>, d: nat): nat {
    if tried == [] then 0
    else Times(tried[..|tried| - 1], d) + (if Last(tried) == d then 1 else 0)
  }

  lemma TimesSnoc(tried: seq<nat>, i: nat, d: nat)
    ensures Times(tried + [i], d) == Times(tried, d) + (if i == d then 1 else 0)
  {
    assert (tried + [i])[..|tried|] == tried;
  }

  lemma {:induction false} TimesZero(tried: seq<nat>, d: nat)
    requires d !in tried
    ensures Times(tried, d) == 0
  {
    if tried != [] { TimesZero(tried[..|tried| - 1], d); }
  }

  ghost predicate Increasing(tried: seq<nat>) {
    forall i, j :: 0 <= i < j < |tried| ==> tried[i] <= tried[j]
  }

  // Exactly the supporting devices up to the last one tried.
  ghost predicate NoneSkipped(tried: seq<nat>, devs: seq<TestDevice>, role: Role) {
    && (forall i :: 0 <= i < |tried| ==> tried[i] < |devs| && Supports(devs[tried[i]], role))
    && (tried != [] ==> forall d :: 0 <= d <= Last(tried) < |devs| && Supports(devs[d], role) ==> d in tried)
  }

  // Supporting devices in increasing order, none skipped, each at most `bound` times.
  ghost predicate InOrder(tried: seq<nat>, devs: seq<TestDevice>, role: Role, bound: nat) {
    && NoneSkipped(tried, devs, role)
    && Increasing(tried)
    && forall d :: Times(tried, d) <= bound
  }

  // The device tried next: the current one again, or the next supporting one.
  ghost predicate Continues(tried: seq<nat>, devs: seq<TestDevice>, role: Role, bound: nat, i: nat) {
    && i < |devs| && Supports(devs[i], role)
    && if tried == [] then i == NextSupporting(devs, role, 0)
       else
         var last := Last(tried);
         last < |devs| && ((i == last && Times(tried, i) < bound) || i == NextSupporting(devs, role, last + 1))
  }

  lemma TryNext(tried: seq<nat>, devs: seq<TestDevice>, role: Role, bound: nat, i: nat)
    requires InOrder(tried, devs, role, bound) && bound > 0
    requires Continues(tried, devs, role, bound, i)
    ensures InOrder(tried + [i], devs, role, bound)
    ensures Times(tried + [i], i) == Times(tried, i) + 1
    ensures tried == [] || i > Last(tried) ==> Times(tried, i) == 0
  {
    NoneSkippedNext(tried, devs, role, bound, i);
    IncreasingNext(tried, devs, role, bound, i);
    if tried == [] || i > Last(tried) { TimesZero(tried, i); }
    hide NextSupporting, Supports, NoneSkipped, Increasing, Times;
    forall d ensures Times(tried + [i], d) <= bound { TimesSnoc(tried, i, d); }
    TimesSnoc(tried, i, i);
  }

  lemma IncreasingNext(tried: seq<nat>, devs: seq<TestDevice>, role: Role, bound: nat, i: nat)
    requires Increasing(tried) && Continues(tried, devs, role, bound, i)
    ensures Increasing(tried + [i])
    ensures tried == [] || i > Last(tried) ==> i !in tried
    ensures tried != [] && i <= Last(tried) ==> i == Last(tried) && Times(tried, i) < bound
  {
    hide Supports, Times;
    assert tried != [] ==> forall k :: 0 <= k < |tried| ==> tried[k] <= tried[|tried| - 1];
  }

  lemma NoneSkippedNext(tried: seq<nat>, devs: seq<TestDevice>, role: Role, bound: nat, i: nat)
    requires NoneSkipped(tried, devs, role)
    requires Continues(tried, devs, role, bound, i)
    ensures NoneSkipped(tried + [i], devs, role)
  {
    var t := tried + [i];
    assert t[|tried|] == i;
    forall d | 0 <= d <= i && Supports(devs[d], role) ensures d in t {
      if d != i { assert tried != [] && d <= Last(tried) && d in tried; }
    }
  }

  ghost function SupportSet(devs: seq<TestDevice>, role: Role): set<nat> {
    set i: nat | i < |devs| && Supports(devs[i], role)
  }

  lemma {:induction false} BoundedMultiset(m: multiset<nat>, s: set<nat>, bound: nat)
    requires forall x :: x in m ==> x in s
    requires forall x :: x in m ==> m[x] <= bound
    ensures |m| <= bound * |s|
    decreases s
  {
    if s == {} {
      assert m == multiset{};
    } else {
      var x :| x in s;
      var m' := m[x := 0];
      BoundedMultiset(m', s - {x}, bound);
      assert |m| == |m'| + m[x];
      assert |s - {x}| == |s| - 1;
      assert bound * |s| == bound * (|s| - 1) + bound;
    }
  }

  lemma {:induction false} TimesIsMultiplicity(tried: seq<nat>, d: nat)
    ensures multiset(tried)[d] == Times(tried, d)
  {
    if tried != [] {
      TimesIsMultiplicity(tried[..|tried| - 1], d);
      assert tried == tried[..|tried| - 1] + [Last(tried)];
    }
  }

  // At most `bound` start calls per supporting device in one run.
  lemma RunLength(tried: seq<nat>, devs: seq<TestDevice>, role: Role, bound: nat)
    requires InOrder(tried, devs, role, bound)
    ensures |tried| <= bound * |SupportSet(devs, role)|
  {
    forall d | d in multiset(tried) ensures d in SupportSet(devs, role) && multiset(tried)[d] <= bound {
      TimesIsMultiplicity(tried, d);
      assert d in tried;
    }
    BoundedMultiset(multiset(tried), SupportSet(devs, role), bound);
  }

  function Discoveries(log: seq<Call>): nat {
    if log == [] then 0
    else Discoveries(log[..|log| - 1]) + (if log[|log| - 1].DiscoverCall? then 1 else 0)
  }

  // The devices started, in order.
  function StartsOf(log: seq<Call>): seq<nat> {
    if log == [] then []
    else
      var last := log[|log| - 1];
      StartsOf(log[..|log| - 1]) + if last.StartCall? then [last.index] else []
  }

  lemma CallSnoc(log: seq<Call>, c: Call)
    ensures Discoveries(log + [c]) == Discoveries(log) + (if c.DiscoverCall? then 1 else 0)
    ensures StartsOf(log + [c]) == StartsOf(log) + (if c.StartCall? then [c.index] else [])
  {
    assert (log + [c])[..|log|] == log;
  }

  // The call patterns a single command can append.
  lemma CallsAlong(log: seq<Call>, i: nat)
    ensures Discoveries(log + [DiscoverCall]) == Discoveries(log) + 1
    ensures StartsOf(log + [DiscoverCall]) == StartsOf(log)
    ensures Discoveries(log + [StartCall(i)]) == Discoveries(log)
    ensures StartsOf(log + [StartCall(i)]) == StartsOf(log) + [i]
    ensures Discoveries(log + [StartCall(i)] + [DiscoverCall]) == Discoveries(log) + 1
    ensures StartsOf(log + [StartCall(i)] + [DiscoverCall]) == StartsOf(log) + [i]
    ensures Discoveries(log + [StopCall(i)]) == Discoveries(log)
    ensures StartsOf(log + [StopCall(i)]) == StartsOf(log)
  {
    CallSnoc(log, DiscoverCall);
    CallSnoc(log, StartCall(i));
    CallSnoc(log, StopCall(i));
    CallSnoc(log + [StartCall(i)], DiscoverCall);
    hide Discoveries, StartsOf;
  }

  ghost predicate AllTried(tried: seq<nat>, devs: seq<TestDevice>, role: Role) {
    forall d :: 0 <= d < |devs| && Supports(devs[d], role) ==> d in tried
  }

  lemma SomeSupports(devs: seq<TestDevice>, role: Role)
    requires !NoneSupports(devs, role)
    ensures NextSupporting(devs, role, 0) < |devs|
  {
    var i :| 0 <= i < |devs| && Supports(devs[i], role);
    hide Supports;
    assert NextSupporting(devs, role, 0) <= i;
  }

  // Nothing is left behind the last device tried.
  lemma NoneLeft(tried: seq<nat>, devs: seq<TestDevice>, role: Role, bound: nat)
    requires InOrder(tried, devs, role, bound) && tried != []
    ensures Last(tried) < |devs| && Supports(devs[Last(tried)], role)
    ensures NextSupporting(devs, role, Last(tried)) == Last(tried)
    ensures NextSupporting(devs, role, Last(tried) + 1) == |devs| ==> AllTried(tried, devs, role)
  {
    assert tried[|tried| - 1] < |devs|;
  }

  // ---- Initiator: invariant, progress, bounds ----

  ghost predicate InitiatorInv(s: InitiatorState, devs: seq<TestDevice>) {
    && InOrder(s.tried, devs, Initiator, RETRY_COUNT + 1)
    && (s.testing ==>
          && s.tried != [] && s.index == Last(s.tried)
          && 0 <= s.retry <= RETRY_COUNT
          && Times(s.tried, s.index) == RETRY_COUNT + 1 - s.retry)
  }

  lemma InitiatorTestingIndexIsValid(s: InitiatorState, devs: seq<TestDevice>)
    requires InitiatorInv(s, devs) && s.testing
    ensures 0 <= s.index < |devs| && Supports(devs[s.index], Initiator)
    ensures !NoneSupports(devs, Initiator)
  {
  }

  // Starting where the order allows, with the budget the tries so far leave.
  lemma InitiatorStartKeepsInv(s: InitiatorState, devs: seq<TestDevice>, from: nat, retry: int, r: Replies)
    requires from <= |devs| && !NoneSupports(devs, Initiator)
    requires InOrder(s.tried, devs, Initiator, RETRY_COUNT + 1)
    requires if s.tried == [] then from == 0 else
      var last := Last(s.tried);
      last < |devs| && Supports(devs[last], Initiator) &&
      ((from == last && Times(s.tried, last) == RETRY_COUNT - retry) || from == last + 1)
    requires 0 <= retry <= RETRY_COUNT
    requires s.tried == [] || from > Last(s.tried) ==> retry == RETRY_COUNT
    ensures InitiatorInv(InitiatorStart(s, devs, from, retry, r).state, devs)
  {
    var i := NextSupporting(devs, Initiator, from);
    var out := InitiatorStart(s, devs, from, retry, r).state;
    if i < |devs| {
      TryNext(s.tried, devs, Initiator, RETRY_COUNT + 1, i);
      var s1 := s.(tried := s.tried + [i], log := s.log + [StartCall(i)]);
      assert out == if r.start == SOk then Started(s1, i, retry) else Finished(s1);
    }
  }

  // Every command keeps the invariant: while testing, the index is a supporting device and the
  // retry budget is exactly what the tries of that device have left.
  lemma InitiatorKeepsInv(s: InitiatorState, devs: seq<TestDevice>, cmd: InitiatorCommand, r: Replies)
    requires InitiatorInv(s, devs)
    ensures InitiatorInv(InitiatorRun(s, devs, cmd, r).state, devs)
  {
    if cmd.InitiatorBegin? {
      InitiatorRestart(s, devs, r);
    } else if s.testing {
      InitiatorContinues(s, devs, cmd, r);
    }
  }

  lemma InitiatorRestart(s: InitiatorState, devs: seq<TestDevice>, r: Replies)
    requires InitiatorInv(s, devs)
    ensures InitiatorInv(InitiatorRun(s, devs, InitiatorBegin, r).state, devs)
  {
    if s.testing { InitiatorTestingIndexIsValid(s, devs); }
    var s1 := s.(tried := []);
    if NoneSupports(devs, Initiator) {
      assert InOrder(s1.tried, devs, Initiator, RETRY_COUNT + 1);
    } else {
      InitiatorStartKeepsInv(s1, devs, 0, RETRY_COUNT, r);
    }
  }

  lemma InitiatorContinues(s: InitiatorState, devs: seq<TestDevice>, cmd: InitiatorCommand, r: Replies)
    requires InitiatorInv(s, devs) && s.testing && !cmd.InitiatorBegin?
    ensures InitiatorInv(InitiatorRun(s, devs, cmd, r).state, devs)
  {
    hide *;
    match cmd {
      case InitiatorHalt => HaltKeepsInv(s, devs, r);
      case InitiatorSuccess => SuccessKeepsInv(s, devs, r);
      case InitiatorFailure => FailureKeepsInv(s, devs, r);
    }
  }

  lemma HaltKeepsInv(s: InitiatorState, devs: seq<TestDevice>, r: Replies)
    requires InitiatorInv(s, devs) && s.testing
    ensures InitiatorInv(InitiatorRun(s, devs, InitiatorHalt, r).state, devs)
  {
    InitiatorTestingIndexIsValid(s, devs);
    InitiatorHalts(s, devs);
    hide InitiatorStart, InitiatorInv;
  }

  lemma SuccessKeepsInv(s: InitiatorState, devs: seq<TestDevice>, r: Replies)
    requires InitiatorInv(s, devs) && s.testing
    ensures InitiatorInv(InitiatorRun(s, devs, InitiatorSuccess, r).state, devs)
  {
    hide InitiatorStart, InitiatorInv, Supports, NoneSupports;
    InitiatorTestingIndexIsValid(s, devs);
    InitiatorMovesOn(s, devs, r);
  }

  lemma FailureKeepsInv(s: InitiatorState, devs: seq<TestDevice>, r: Replies)
    requires InitiatorInv(s, devs) && s.testing
    ensures InitiatorInv(InitiatorRun(s, devs, InitiatorFailure, r).state, devs)
  {
    hide InitiatorStart, InitiatorInv, Supports, NoneSupports;
    InitiatorTestingIndexIsValid(s, devs);
    if s.retry > 0 { InitiatorRetries(s, devs, r); } else { InitiatorGivesUp(s, devs, r); }
  }

  lemma InitiatorMovesOn(s: InitiatorState, devs: seq<TestDevice>, r: Replies)
    requires InitiatorInv(s, devs) && s.testing && 0 <= s.index < |devs|
    ensures InitiatorInv(InitiatorStart(s, devs, s.index + 1, RETRY_COUNT, r).state, devs)
  {
    InitiatorTestingIndexIsValid(s, devs);
    InitiatorStartKeepsInv(s, devs, s.index + 1, RETRY_COUNT, r);
  }

  lemma InitiatorHalts(s: InitiatorState, devs: seq<TestDevice>)
    requires InitiatorInv(s, devs) && s.testing && s.index >= 0
    ensures 0 <= s.retry <= RETRY_COUNT
    ensures InitiatorInv(s.(testing := false, log := s.log + [StopCall(s.index)]), devs)
  {
  }

  lemma InitiatorRetries(s: InitiatorState, devs: seq<TestDevice>, r: Replies)
    requires InitiatorInv(s, devs) && s.testing && 0 <= s.index < |devs| && s.retry > 0
    ensures InitiatorInv(InitiatorStart(s.(retry := s.retry - 1), devs, s.index, s.retry - 1, r).state, devs)
  {
    InitiatorTestingIndexIsValid(s, devs);
    InitiatorStartKeepsInv(s.(retry := s.retry - 1), devs, s.index, s.retry - 1, r);
  }

  lemma InitiatorGivesUp(s: InitiatorState, devs: seq<TestDevice>, r: Replies)
    requires InitiatorInv(s, devs) && s.testing && 0 <= s.index < |devs|
    ensures InitiatorInv(InitiatorStart(s.(retry := s.retry - 1), devs, s.index + 1, RETRY_COUNT, r).state, devs)
  {
    InitiatorTestingIndexIsValid(s, devs);
    InitiatorStartKeepsInv(s.(retry := s.retry - 1), devs, s.index + 1, RETRY_COUNT, r);
  }

  // Without a new START a run only moves forward: each SUCCESS or FAILED either ends it or
  // lowers (devices left, retries left) lexicographically, by exactly one more start call.
  lemma InitiatorProgress(s: InitiatorState, devs: seq<TestDevice>, cmd: InitiatorCommand, r: Replies)
    requires InitiatorInv(s, devs) && s.testing
    requires cmd.InitiatorSuccess? || cmd.InitiatorFailure?
    ensures var s' := InitiatorRun(s, devs, cmd, r).state;
      s'.testing ==>
        && (s'.index > s.index || (s'.index == s.index && s'.retry == s.retry - 1))
        && |s'.tried| == |s.tried| + 1
    ensures var s' := InitiatorRun(s, devs, cmd, r).state;
      cmd.InitiatorSuccess? && s'.testing ==> s'.index > s.index
  {
    InitiatorTestingIndexIsValid(s, devs);
    assert NextSupporting(devs, Initiator, s.index) == s.index;
  }

  // A start makes at most one start call, and it makes one discovery exactly when it does not
  // leave the machine testing; if the device then did not refuse, no device was left.
  lemma InitiatorStartEnds(s: InitiatorState, devs: seq<TestDevice>, from: nat, retry: int, r: Replies)
    requires from <= |devs| && !NoneSupports(devs, Initiator)
    ensures var s', i := InitiatorStart(s, devs, from, retry, r).state, NextSupporting(devs, Initiator, from);
      && (s'.testing <==> i < |devs| && r.start == SOk)
      && s'.tried == s.tried + (if i < |devs| then [i] else [])
      && StartsOf(s'.log) == StartsOf(s.log) + (if i < |devs| then [i] else [])
      && Discoveries(s'.log) == Discoveries(s.log) + (if s'.testing then 0 else 1)
  {
    CallsAlong(s.log, NextSupporting(devs, Initiator, from));
    hide StartsOf, Discoveries, NextSupporting;
  }

  // What a command that is not STOP makes of a run: one discovery if it ends it, and then,
  // unless a start was refused, every supporting device has been tried.
  ghost predicate InitiatorEndsWell(s: InitiatorState, s': InitiatorState, devs: seq<TestDevice>, start: Error) {
    && Discoveries(s'.log) == Discoveries(s.log) + (if s'.testing then 0 else 1)
    && (!s'.testing && start == SOk ==> AllTried(s'.tried, devs, Initiator))
  }

  // Going on from the last device tried, with the same one or the next.
  lemma InitiatorGoesOn(s: InitiatorState, devs: seq<TestDevice>, from: nat, retry: int, r: Replies)
    requires InOrder(s.tried, devs, Initiator, RETRY_COUNT + 1) && s.tried != []
    requires from == Last(s.tried) || from == Last(s.tried) + 1
    ensures from <= |devs| && InitiatorEndsWell(s, InitiatorStart(s, devs, from, retry, r).state, devs, r.start)
  {
    NoneLeft(s.tried, devs, Initiator, RETRY_COUNT + 1);
    InitiatorStartEnds(s, devs, from, retry, r);
    hide InitiatorStart, InOrder, AllTried, Discoveries, StartsOf;
    assert s.tried + [] == s.tried;
  }

  // Beginning again: a device is there to be tried.
  lemma InitiatorBeginsAgain(s: InitiatorState, devs: seq<TestDevice>, r: Replies)
    requires !NoneSupports(devs, Initiator)
    ensures InitiatorEndsWell(s, InitiatorStart(s.(tried := []), devs, 0, RETRY_COUNT, r).state, devs, r.start)
  {
    InitiatorStartEnds(s.(tried := []), devs, 0, RETRY_COUNT, r);
    SomeSupports(devs, Initiator);
    hide InitiatorStart, Discoveries, StartsOf, Supports, NextSupporting, NoneSupports, AllTried;
  }

  // How a run ends: by STOP, without discovery, or with exactly one discovery, after a refused
  // start or with every supporting device tried.
  lemma InitiatorEnd(s: InitiatorState, devs: seq<TestDevice>, cmd: InitiatorCommand, r: Replies)
    requires InitiatorInv(s, devs) && s.testing
    ensures var s' := InitiatorRun(s, devs, cmd, r).state;
      if cmd.InitiatorHalt? then
        !s'.testing && s'.log == s.log + [StopCall(s.index)] && Discoveries(s'.log) == Discoveries(s.log)
      else InitiatorEndsWell(s, s', devs, r.start)
  {
    InitiatorTestingIndexIsValid(s, devs);
    var s1 := s.(retry := s.retry - 1);
    match cmd {
      case InitiatorBegin => InitiatorBeginsAgain(s, devs, r);
      case InitiatorHalt => CallsAlong(s.log, s.index);
      case InitiatorSuccess => InitiatorGoesOn(s, devs, s.index + 1, RETRY_COUNT, r);
      case InitiatorFailure =>
        if s.retry > 0 {
          InitiatorGoesOn(s1, devs, s.index, s.retry - 1, r);
        } else {
          InitiatorGoesOn(s1, devs, s.index + 1, RETRY_COUNT, r);
        }
    }
    hide InitiatorStart, InOrder, Discoveries, StartsOf, NoneSupports, AllTried, NextSupporting;
  }

  // Either nothing is tried and nothing started, or one more device is tried and started.
  ghost predicate LogsTry(log: seq<Call>, log': seq<Call>, tried: seq<nat>, tried': seq<nat>) {
    || (tried' == tried && StartsOf(log') == StartsOf(log))
    || (tried' != [] && tried' == tried + [Last(tried')] && StartsOf(log') == StartsOf(log) + [Last(tried')])
  }

  lemma InitiatorStartLogs(s: InitiatorState, devs: seq<TestDevice>, from: nat, retry: int, r: Replies)
    requires from <= |devs|
    ensures var s' := InitiatorStart(s, devs, from, retry, r).state; LogsTry(s.log, s'.log, s.tried, s'.tried)
  {
    if !NoneSupports(devs, Initiator) {
      InitiatorStartEnds(s, devs, from, retry, r);
      hide InitiatorStart, StartsOf, NextSupporting, NoneSupports;
    }
  }

  // A START forgets the tries, and every command logs a start call for each try it adds.
  lemma InitiatorLogsTries(s: InitiatorState, devs: seq<TestDevice>, cmd: InitiatorCommand, r: Replies)
    requires InitiatorInv(s, devs)
    ensures var s' := InitiatorRun(s, devs, cmd, r).state;
      LogsTry(s.log, s'.log, if cmd.InitiatorBegin? then [] else s.tried, s'.tried)
  {
    hide StartsOf, InOrder, Times, LogsTry, InitiatorStart, NoneSupports;
    if s.testing { InitiatorTestingIndexIsValid(s, devs); }
    if cmd.InitiatorBegin? {
      InitiatorStartLogs(s.(tried := []), devs, 0, RETRY_COUNT, r);
    } else if cmd.InitiatorSuccess? && s.testing {
      InitiatorStartLogs(s, devs, s.index + 1, RETRY_COUNT, r);
    } else if cmd.InitiatorFailure? && s.testing {
      var s1 := s.(retry := s.retry - 1);
      InitiatorStartLogs(s1, devs, s.index, s.retry - 1, r);
      InitiatorStartLogs(s1, devs, s.index + 1, RETRY_COUNT, r);
    } else {
      OtherCallsLogNoTry(s.log, s.index, s.tried);
    }
  }

  lemma OtherCallsLogNoTry(log: seq<Call>, i: int, tried: seq<nat>)
    ensures LogsTry(log, log, tried, tried)
    ensures i >= 0 ==> LogsTry(log, log + [StopCall(i)], tried, tried)
  {
    if i >= 0 { CallsAlong(log, i); }
  }

  // A whole run: the outcomes reported by the daemon, one after the other.
  function InitiatorAfter(s: InitiatorState, devs: seq<TestDevice>, outcomes: seq<(bool, Replies)>): InitiatorState
    decreases |outcomes|
  {
    if outcomes == [] then s
    else
      var n := |outcomes| - 1;
      var cmd := if outcomes[n].0 then InitiatorSuccess else InitiatorFailure;
      InitiatorRun(InitiatorAfter(s, devs, outcomes[..n]), devs, cmd, outcomes[n].1).state
  }

  lemma {:induction false} InitiatorAfterTries(
      s: InitiatorState, devs: seq<TestDevice>, outcomes: seq<(bool, Replies)>, before: seq<nat>)
    requires InitiatorInv(s, devs) && StartsOf(s.log) == before + s.tried
    ensures var s' := InitiatorAfter(s, devs, outcomes);
      && InitiatorInv(s', devs) && StartsOf(s'.log) == before + s'.tried
      && (s'.testing ==> s.testing && |s'.tried| == |s.tried| + |outcomes|)
    decreases |outcomes|
  {
    if outcomes != [] {
      var n := |outcomes| - 1;
      InitiatorAfterTries(s, devs, outcomes[..n], before);
      var mid := InitiatorAfter(s, devs, outcomes[..n]);
      var cmd := if outcomes[n].0 then InitiatorSuccess else InitiatorFailure;
      InitiatorKeepsInv(mid, devs, cmd, outcomes[n].1);
      InitiatorLogsTries(mid, devs, cmd, outcomes[n].1);
      if mid.testing { InitiatorProgress(mid, devs, cmd, outcomes[n].1); }
      hide InOrder, Times, StartsOf;
      var s' := InitiatorAfter(s, devs, outcomes);
      TryAppended(before, mid.log, s'.log, mid.tried, s'.tried);
      assert !mid.testing ==> s' == mid;
    }
  }

  lemma TryAppended(before: seq<nat>, log: seq<Call>, log': seq<Call>, tried: seq<nat>, tried': seq<nat>)
    requires LogsTry(log, log', tried, tried') && StartsOf(log) == before + tried
    ensures StartsOf(log') == before + tried'
  {
    hide StartsOf;
    if tried' != tried { assert before + (tried + [Last(tried')]) == before + tried + [Last(tried')]; }
  }

  // A whole run: a START in any state, then whatever the daemon reports. It makes at most six
  // start calls per supporting device, exactly those of its tries, and is over once that many
  // outcomes have been handled.
  lemma InitiatorRunIsBounded(s: InitiatorState, devs: seq<TestDevice>, r: Replies, outcomes: seq<(bool, Replies)>)
    requires InitiatorInv(s, devs)
    ensures var s' := InitiatorAfter(InitiatorRun(s, devs, InitiatorBegin, r).state, devs, outcomes);
      && StartsOf(s'.log) == StartsOf(s.log) + s'.tried
      && |s'.tried| <= 6 * |SupportSet(devs, Initiator)|
      && (|outcomes| >= 6 * |SupportSet(devs, Initiator)| ==> !s'.testing)
  {
    var s1 := InitiatorRun(s, devs, InitiatorBegin, r).state;
    InitiatorKeepsInv(s, devs, InitiatorBegin, r);
    InitiatorLogsTries(s, devs, InitiatorBegin, r);
    hide InOrder, Times, StartsOf, InitiatorRun, InitiatorAfter, SupportSet;
    assert StartsOf(s.log) + [] == StartsOf(s.log);
    TryAppended(StartsOf(s.log), s.log, s1.log, [], s1.tried);
    InitiatorAfterTries(s1, devs, outcomes, StartsOf(s.log));
    RunLength(InitiatorAfter(s1, devs, outcomes).tried, devs, Initiator, 6);
  }

  // ---- Target: invariant, timers, progress ----

  // Pending timers belong to different armings among the first n.
  ghost predicate Numbered(pending: map<int, nat>, n: nat) {
    && (forall a :: a in pending ==> pending[a] < n)
    && (forall a, b :: a in pending && b in pending && a != b ==> pending[a] != pending[b])
  }

  ghost predicate TargetInv(s: TargetState, devs: seq<TestDevice>) {
    && InOrder(s.tried, devs, Target, 1)
    && Numbered(s.pending, |s.armings|)
    && (s.testing ==>
          && s.tried != [] && s.index == Last(s.tried)
          && s.armings != [] && s.armings[|s.armings| - 1] == s.index
          && OwnTimer(s))
  }

  // The loop's part: a timer it registers gets an id none of the pending timers has.
  ghost predicate FreshTimer(s: TargetState, t: TimerReply) {
    t.registered ==> t.id !in s.pending
  }

  // What add_timer assumes: a timer that was not registered leaves no positive id behind.
  predicate HonestTimer(t: TimerReply) { t.registered || t.id <= 0 }

  lemma TargetTestingIndexIsValid(s: TargetState, devs: seq<TestDevice>)
    requires TargetInv(s, devs) && s.testing
    ensures 0 <= s.index < |devs| && Supports(devs[s.index], Target)
    ensures !NoneSupports(devs, Target)
  {
  }

  // Starting at the beginning, or behind the last device tried, establishes the invariant.
  lemma TargetStartKeepsInv(s: TargetState, devs: seq<TestDevice>, from: nat, r: Replies)
    requires from <= |devs| && FreshTimer(s, r.timer)
    requires InOrder(s.tried, devs, Target, 1) && Numbered(s.pending, |s.armings|)
    requires from == if s.tried == [] then 0 else Last(s.tried) + 1
    requires !NoneSupports(devs, Target)
    ensures TargetInv(TargetStart(s, devs, from, r).state, devs)
  {
    var i := NextSupporting(devs, Target, from);
    var out := TargetStart(s, devs, from, r).state;
    if i < |devs| {
      TryNext(s.tried, devs, Target, 1, i);
      var s1 := s.(tried := s.tried + [i], log := s.log + [StartCall(i)]);
      if r.start == SOk {
        ArmedKeepsInv(s1, devs, i, r.timer);
        assert out == Arm(s1, i, r.timer);
      } else {
        EndedKeepsInv(s1, devs);
        assert out == Ended(s1);
      }
    } else {
      EndedKeepsInv(s, devs);
      assert out == Ended(s);
    }
  }

  lemma EndedKeepsInv(s: TargetState, devs: seq<TestDevice>)
    requires InOrder(s.tried, devs, Target, 1) && Numbered(s.pending, |s.armings|)
    ensures TargetInv(Ended(s), devs)
  {
  }

  lemma ArmedKeepsInv(s: TargetState, devs: seq<TestDevice>, i: nat, t: TimerReply)
    requires InOrder(s.tried, devs, Target, 1) && Numbered(s.pending, |s.armings|)
    requires FreshTimer(s, t) && s.tried != [] && Last(s.tried) == i
    ensures TargetInv(Arm(s, i, t), devs)
  {
    ArmKeepsTimers(s, i, t);
  }

  lemma ArmKeepsTimers(s: TargetState, i: nat, t: TimerReply)
    requires FreshTimer(s, t) && Numbered(s.pending, |s.armings|)
    ensures var s' := Arm(s, i, t);
      && Numbered(s'.pending, |s'.armings|)
      && (s'.testing ==> OwnTimer(s'))
  {
  }

  // The timer id the machine holds belongs to the newest arming, if that one was registered;
  // if not, no pending timer does.
  ghost predicate OwnTimer(s: TargetState) {
    var n := |s.armings| - 1;
    && (s.live <==> s.timeoutId in s.pending && s.pending[s.timeoutId] == n)
    && (!s.live ==> forall a :: a in s.pending ==> s.pending[a] != n)
  }

  lemma TargetKeepsInv(s: TargetState, devs: seq<TestDevice>, cmd: TargetCommand, r: Replies)
    requires TargetInv(s, devs) && FreshTimer(s, r.timer)
    ensures TargetInv(TargetRun(s, devs, cmd, r).state, devs)
  {
    hide InOrder, Numbered, OwnTimer;
    if cmd.TargetBegin? {
      TargetRestart(s, devs, r);
    } else if s.testing && cmd.TargetFailure? {
      FailureKeepsTargetInv(s, devs, r);
    } else if s.testing && cmd.TargetTimeout? {
      TimeoutKeepsTargetInv(s, devs, r);
    }
  }

  lemma TargetInvParts(s: TargetState, devs: seq<TestDevice>)
    requires TargetInv(s, devs) && s.testing
    ensures InOrder(s.tried, devs, Target, 1) && s.tried != [] && s.index == Last(s.tried)
    ensures Numbered(s.pending, |s.armings|)
    ensures 0 <= s.index < |devs| && !NoneSupports(devs, Target)
  {
    TargetTestingIndexIsValid(s, devs);
  }

  // Going on behind the last device tried, with whatever calls and pending timers.
  lemma NextKeepsInv(s: TargetState, devs: seq<TestDevice>, r: Replies)
    requires InOrder(s.tried, devs, Target, 1) && s.tried != [] && s.index == Last(s.tried)
    requires Numbered(s.pending, |s.armings|) && FreshTimer(s, r.timer)
    requires 0 <= s.index < |devs| && !NoneSupports(devs, Target)
    ensures TargetInv(TargetStart(s, devs, s.index + 1, r).state, devs)
  {
    hide TargetStart, TargetInv, InOrder, NoneSupports, Numbered, FreshTimer;
    TargetStartKeepsInv(s, devs, s.index + 1, r);
  }

  lemma FailureKeepsTargetInv(s: TargetState, devs: seq<TestDevice>, r: Replies)
    requires TargetInv(s, devs) && s.testing && FreshTimer(s, r.timer)
    ensures TargetInv(TargetRun(s, devs, TargetFailure, r).state, devs)
  {
    hide TargetStart, TargetInv, InOrder, NoneSupports, Numbered, FreshTimer;
    TargetInvParts(s, devs);
    NextKeepsInv(s, devs, r);
  }

  lemma TimeoutKeepsTargetInv(s: TargetState, devs: seq<TestDevice>, r: Replies)
    requires TargetInv(s, devs) && s.testing && FreshTimer(s, r.timer)
    ensures TargetInv(TargetRun(s, devs, TargetTimeout, r).state, devs)
  {
    hide TargetStart, TargetInv, InOrder, NoneSupports, Numbered;
    TargetInvParts(s, devs);
    NextKeepsInv(s.(log := s.log + [StopCall(s.index)]), devs, r);
  }

  lemma TargetRestart(s: TargetState, devs: seq<TestDevice>, r: Replies)
    requires TargetInv(s, devs) && FreshTimer(s, r.timer)
    ensures TargetInv(TargetRun(s, devs, TargetBegin, r).state, devs)
  {
    if s.testing { TargetTestingIndexIsValid(s, devs); }
    var s1 := s.(tried := []);
    if NoneSupports(devs, Target) {
      assert InOrder(s1.tried, devs, Target, 1);
    } else {
      TargetStartKeepsInv(s1, devs, 0, r);
    }
  }

  lemma FiringKeepsInv(s: TargetState, devs: seq<TestDevice>, id: int, r: Replies)
    requires TargetInv(s, devs) && id in s.pending && FreshTimer(s.(pending := s.pending - {id}), r.timer)
    ensures TargetInv(TimerFires(s, devs, id, r), devs)
  {
    if s.testing && s.timeoutId == id {
      OwnFiringKeepsInv(s, devs, id, r);
    } else {
      ForgettingKeepsInv(s, devs, id);
      hide TargetStart, TargetInv;
    }
  }

  lemma OwnFiringKeepsInv(s: TargetState, devs: seq<TestDevice>, id: int, r: Replies)
    requires TargetInv(s, devs) && s.testing && s.timeoutId == id
    requires FreshTimer(s.(pending := s.pending - {id}), r.timer)
    ensures TargetInv(TimerFires(s, devs, id, r), devs)
  {
    hide TargetStart, TargetInv, InOrder, NoneSupports, Numbered;
    TargetInvParts(s, devs);
    FewerNumbered(s.pending, id, |s.armings|);
    NextKeepsInv(s.(pending := s.pending - {id}, log := s.log + [StopCall(s.index)]), devs, r);
  }

  lemma FewerNumbered(pending: map<int, nat>, id: int, n: nat)
    requires Numbered(pending, n)
    ensures Numbered(pending - {id}, n)
  {
  }

  lemma ForgettingKeepsInv(s: TargetState, devs: seq<TestDevice>, id: int)
    requires TargetInv(s, devs) && !(s.testing && s.timeoutId == id)
    ensures TargetInv(s.(pending := s.pending - {id}), devs)
  {
    hide InOrder;
  }

  // A firing does something exactly when a run is under way and the ids match; otherwise the
  // machine only loses the pending entry.
  lemma FiringActsIff(s: TargetState, devs: seq<TestDevice>, id: int, r: Replies)
    requires TargetInv(s, devs) && id in s.pending
    ensures TimerFires(s, devs, id, r) == s.(pending := s.pending - {id})
            <==> !(s.testing && s.timeoutId == id)
  {
    if s.testing && s.timeoutId == id {
      TargetTestingIndexIsValid(s, devs);
      assert |TimerFires(s, devs, id, r).log| > |s.log|;
    }
  }

  // When the current arming was registered, of all pending timers exactly the one armed last,
  // for the device now under test, acts on the machine.
  lemma OnlyTheNewestTimerActs(s: TargetState, devs: seq<TestDevice>, id: int, r: Replies)
    requires TargetInv(s, devs) && s.testing && s.live && id in s.pending
    ensures TimerFires(s, devs, id, r) != s.(pending := s.pending - {id})
            <==> s.pending[id] == |s.armings| - 1
    ensures s.armings[|s.armings| - 1] == s.index
  {
    FiringActsIff(s, devs, id, r);
  }

  // A stale timer, one of an earlier arming, leaves the machine alone whenever it fires if and
  // only if the newest timer was registered or the id the machine holds is not pending. In the
  // remaining case the refused timer left the id of an older pending one behind.
  lemma StaleTimersHarmlessIff(s: TargetState, devs: seq<TestDevice>, r: Replies)
    requires TargetInv(s, devs) && s.testing
    ensures (forall id :: id in s.pending && s.pending[id] != |s.armings| - 1 ==>
              TimerFires(s, devs, id, r) == s.(pending := s.pending - {id}))
            <==> s.live || s.timeoutId !in s.pending
  {
    forall id | id in s.pending
      ensures TimerFires(s, devs, id, r) == s.(pending := s.pending - {id}) <==> s.timeoutId != id
    {
      FiringActsIff(s, devs, id, r);
    }
    hide TimerFires, InOrder;
  }

  // Such a case: the first device gets the timer k, its failure moves on to the second one with
  // the timer refused and k left in the variable, and then the timer of the first device ends
  // the run of the second.
  lemma StaleTimerCanAct(devs: seq<TestDevice>, k: int, r1: Replies, r2: Replies, r3: Replies)
    requires |devs| == 2 && Supports(devs[0], Target) && Supports(devs[1], Target) && k > 0
    requires r1.start == SOk && r1.timer == TimerReply(true, k)
    requires r2.start == SOk && r2.timer == TimerReply(false, k)
    ensures var s1 := TargetRun(IDLE_TARGET, devs, TargetBegin, r1).state;
      var s2 := TargetRun(s1, devs, TargetFailure, r2).state;
      var s3 := TimerFires(s2, devs, k, r3);
      && s2.testing && s2.index == 1 && k in s2.pending && s2.armings[s2.pending[k]] == 0
      && !s3.testing && s3.log == s2.log + [StopCall(1)] + [DiscoverCall]
  {
    assert NextSupporting(devs, Target, 0) == 0 && NextSupporting(devs, Target, 1) == 1;
    assert NextSupporting(devs, Target, 2) == 2;
    hide NextSupporting, Supports;
    assert !NoneSupports(devs, Target) by { SupportIsThere(devs, 0, Target); }
    var s1 := TargetRun(IDLE_TARGET, devs, TargetBegin, r1).state;
    var s2 := TargetRun(s1, devs, TargetFailure, r2).state;
    assert s1.testing && s1.index == 0 && s1.pending == map[k := 0] && s1.armings == [0];
    assert s2.testing && s2.index == 1 && s2.timeoutId == k && s2.pending == map[k := 0] && s2.armings == [0, 1];
  }

  lemma SupportIsThere(devs: seq<TestDevice>, i: nat, role: Role)
    requires i < |devs| && Supports(devs[i], role)
    ensures !NoneSupports(devs, role)
  {
  }

  // A run has a pending timer of its own exactly when the loop registered the newest arming.
  lemma TimerPendingIffRegistered(s: TargetState, devs: seq<TestDevice>)
    requires TargetInv(s, devs) && s.testing
    ensures s.live <==> exists a :: a in s.pending && s.pending[a] == |s.armings| - 1
  {
  }

  lemma HonestTimersStayLive(s: TargetState, devs: seq<TestDevice>, cmd: TargetCommand, r: Replies)
    requires HonestTimer(r.timer) && (s.testing ==> s.live)
    ensures var s' := TargetRun(s, devs, cmd, r).state; s'.testing ==> s'.live
  {
  }

  // A start the device accepts leaves the machine testing exactly when the id it got back for
  // the timer is positive. Whatever the id, the start is logged and nothing is discovered, and
  // the timer is pending exactly if the loop registered it.
  lemma AcceptedStartTestsIffIdPositive(s: TargetState, devs: seq<TestDevice>, from: nat, r: Replies)
    requires from <= |devs| && NextSupporting(devs, Target, from) < |devs| && r.start == SOk
    ensures var s', i := TargetStart(s, devs, from, r).state, NextSupporting(devs, Target, from);
      && (s'.testing <==> r.timer.id > 0)
      && s'.index == i && s'.log == s.log + [StartCall(i)] && Discoveries(s'.log) == Discoveries(s.log)
      && s'.pending == (if r.timer.registered then s.pending[r.timer.id := |s.armings|] else s.pending)
  {
    CallsAlong(s.log, NextSupporting(devs, Target, from));
  }

  // add_timer returns whatever id its variable holds when the loop refuses the timer. With a
  // positive one left there, the machine believes it is testing while no pending timer was
  // made for the device.
  lemma UnregisteredTimerStalls(s: TargetState, devs: seq<TestDevice>, from: nat, r: Replies)
    requires from <= |devs| && NextSupporting(devs, Target, from) < |devs| && r.start == SOk
    requires !r.timer.registered && r.timer.id > 0 && Numbered(s.pending, |s.armings|)
    ensures var s' := TargetStart(s, devs, from, r).state;
      s'.testing && forall a :: a in s'.pending ==> s'.pending[a] < |s'.armings| - 1
  {
    AcceptedStartTestsIffIdPositive(s, devs, from, r);
  }

  // Conversely a loop that hands out id 0 registers a timer for a start that is then taken for
  // failed: the device was started, its timer is pending, and nothing will stop the device.
  lemma ZeroTimerIdAbandonsRun(s: TargetState, devs: seq<TestDevice>, from: nat, r: Replies)
    requires from <= |devs| && NextSupporting(devs, Target, from) < |devs| && r.start == SOk
    requires r.timer.registered && r.timer.id <= 0
    ensures var s' := TargetStart(s, devs, from, r).state;
      && !s'.testing && r.timer.id in s'.pending && s'.pending[r.timer.id] == |s.armings|
      && s'.log == s.log + [StartCall(NextSupporting(devs, Target, from))]
    ensures var s' := TargetStart(s, devs, from, r).state;
      forall r2 :: TimerFires(s', devs, r.timer.id, r2).log == s'.log
  {
    AcceptedStartTestsIffIdPositive(s, devs, from, r);
  }

  // A start makes at most one start call; it leaves the machine testing exactly when a device
  // was left, accepted the start and got a positive timer id, and it discovers exactly when no
  // device was left or the device refused.
  lemma TargetStartEffect(s: TargetState, devs: seq<TestDevice>, from: nat, r: Replies)
    requires from <= |devs| && !NoneSupports(devs, Target)
    ensures var s', i := TargetStart(s, devs, from, r).state, NextSupporting(devs, Target, from);
      && (s'.testing <==> i < |devs| && r.start == SOk && r.timer.id > 0)
      && s'.index == (if i < |devs| && r.start == SOk then i else -1)
      && (s'.testing ==> s'.armings == s.armings + [i])
      && s'.tried == s.tried + (if i < |devs| then [i] else [])
      && StartsOf(s'.log) == StartsOf(s.log) + (if i < |devs| then [i] else [])
      && Discoveries(s'.log) == Discoveries(s.log) + (if s'.index < 0 then 1 else 0)
  {
    CallsAlong(s.log, NextSupporting(devs, Target, from));
    hide StartsOf, Discoveries, NextSupporting, NoneSupports;
  }

  // What a command that is not STOP makes of a run: if it ends it, then either the device just
  // started got no positive timer id, or there is one discovery and, unless a start was
  // refused, every supporting device has been tried.
  ghost predicate TargetEndsWell(s: TargetState, s': TargetState, devs: seq<TestDevice>, r: Replies) {
    if s'.testing then Discoveries(s'.log) == Discoveries(s.log)
    else if s'.index >= 0 then r.start == SOk && r.timer.id <= 0 && Discoveries(s'.log) == Discoveries(s.log)
    else
      && Discoveries(s'.log) == Discoveries(s.log) + 1
      && (r.start == SOk ==> AllTried(s'.tried, devs, Target))
  }

  lemma TargetGoesOn(s: TargetState, devs: seq<TestDevice>, r: Replies)
    requires InOrder(s.tried, devs, Target, 1) && s.tried != []
    ensures Last(s.tried) < |devs|
    ensures TargetEndsWell(s, TargetStart(s, devs, Last(s.tried) + 1, r).state, devs, r)
  {
    NoneLeft(s.tried, devs, Target, 1);
    TargetStartEffect(s, devs, Last(s.tried) + 1, r);
    hide TargetStart, InOrder, AllTried, Discoveries, StartsOf;
    assert s.tried + [] == s.tried;
  }

  lemma TargetBeginsAgain(s: TargetState, devs: seq<TestDevice>, r: Replies)
    requires !NoneSupports(devs, Target)
    ensures TargetEndsWell(s, TargetStart(s.(tried := []), devs, 0, r).state, devs, r)
  {
    TargetStartEffect(s.(tried := []), devs, 0, r);
    SomeSupports(devs, Target);
    hide TargetStart, Discoveries, StartsOf, Supports, NextSupporting, NoneSupports, AllTried;
  }

  // How a target run ends.
  lemma TargetEnd(s: TargetState, devs: seq<TestDevice>, cmd: TargetCommand, r: Replies)
    requires TargetInv(s, devs) && s.testing
    ensures var s' := TargetRun(s, devs, cmd, r).state;
      if cmd.TargetHalt? then
        !s'.testing && s'.log == s.log + [StopCall(s.index)] && Discoveries(s'.log) == Discoveries(s.log)
      else TargetEndsWell(s, s', devs, r)
  {
    TargetTestingIndexIsValid(s, devs);
    if cmd.TargetHalt? {
      CallsAlong(s.log, s.index);
      hide Discoveries, StartsOf;
    } else {
      TargetGoesOnOrEnds(s, devs, cmd, r);
    }
  }

  lemma TargetGoesOnOrEnds(s: TargetState, devs: seq<TestDevice>, cmd: TargetCommand, r: Replies)
    requires InOrder(s.tried, devs, Target, 1) && s.tried != [] && s.index == Last(s.tried)
    requires s.testing && !cmd.TargetHalt? && !NoneSupports(devs, Target)
    ensures TargetEndsWell(s, TargetRun(s, devs, cmd, r).state, devs, r)
  {
    hide *;
    NoneLeft(s.tried, devs, Target, 1);
    match cmd {
      case TargetBegin => BeginEndsWell(s, devs, r);
      case TargetTimeout => TimeoutEndsWell(s, devs, r);
      case TargetSuccess => SuccessEndsWell(s, devs, r);
      case TargetFailure => FailureEndsWell(s, devs, r);
    }
  }

  lemma BeginEndsWell(s: TargetState, devs: seq<TestDevice>, r: Replies)
    requires s.testing && 0 <= s.index < |devs| && !NoneSupports(devs, Target)
    ensures TargetEndsWell(s, TargetRun(s, devs, TargetBegin, r).state, devs, r)
  {
    TargetBeginsAgain(s, devs, r);
    hide TargetStart, TargetEndsWell;
  }

  lemma SuccessEndsWell(s: TargetState, devs: seq<TestDevice>, r: Replies)
    requires s.testing && 0 <= s.index < |devs|
    ensures TargetEndsWell(s, TargetRun(s, devs, TargetSuccess, r).state, devs, r)
  {
    hide TargetStart, Discoveries, AllTried;
  }

  lemma FailureEndsWell(s: TargetState, devs: seq<TestDevice>, r: Replies)
    requires InOrder(s.tried, devs, Target, 1) && s.tried != [] && s.index == Last(s.tried) && s.testing
    ensures TargetEndsWell(s, TargetRun(s, devs, TargetFailure, r).state, devs, r)
  {
    TargetGoesOn(s, devs, r);
    hide TargetStart, TargetEndsWell, InOrder;
  }

  lemma TimeoutEndsWell(s: TargetState, devs: seq<TestDevice>, r: Replies)
    requires InOrder(s.tried, devs, Target, 1) && s.tried != [] && s.index == Last(s.tried) && s.testing
    ensures TargetEndsWell(s, TargetRun(s, devs, TargetTimeout, r).state, devs, r)
  {
    TimeoutGoesOn(s, devs, r);
    hide TargetStart, TargetEndsWell, InOrder;
  }

  lemma TimeoutGoesOn(s: TargetState, devs: seq<TestDevice>, r: Replies)
    requires InOrder(s.tried, devs, Target, 1) && s.tried != [] && s.index == Last(s.tried)
    ensures 0 <= s.index < |devs|
    ensures TargetEndsWell(s, TargetStart(s.(log := s.log + [StopCall(s.index)]), devs, s.index + 1, r).state, devs, r)
  {
    hide *;
    NoneLeft(s.tried, devs, Target, 1);
    var s1 := s.(log := s.log + [StopCall(s.index)]);
    TargetGoesOn(s1, devs, r);
    StopDoesNotCount(s, s.index, TargetStart(s1, devs, s.index + 1, r).state, devs, r);
  }

  lemma TargetStartLogs(s: TargetState, devs: seq<TestDevice>, from: nat, r: Replies)
    requires from <= |devs|
    ensures var s' := TargetStart(s, devs, from, r).state; LogsTry(s.log, s'.log, s.tried, s'.tried)
  {
    if !NoneSupports(devs, Target) {
      TargetStartEffect(s, devs, from, r);
      hide TargetStart, StartsOf, NextSupporting, NoneSupports;
    }
  }

  lemma TargetLogsTries(s: TargetState, devs: seq<TestDevice>, cmd: TargetCommand, r: Replies)
    requires TargetInv(s, devs)
    ensures var s' := TargetRun(s, devs, cmd, r).state;
      LogsTry(s.log, s'.log, if cmd.TargetBegin? then [] else s.tried, s'.tried)
  {
    hide StartsOf, LogsTry, InOrder, OwnTimer, Numbered, TargetStart;
    if cmd.TargetBegin? && !s.testing {
      TargetStartLogs(s.(tried := []), devs, 0, r);
    } else if !s.testing {
      OtherCallsLogNoTry(s.log, -1, s.tried);
    } else {
      TargetTestingIndexIsValid(s, devs);
      RunningTargetLogsTries(s, devs, cmd, r);
    }
  }

  lemma RunningTargetLogsTries(s: TargetState, devs: seq<TestDevice>, cmd: TargetCommand, r: Replies)
    requires s.testing && 0 <= s.index < |devs|
    ensures var s' := TargetRun(s, devs, cmd, r).state;
      LogsTry(s.log, s'.log, if cmd.TargetBegin? then [] else s.tried, s'.tried)
  {
    hide StartsOf, TargetStart, LogsTry;
    if cmd == TargetBegin {
      TargetStartLogs(s.(tried := []), devs, 0, r);
    } else if cmd == TargetTimeout {
      TimeoutLogsTry(s, devs, r);
    } else if cmd == TargetFailure {
      TargetStartLogs(s, devs, s.index + 1, r);
    } else {
      OtherCallsLogNoTry(s.log, s.index, s.tried);
    }
  }

  lemma TimeoutLogsTry(s: TargetState, devs: seq<TestDevice>, r: Replies)
    requires s.testing && 0 <= s.index < |devs|
    ensures var s' := TargetStart(s.(log := s.log + [StopCall(s.index)]), devs, s.index + 1, r).state;
      LogsTry(s.log, s'.log, s.tried, s'.tried)
  {
    var s1 := s.(log := s.log + [StopCall(s.index)]);
    TargetStartLogs(s1, devs, s.index + 1, r);
    hide StartsOf, TargetStart, LogsTry;
    StopDoesNotCount(s, s.index, TargetStart(s1, devs, s.index + 1, r).state, devs, r);
  }

  // A timeout or failure under test ends the run or moves on to a later device, freshly armed;
  // it ends with exactly one discovery, unless the timer of the next device was refused.
  ghost predicate Progresses(s: TargetState, s': TargetState, t: TimerReply) {
    && (s'.testing ==>
          && s'.index > s.index && s'.armings == s.armings + [s'.index] && |s'.tried| == |s.tried| + 1
          && Discoveries(s'.log) == Discoveries(s.log))
    && (!s'.testing && t.id > 0 ==> Discoveries(s'.log) == Discoveries(s.log) + 1)
  }

  lemma TargetProgress(s: TargetState, devs: seq<TestDevice>, cmd: TargetCommand, r: Replies)
    requires TargetInv(s, devs) && s.testing
    requires cmd.TargetTimeout? || cmd.TargetFailure?
    ensures Progresses(s, TargetRun(s, devs, cmd, r).state, r.timer)
  {
    TargetTestingIndexIsValid(s, devs);
    TargetMovesOn(s, devs, cmd, r);
  }

  lemma TargetMovesOn(s: TargetState, devs: seq<TestDevice>, cmd: TargetCommand, r: Replies)
    requires s.testing && 0 <= s.index < |devs| && !NoneSupports(devs, Target)
    requires cmd.TargetTimeout? || cmd.TargetFailure?
    ensures Progresses(s, TargetRun(s, devs, cmd, r).state, r.timer)
  {
    NextProgresses(s, devs, r);
    TimeoutProgresses(s, devs, r);
    hide TargetStart, Progresses, NoneSupports;
  }

  lemma TimeoutProgresses(s: TargetState, devs: seq<TestDevice>, r: Replies)
    requires s.testing && 0 <= s.index < |devs| && !NoneSupports(devs, Target)
    ensures Progresses(s, TargetStart(s.(log := s.log + [StopCall(s.index)]), devs, s.index + 1, r).state, r.timer)
  {
    hide *;
    var s1 := s.(log := s.log + [StopCall(s.index)]);
    NextProgresses(s1, devs, r);
    StopDoesNotCount(s, s.index, TargetStart(s1, devs, s.index + 1, r).state, devs, r);
  }

  // The stop call of a timeout is no discovery and no try.
  lemma StopDoesNotCount(s: TargetState, i: nat, s': TargetState, devs: seq<TestDevice>, r: Replies)
    ensures var s1 := s.(log := s.log + [StopCall(i)]);
      && (Progresses(s1, s', r.timer) ==> Progresses(s, s', r.timer))
      && (TargetEndsWell(s1, s', devs, r) ==> TargetEndsWell(s, s', devs, r))
      && (LogsTry(s1.log, s'.log, s.tried, s'.tried) ==> LogsTry(s.log, s'.log, s.tried, s'.tried))
  {
    CallsAlong(s.log, i);
    hide Discoveries, StartsOf, AllTried;
  }

  lemma NextProgresses(s: TargetState, devs: seq<TestDevice>, r: Replies)
    requires s.testing && 0 <= s.index < |devs| && !NoneSupports(devs, Target)
    ensures Progresses(s, TargetStart(s, devs, s.index + 1, r).state, r.timer)
  {
    TargetStartEffect(s, devs, s.index + 1, r);
    hide Discoveries, StartsOf, TargetStart;
  }

  // What bounds a run does not depend on its timers.
  ghost predicate TargetOrder(s: TargetState, devs: seq<TestDevice>) {
    && InOrder(s.tried, devs, Target, 1)
    && (s.testing ==> s.tried != [] && s.index == Last(s.tried))
  }

  lemma OrderOfTesting(s: TargetState, devs: seq<TestDevice>)
    requires TargetOrder(s, devs) && s.testing
    ensures 0 <= s.index < |devs| && !NoneSupports(devs, Target)
  {
    NoneLeft(s.tried, devs, Target, 1);
    SupportIsThere(devs, s.index, Target);
  }

  lemma StartKeepsOrder(s: TargetState, devs: seq<TestDevice>, from: nat, r: Replies)
    requires from <= |devs| && !NoneSupports(devs, Target) && InOrder(s.tried, devs, Target, 1)
    requires from == if s.tried == [] then 0 else Last(s.tried) + 1
    ensures var s' := TargetStart(s, devs, from, r).state;
      TargetOrder(s', devs) && (s'.testing ==> |s'.tried| == |s.tried| + 1)
  {
    hide TargetStart, StartsOf, Discoveries, NextSupporting, NoneSupports, InOrder;
    var i := NextSupporting(devs, Target, from);
    if i < |devs| { OneMoreInOrder(s.tried, devs, from); }
    TargetStartEffect(s, devs, from, r);
    assert s.tried + [] == s.tried;
  }

  lemma OneMoreInOrder(tried: seq<nat>, devs: seq<TestDevice>, from: nat)
    requires from <= |devs| && InOrder(tried, devs, Target, 1) && NextSupporting(devs, Target, from) < |devs|
    requires from == if tried == [] then 0 else Last(tried) + 1
    ensures InOrder(tried + [NextSupporting(devs, Target, from)], devs, Target, 1)
  {
    TryNext(tried, devs, Target, 1, NextSupporting(devs, Target, from));
  }

  // A timeout or a failure, whatever the timers do.
  function MoveOf(timeout: bool): TargetCommand { if timeout then TargetTimeout else TargetFailure }

  ghost predicate Moved(s: TargetState, s': TargetState, devs: seq<TestDevice>) {
    && TargetOrder(s', devs) && LogsTry(s.log, s'.log, s.tried, s'.tried)
    && (s'.testing ==> s.testing && |s'.tried| == |s.tried| + 1)
    && (!s.testing ==> s' == s)
  }

  lemma MoveKeepsOrder(s: TargetState, devs: seq<TestDevice>, timeout: bool, r: Replies)
    requires TargetOrder(s, devs)
    ensures Moved(s, TargetRun(s, devs, MoveOf(timeout), r).state, devs)
  {
    if !s.testing {
      OtherCallsLogNoTry(s.log, -1, s.tried);
      hide TargetStart, LogsTry, InOrder;
    } else if timeout {
      TimeoutKeepsOrder(s, devs, r);
      hide TargetRun, Moved;
    } else {
      FailureKeepsOrder(s, devs, r);
      hide TargetRun, Moved;
    }
  }

  lemma NextKeepsOrder(s: TargetState, devs: seq<TestDevice>, r: Replies)
    requires TargetOrder(s, devs) && s.testing
    ensures 0 <= s.index < |devs|
    ensures var s' := TargetStart(s, devs, s.index + 1, r).state;
      TargetOrder(s', devs) && (s'.testing ==> |s'.tried| == |s.tried| + 1)
  {
    OrderOfTesting(s, devs);
    hide TargetStart, NoneSupports, InOrder;
    StartKeepsOrder(s, devs, s.index + 1, r);
  }

  lemma FailureKeepsOrder(s: TargetState, devs: seq<TestDevice>, r: Replies)
    requires TargetOrder(s, devs) && s.testing
    ensures Moved(s, TargetRun(s, devs, TargetFailure, r).state, devs)
  {
    hide TargetStart, TargetOrder, LogsTry;
    NextKeepsOrder(s, devs, r);
    RunningTargetLogsTries(s, devs, TargetFailure, r);
  }

  lemma TimeoutKeepsOrder(s: TargetState, devs: seq<TestDevice>, r: Replies)
    requires TargetOrder(s, devs) && s.testing
    ensures Moved(s, TargetRun(s, devs, TargetTimeout, r).state, devs)
  {
    hide InOrder, NoneSupports, TargetStart, LogsTry;
    OrderOfTesting(s, devs);
    NextKeepsOrder(s.(log := s.log + [StopCall(s.index)]), devs, r);
    RunningTargetLogsTries(s, devs, TargetTimeout, r);
  }

  lemma BeginKeepsOrder(s: TargetState, devs: seq<TestDevice>, r: Replies)
    requires TargetOrder(s, devs)
    ensures var s' := TargetRun(s, devs, TargetBegin, r).state;
      TargetOrder(s', devs) && LogsTry(s.log, s'.log, [], s'.tried)
  {
    var s1 := s.(tried := []);
    assert InOrder([], devs, Target, 1);
    if s.testing { OrderOfTesting(s, devs); }
    TargetStartLogs(s1, devs, 0, r);
    if !NoneSupports(devs, Target) { StartKeepsOrder(s1, devs, 0, r); }
    assert NoneSupports(devs, Target) ==> TargetStart(s1, devs, 0, r).state == s1;
    hide TargetStart, LogsTry, InOrder, NoneSupports;
  }

  function TargetAfter(s: TargetState, devs: seq<TestDevice>, moves: seq<(bool, Replies)>): TargetState
    decreases |moves|
  {
    if moves == [] then s
    else
      var n := |moves| - 1;
      TargetRun(TargetAfter(s, devs, moves[..n]), devs, MoveOf(moves[n].0), moves[n].1).state
  }

  lemma {:induction false} TargetAfterTries(
      s: TargetState, devs: seq<TestDevice>, moves: seq<(bool, Replies)>, before: seq<nat>)
    requires TargetOrder(s, devs) && StartsOf(s.log) == before + s.tried
    ensures var s' := TargetAfter(s, devs, moves);
      && TargetOrder(s', devs) && StartsOf(s'.log) == before + s'.tried
      && (s'.testing ==> s.testing && |s'.tried| == |s.tried| + |moves|)
    decreases |moves|
  {
    if moves != [] {
      var n := |moves| - 1;
      TargetAfterTries(s, devs, moves[..n], before);
      var mid, s' := TargetAfter(s, devs, moves[..n]), TargetAfter(s, devs, moves);
      MoveKeepsOrder(mid, devs, moves[n].0, moves[n].1);
      hide TargetOrder, LogsTry, StartsOf, TargetRun;
      TryAppended(before, mid.log, s'.log, mid.tried, s'.tried);
    }
  }

  // A whole run: a START in any state, then any timeouts and failures, whatever ids the timers
  // get. It makes at most one start call per supporting device, exactly those of its tries, and
  // is over after that many timeouts and failures.
  lemma TargetRunIsBounded(s: TargetState, devs: seq<TestDevice>, r: Replies, moves: seq<(bool, Replies)>)
    requires TargetOrder(s, devs)
    ensures var s' := TargetAfter(TargetRun(s, devs, TargetBegin, r).state, devs, moves);
      && StartsOf(s'.log) == StartsOf(s.log) + s'.tried
      && |s'.tried| <= |SupportSet(devs, Target)|
      && (|moves| >= |SupportSet(devs, Target)| ==> !s'.testing)
  {
    var s1 := TargetRun(s, devs, TargetBegin, r).state;
    BeginKeepsOrder(s, devs, r);
    assert s1.testing ==> s1.tried != [];
    hide TargetRun, TargetAfter, StartsOf, SupportSet, InOrder, LogsTry;
    assert StartsOf(s.log) + [] == StartsOf(s.log);
    TryAppended(StartsOf(s.log), s.log, s1.log, [], s1.tried);
    TargetAfterTries(s1, devs, moves, StartsOf(s.log));
    RunLength(TargetAfter(s1, devs, moves).tried, devs, Target, 1);
  }

  // ---- Both machines ----

  // They never work on the same device.
  lemma DifferentDevices(t: TargetState, i: InitiatorState, devs: seq<TestDevice>)
    requires TargetInv(t, devs) && InitiatorInv(i, devs) && AllWired(devs)
    requires t.testing && i.testing
    ensures t.index != i.index
  {
    ExactlyOneRole(devs[t.index]);
  }
}
