/** What each command of the two commissioning machines does, said of the devices and of the
    calls made, and what whole runs of accepted starts come to. */
module CommandLaws {
  import opened Base
  import opened Devices
  import opened Commissioning

  // Device i is the first one from `from` on that takes part in the role.
  ghost predicate FirstFrom(devs: seq<TestDevice>, role: Role, from: int, i: nat) {
    && from <= i < |devs| && Supports(devs[i], role)
    && forall j :: 0 <= j < i && from <= j ==> !Supports(devs[j], role)
  }

  ghost predicate NoneFrom(devs: seq<TestDevice>, role: Role, from: int) {
    forall j :: 0 <= j < |devs| && from <= j ==> !Supports(devs[j], role)
  }

  // What the search finds, in these words.
  lemma SearchFinds(devs: seq<TestDevice>, role: Role, from: nat)
    requires from <= |devs|
    ensures forall i: nat :: FirstFrom(devs, role, from, i) <==> i < |devs| && i == NextSupporting(devs, role, from)
    ensures NoneFrom(devs, role, from) <==> NextSupporting(devs, role, from) == |devs|
    ensures NoneFrom(devs, role, 0) <==> NoneSupports(devs, role)
  {
    NoneSupportsIff(devs, role);
  }

  lemma SomeoneSupports(devs: seq<TestDevice>, role: Role, from: nat, i: nat)
    requires FirstFrom(devs, role, from, i)
    ensures !NoneSupports(devs, role) && NextSupporting(devs, role, from) == i && i < |devs|
  {
    SearchFinds(devs, role, from);
  }

  // ---- Initiator ----

  // What a start of device i comes to.
  ghost predicate StartedOn(
      s: InitiatorState, out: Outcome<InitiatorState>, before: seq<nat>, i: nat, retry: int, r: Replies)
  {
    var s' := out.state;
    && s'.tried == before + [i]
    && (r.start == SOk ==>
          && out.ret == SOk && s'.testing && s'.index == i && s'.retry == retry
          && s'.log == s.log + [StartCall(i)])
    && (r.start != SOk ==>
          out.ret == r.discover && !s'.testing && s'.log == s.log + [StartCall(i)] + [DiscoverCall])
  }

  lemma StartOf(s: InitiatorState, devs: seq<TestDevice>, from: nat, i: nat, retry: int, r: Replies)
    requires FirstFrom(devs, Initiator, from, i)
    ensures StartedOn(s, InitiatorStart(s, devs, from, retry, r), s.tried, i, retry, r)
  {
    SomeoneSupports(devs, Initiator, from, i);
    hide NoneSupports, NextSupporting;
  }

  // A failed device is started again as long as its budget lasts.
  lemma FailedDeviceIsRetried(s: InitiatorState, devs: seq<TestDevice>, i: nat, r: Replies)
    requires InitiatorInv(s, devs) && s.testing && s.index == i && s.retry > 0
    ensures StartedOn(s, InitiatorRun(s, devs, InitiatorFailure, r), s.tried, i, s.retry - 1, r)
  {
    InitiatorTestingIndexIsValid(s, devs);
    hide InitiatorInv, InitiatorStart, Supports, NoneSupports;
    StartOf(s.(retry := s.retry - 1), devs, i, i, s.retry - 1, r);
  }

  // A device that succeeded, or failed for the last time, is followed by the first one behind
  // it, with a full budget.
  lemma NextDeviceIsStarted(s: InitiatorState, devs: seq<TestDevice>, success: bool, i: nat, r: Replies)
    requires InitiatorInv(s, devs) && s.testing && (success || s.retry == 0)
    requires FirstFrom(devs, Initiator, s.index + 1, i)
    ensures var cmd := if success then InitiatorSuccess else InitiatorFailure;
      StartedOn(s, InitiatorRun(s, devs, cmd, r), s.tried, i, 5, r)
  {
    InitiatorTestingIndexIsValid(s, devs);
    hide InitiatorInv, InitiatorStart, Supports, NoneSupports;
    StartOf(s, devs, s.index + 1, i, 5, r);
    StartOf(s.(retry := s.retry - 1), devs, s.index + 1, i, 5, r);
  }

  ghost predicate RanOut(s: InitiatorState, out: Outcome<InitiatorState>, r: Replies) {
    && out.ret == r.discover && !out.state.testing
    && out.state.tried == s.tried && out.state.log == s.log + [DiscoverCall]
  }

  lemma StartOfNone(s: InitiatorState, devs: seq<TestDevice>, from: nat, retry: int, r: Replies)
    requires from <= |devs| && !NoneSupports(devs, Initiator) && NoneFrom(devs, Initiator, from)
    ensures RanOut(s, InitiatorStart(s, devs, from, retry, r), r)
  {
    SearchFinds(devs, Initiator, from);
    hide NoneSupports, NextSupporting;
  }

  // With no device behind it the run is over and the daemon is told to discover.
  lemma LastDeviceEndsRun(s: InitiatorState, devs: seq<TestDevice>, success: bool, r: Replies)
    requires InitiatorInv(s, devs) && s.testing && (success || s.retry == 0)
    requires NoneFrom(devs, Initiator, s.index + 1)
    ensures var cmd := if success then InitiatorSuccess else InitiatorFailure;
      RanOut(s, InitiatorRun(s, devs, cmd, r), r)
  {
    InitiatorTestingIndexIsValid(s, devs);
    hide InitiatorInv, InitiatorStart, Supports, NoneSupports;
    StartOfNone(s, devs, s.index + 1, 5, r);
    StartOfNone(s.(retry := s.retry - 1), devs, s.index + 1, 5, r);
  }

  // START begins with the first device, or changes nothing that was done when none takes part.
  lemma BeginStartsFirst(s: InitiatorState, devs: seq<TestDevice>, r: Replies)
    requires InitiatorInv(s, devs)
    ensures var out := InitiatorRun(s, devs, InitiatorBegin, r);
      && (forall i: nat :: FirstFrom(devs, Initiator, 0, i) ==> StartedOn(s, out, [], i, 5, r))
      && (NoneFrom(devs, Initiator, 0) ==>
            out.ret == ENotSupported && !out.state.testing && out.state.log == s.log)
  {
    if s.testing { InitiatorTestingIndexIsValid(s, devs); }
    SearchFinds(devs, Initiator, 0);
    hide InitiatorInv, NextSupporting, Supports, NoneSupports, NoneFrom, FirstFrom;
  }

  lemma BeginsWith(s: InitiatorState, devs: seq<TestDevice>, r: Replies, i: nat)
    requires InitiatorInv(s, devs) && FirstFrom(devs, Initiator, 0, i)
    ensures StartedOn(s, InitiatorRun(s, devs, InitiatorBegin, r), [], i, 5, r)
  {
    BeginStartsFirst(s, devs, r);
  }

  // STOP stops the device under test and nothing else; in an idle machine only START acts.
  lemma HaltStopsDevice(s: InitiatorState, devs: seq<TestDevice>, cmd: InitiatorCommand, i: nat, r: Replies)
    requires InitiatorInv(s, devs)
    ensures s.testing && s.index == i ==>
      InitiatorRun(s, devs, InitiatorHalt, r) == Outcome(s.(testing := false, log := s.log + [StopCall(i)]), r.stop)
    ensures !s.testing && !cmd.InitiatorBegin? ==> InitiatorRun(s, devs, cmd, r) == Outcome(s, SOk)
  {
    if s.testing { InitiatorTestingIndexIsValid(s, devs); }
    hide InitiatorInv, InitiatorStart, Supports, NoneSupports;
  }

  // ---- A run in which every start is accepted and every attempt fails ----

  // Every device behind the run has had its six attempts.
  ghost predicate SixEach(s: InitiatorState, devs: seq<TestDevice>) {
    && InitiatorInv(s, devs)
    && forall d :: 0 <= d < |devs| && Supports(devs[d], Initiator) && (s.testing ==> d < s.index) ==>
         Times(s.tried, d) == 6
  }

  ghost predicate OneFailureOn(s: InitiatorState, s': InitiatorState, devs: seq<TestDevice>) {
    && SixEach(s', devs)
    && |s'.tried| == |s.tried| + if s'.testing then 1 else 0
  }

  lemma FailureCounts(s: InitiatorState, devs: seq<TestDevice>, r: Replies)
    requires SixEach(s, devs) && s.testing && r.start == SOk
    ensures OneFailureOn(s, InitiatorRun(s, devs, InitiatorFailure, r).state, devs)
  {
    InitiatorTestingIndexIsValid(s, devs);
    InitiatorKeepsInv(s, devs, InitiatorFailure, r);
    var i: nat := NextSupporting(devs, Initiator, s.index + 1);
    var s' := InitiatorRun(s, devs, InitiatorFailure, r).state;
    SearchFinds(devs, Initiator, s.index + 1);
    hide InitiatorRun, InOrder, Times;
    if s.retry > 0 {
      FailedDeviceIsRetried(s, devs, s.index, r);
      OthersKeepTimes(s.tried, s.index);
    } else if i < |devs| {
      NextDeviceIsStarted(s, devs, false, i, r);
      OthersKeepTimes(s.tried, i);
    } else {
      LastDeviceEndsRun(s, devs, false, r);
    }
  }

  lemma OthersKeepTimes(tried: seq<nat>, i: nat)
    ensures forall d :: d != i ==> Times(tried + [i], d) == Times(tried, d)
  {
    forall d | d != i ensures Times(tried + [i], d) == Times(tried, d) { TimesSnoc(tried, i, d); }
  }

  ghost predicate AllFail(outcomes: seq<(bool, Replies)>) {
    forall k :: 0 <= k < |outcomes| ==> !outcomes[k].0 && outcomes[k].1.start == SOk
  }

  lemma {:induction false} FailuresCount(s: InitiatorState, devs: seq<TestDevice>, outcomes: seq<(bool, Replies)>)
    requires SixEach(s, devs) && s.testing && |s.tried| == 1 && AllFail(outcomes)
    ensures var s' := InitiatorAfter(s, devs, outcomes);
      && SixEach(s', devs)
      && (if s'.testing then |s'.tried| == |outcomes| + 1 else |s'.tried| <= |outcomes|)
    decreases |outcomes|
  {
    if outcomes != [] {
      var n := |outcomes| - 1;
      FailuresCount(s, devs, outcomes[..n]);
      var mid, r := InitiatorAfter(s, devs, outcomes[..n]), outcomes[n].1;
      assert !outcomes[n].0;
      assert InitiatorAfter(s, devs, outcomes) == InitiatorRun(mid, devs, InitiatorFailure, r).state;
      if mid.testing {
        FailureCounts(mid, devs, r);
      } else {
        HaltStopsDevice(mid, devs, InitiatorFailure, 0, r);
      }
      hide InitiatorRun, SixEach, InitiatorAfter;
    }
  }

  lemma {:induction false} ExactMultiset(m: multiset<nat>, s: set<nat>, bound: nat)
    requires forall x :: x in m ==> x in s
    requires forall x :: x in s ==> m[x] == bound
    ensures |m| == bound * |s|
    decreases s
  {
    if s == {} {
      assert m == multiset{};
    } else {
      var x :| x in s;
      var m' := m[x := 0];
      ExactMultiset(m', s - {x}, bound);
      assert |m| == |m'| + m[x];
      assert |s - {x}| == |s| - 1;
      assert bound * |s| == bound * (|s| - 1) + bound;
    }
  }

  // The tries of a run in which each device had the same number.
  lemma TriesInAll(tried: seq<nat>, devs: seq<TestDevice>, role: Role, bound: nat)
    requires NoneSkipped(tried, devs, role)
    requires forall d :: 0 <= d < |devs| && Supports(devs[d], role) ==> Times(tried, d) == bound
    ensures |tried| == bound * |SupportSet(devs, role)|
  {
    var m, supporting := multiset(tried), SupportSet(devs, role);
    forall x | x in m ensures x in supporting { assert x in tried; }
    forall x | x in supporting ensures m[x] == bound { TimesIsMultiplicity(tried, x); }
    ExactMultiset(m, supporting, bound);
  }

  // From START on, with every start accepted and every attempt failing: each of the m devices
  // is started exactly six times, and the run is over after 6 * m failures and not before.
  lemma EveryDeviceGetsSixAttempts(s: InitiatorState, devs: seq<TestDevice>, r: Replies, outcomes: seq<(bool, Replies)>)
    requires InitiatorInv(s, devs) && !NoneSupports(devs, Initiator)
    requires r.start == SOk && AllFail(outcomes)
    ensures var m := |SupportSet(devs, Initiator)|;
      var s' := InitiatorAfter(InitiatorRun(s, devs, InitiatorBegin, r).state, devs, outcomes);
      && (s'.testing <==> |outcomes| < 6 * m)
      && |s'.tried| == (if s'.testing then |outcomes| + 1 else 6 * m)
      && (!s'.testing ==> forall d :: 0 <= d < |devs| && Supports(devs[d], Initiator) ==> Times(s'.tried, d) == 6)
  {
    var s1 := InitiatorRun(s, devs, InitiatorBegin, r).state;
    var s' := InitiatorAfter(s1, devs, outcomes);
    FirstAttempt(s, devs, r);
    InitiatorRunIsBounded(s, devs, r, outcomes);
    hide InitiatorRun, InitiatorAfter, SupportSet, Times;
    FailuresCount(s1, devs, outcomes);
    if !s'.testing { TriesInAll(s'.tried, devs, Initiator, 6); }
  }

  lemma FirstAttempt(s: InitiatorState, devs: seq<TestDevice>, r: Replies)
    requires InitiatorInv(s, devs) && !NoneSupports(devs, Initiator) && r.start == SOk
    ensures var s1 := InitiatorRun(s, devs, InitiatorBegin, r).state;
      SixEach(s1, devs) && s1.testing && |s1.tried| == 1
  {
    SomeSupports(devs, Initiator);
    SearchFinds(devs, Initiator, 0);
    hide InitiatorRun, InOrder, Times, NoneSupports;
    BeginsWith(s, devs, r, NextSupporting(devs, Initiator, 0));
    InitiatorKeepsInv(s, devs, InitiatorBegin, r);
  }

  // ---- Target ----

  // What a start of device i comes to, once the calls in `stops` were made: an accepted one
  // arms a timer for it, and is a run exactly if the timer's id is positive; after a refused
  // one the timer is removed and the daemon told to discover.
  ghost predicate ArmedOn(
      s: TargetState, out: Outcome<TargetState>, before: seq<nat>, stops: seq<Call>, i: nat, r: Replies)
  {
    var s' := out.state;
    && s'.tried == before + [i]
    && (r.start == SOk ==>
          && out.ret == SOk && s'.index == i && s'.armings == s.armings + [i]
          && s'.log == s.log + stops + [StartCall(i)]
          && (s'.testing <==> r.timer.id > 0)
          && (r.timer.id > 0 ==> s'.timeoutId == r.timer.id)
          && s'.pending == if r.timer.registered then s.pending[r.timer.id := |s.armings|] else s.pending)
    && (r.start != SOk ==>
          && out.ret == r.discover && !s'.testing && s'.pending == s.pending - {s.timeoutId}
          && s'.log == s.log + stops + [StartCall(i)] + [DiscoverCall])
  }

  lemma ArmingOf(s: TargetState, devs: seq<TestDevice>, from: nat, i: nat, r: Replies)
    requires FirstFrom(devs, Target, from, i)
    ensures ArmedOn(s, TargetStart(s, devs, from, r), s.tried, [], i, r)
  {
    SomeoneSupports(devs, Target, from, i);
    hide NoneSupports, NextSupporting;
    assert s.log + [] == s.log;
  }

  ghost predicate TargetRanOut(s: TargetState, out: Outcome<TargetState>, stops: seq<Call>, r: Replies) {
    && out.ret == r.discover && !out.state.testing && out.state.tried == s.tried
    && out.state.log == s.log + stops + [DiscoverCall]
    && out.state.pending == s.pending - {s.timeoutId}
  }

  lemma ArmingOfNone(s: TargetState, devs: seq<TestDevice>, from: nat, r: Replies)
    requires from <= |devs| && !NoneSupports(devs, Target) && NoneFrom(devs, Target, from)
    ensures TargetRanOut(s, TargetStart(s, devs, from, r), [], r)
  {
    SearchFinds(devs, Target, from);
    hide NoneSupports, NextSupporting;
    assert s.log + [] == s.log;
  }

  // A timeout stops the device under test, a failure does not; both go on with the first
  // device behind it.
  lemma NextDeviceIsArmed(s: TargetState, devs: seq<TestDevice>, i: nat, r: Replies)
    requires TargetOrder(s, devs) && s.testing && s.index >= 0 && FirstFrom(devs, Target, s.index + 1, i)
    ensures ArmedOn(s, TargetRun(s, devs, TargetFailure, r), s.tried, [], i, r)
    ensures ArmedOn(s, TargetRun(s, devs, TargetTimeout, r), s.tried, [StopCall(s.index)], i, r)
  {
    OrderOfTesting(s, devs);
    hide TargetOrder, TargetStart, NoneSupports, FirstFrom;
    ArmingOf(s, devs, s.index + 1, i, r);
    var s1 := s.(log := s.log + [StopCall(s.index)]);
    ArmingOf(s1, devs, s.index + 1, i, r);
    assert s1.log + [] == s1.log;
  }

  lemma LastTargetEndsRun(s: TargetState, devs: seq<TestDevice>, r: Replies)
    requires TargetOrder(s, devs) && s.testing && s.index >= 0 && NoneFrom(devs, Target, s.index + 1)
    ensures TargetRanOut(s, TargetRun(s, devs, TargetFailure, r), [], r)
    ensures TargetRanOut(s, TargetRun(s, devs, TargetTimeout, r), [StopCall(s.index)], r)
  {
    OrderOfTesting(s, devs);
    hide TargetOrder, TargetStart, NoneSupports, NoneFrom;
    ArmingOfNone(s, devs, s.index + 1, r);
    var s1 := s.(log := s.log + [StopCall(s.index)]);
    ArmingOfNone(s1, devs, s.index + 1, r);
    assert s1.log + [] == s1.log;
  }

  lemma TargetBeginsWith(s: TargetState, devs: seq<TestDevice>, r: Replies, i: nat)
    requires TargetOrder(s, devs) && FirstFrom(devs, Target, 0, i)
    ensures ArmedOn(s, TargetRun(s, devs, TargetBegin, r), [], [], i, r)
  {
    if s.testing { OrderOfTesting(s, devs); }
    hide TargetOrder, TargetStart, NoneSupports, FirstFrom;
    ArmingOf(s.(tried := []), devs, 0, i, r);
  }

  // STOP stops the device under test and leaves its timer to the loop; a success changes
  // nothing; in an idle machine only START acts, and START only if a device takes part.
  lemma TargetStopsOrStays(s: TargetState, devs: seq<TestDevice>, cmd: TargetCommand, i: nat, r: Replies)
    requires TargetOrder(s, devs)
    ensures s.testing && s.index == i ==>
      TargetRun(s, devs, TargetHalt, r) == Outcome(s.(testing := false, log := s.log + [StopCall(i)]), r.stop)
    ensures s.testing ==> TargetRun(s, devs, TargetSuccess, r) == Outcome(s, SOk)
    ensures !s.testing && !cmd.TargetBegin? ==> TargetRun(s, devs, cmd, r) == Outcome(s, SOk)
    ensures NoneFrom(devs, Target, 0) ==>
      TargetRun(s, devs, TargetBegin, r) == Outcome(s.(tried := []), ENotSupported)
  {
    if s.testing { OrderOfTesting(s, devs); }
    SearchFinds(devs, Target, 0);
    hide TargetOrder, NoneSupports, NoneFrom, NextSupporting;
  }

  // The timer the machine holds is forgotten and then acts as a timeout.
  lemma OwnTimerMovesOn(s: TargetState, devs: seq<TestDevice>, i: nat, r: Replies)
    requires TargetOrder(s, devs) && s.testing && s.index >= 0 && FirstFrom(devs, Target, s.index + 1, i)
    requires r.start == SOk
    ensures var s' := TimerFires(s, devs, s.timeoutId, r);
      && s'.log == s.log + [StopCall(s.index)] + [StartCall(i)] && s'.tried == s.tried + [i]
      && s'.index == i && (s'.testing <==> r.timer.id > 0)
  {
    var s1 := s.(pending := s.pending - {s.timeoutId});
    assert TimerFires(s, devs, s.timeoutId, r) == TargetRun(s1, devs, TargetTimeout, r).state;
    hide TargetRun, TimerFires, InOrder, FirstFrom;
    NextDeviceIsArmed(s1, devs, i, r);
  }

  // ---- A run in which every start is accepted and every timer gets a positive id ----

  ghost predicate Accepted(r: Replies) { r.start == SOk && r.timer.id > 0 }

  ghost predicate AllAccepted(moves: seq<(bool, Replies)>) {
    forall k :: 0 <= k < |moves| ==> Accepted(moves[k].1)
  }

  ghost predicate OneEach(s: TargetState, devs: seq<TestDevice>) {
    TargetOrder(s, devs) && (!s.testing ==> AllTried(s.tried, devs, Target))
  }

  lemma MoveCounts(s: TargetState, devs: seq<TestDevice>, timeout: bool, r: Replies)
    requires OneEach(s, devs) && s.testing && Accepted(r)
    ensures var s' := TargetRun(s, devs, MoveOf(timeout), r).state;
      OneEach(s', devs) && |s'.tried| == |s.tried| + if s'.testing then 1 else 0
  {
    OrderOfTesting(s, devs);
    NoneLeft(s.tried, devs, Target, 1);
    MoveKeepsOrder(s, devs, timeout, r);
    SearchFinds(devs, Target, s.index + 1);
    hide TargetRun, InOrder, NoneFrom, FirstFrom, AllTried, LogsTry;
    var i := NextSupporting(devs, Target, s.index + 1);
    if i < |devs| { NextDeviceIsArmed(s, devs, i, r); } else { LastTargetEndsRun(s, devs, r); }
  }

  lemma {:induction false} MovesCount(s: TargetState, devs: seq<TestDevice>, moves: seq<(bool, Replies)>)
    requires OneEach(s, devs) && s.testing && |s.tried| == 1 && AllAccepted(moves)
    ensures var s' := TargetAfter(s, devs, moves);
      && OneEach(s', devs)
      && (if s'.testing then |s'.tried| == |moves| + 1 else |s'.tried| <= |moves|)
    decreases |moves|
  {
    if moves != [] {
      var n := |moves| - 1;
      MovesCount(s, devs, moves[..n]);
      var mid, r := TargetAfter(s, devs, moves[..n]), moves[n].1;
      assert Accepted(r);
      assert TargetAfter(s, devs, moves) == TargetRun(mid, devs, MoveOf(moves[n].0), r).state;
      if mid.testing {
        MoveCounts(mid, devs, moves[n].0, r);
      } else {
        TargetStopsOrStays(mid, devs, MoveOf(moves[n].0), 0, r);
      }
      hide TargetRun, OneEach, TargetAfter;
    }
  }

  lemma FirstArming(s: TargetState, devs: seq<TestDevice>, r: Replies)
    requires TargetOrder(s, devs) && !NoneSupports(devs, Target) && Accepted(r)
    ensures var s1 := TargetRun(s, devs, TargetBegin, r).state;
      OneEach(s1, devs) && s1.testing && |s1.tried| == 1
  {
    SomeSupports(devs, Target);
    SearchFinds(devs, Target, 0);
    hide TargetRun, InOrder, NoneSupports, LogsTry;
    TargetBeginsWith(s, devs, r, NextSupporting(devs, Target, 0));
    BeginKeepsOrder(s, devs, r);
  }

  lemma OnceEach(tried: seq<nat>, devs: seq<TestDevice>)
    requires InOrder(tried, devs, Target, 1) && AllTried(tried, devs, Target)
    ensures forall d :: 0 <= d < |devs| && Supports(devs[d], Target) ==> Times(tried, d) == 1
    ensures |tried| == |SupportSet(devs, Target)|
  {
    forall d | 0 <= d < |devs| && Supports(devs[d], Target) ensures Times(tried, d) == 1 {
      TimesIsMultiplicity(tried, d);
      assert multiset(tried)[d] > 0;
    }
    hide Times, Supports;
    TriesInAll(tried, devs, Target, 1);
  }

  // From START on, with every start accepted and every timer id positive: each of the m
  // devices is started exactly once, whichever of them time out and whichever fail, and the
  // run is over after m timeouts and failures and not before.
  lemma EveryTargetGetsOneTurn(s: TargetState, devs: seq<TestDevice>, r: Replies, moves: seq<(bool, Replies)>)
    requires TargetOrder(s, devs) && !NoneSupports(devs, Target)
    requires Accepted(r) && AllAccepted(moves)
    ensures var m := |SupportSet(devs, Target)|;
      var s' := TargetAfter(TargetRun(s, devs, TargetBegin, r).state, devs, moves);
      && (s'.testing <==> |moves| < m)
      && |s'.tried| == (if s'.testing then |moves| + 1 else m)
      && (!s'.testing ==> forall d :: 0 <= d < |devs| && Supports(devs[d], Target) ==> Times(s'.tried, d) == 1)
  {
    var s1 := TargetRun(s, devs, TargetBegin, r).state;
    var s' := TargetAfter(s1, devs, moves);
    FirstArming(s, devs, r);
    TargetRunIsBounded(s, devs, r, moves);
    hide TargetRun, TargetAfter, SupportSet, Times, InOrder, StartsOf;
    MovesCount(s1, devs, moves);
    if !s'.testing { OnceEach(s'.tried, devs); }
  }
}
