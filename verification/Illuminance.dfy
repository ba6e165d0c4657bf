/** The illuminance test of examples/zigbee/artik_zigbee_example.c: a measured range that
    narrows from pass to pass and starts again, and a value that is kept inside it. */
module Illuminance {
  import opened Base
  import opened Devices
  import opened Registry

  const MIN := 100
  const MAX := 10000
  const STEP := 50

  // illuminance_min, illuminance_max and illuminance_value.
  datatype Sweep = Sweep(min: int, max: int, value: int)

  function Advance(s: Sweep): Sweep {
    var min, max := s.min + STEP, s.max - STEP;
    var range := if min >= max then (MIN, MAX) else (min, max);
    var value := s.value + STEP * 2;
    Sweep(range.0, range.1, if value < range.0 || value > range.1 then range.0 else value)
  }

  // The statics after j passes.
  function After(j: nat): Sweep {
    if j == 0 then Sweep(MIN, MAX, MIN) else Advance(After(j - 1))
  }

  // The pass of its cycle in which the value was last set to the minimum.
  function LastReset(cycle: nat, k: nat): nat {
    if cycle == 0 then if k < 67 then 0 else if k < 89 then 67 else if k < 96 then 89 else 96
    else if k < 78 then 33 else if k < 93 then 78 else if k < 98 then 93 else 98
  }

  // The value after k passes of a cycle of 99. A cycle begins with the value the one before
  // left, which from the second on is the same; it then climbs from one reset to the next.
  function ValueAt(cycle: nat, k: nat): int {
    if cycle > 0 && k < 33 then (if cycle == 1 then 5200 else 5100) + 100 * k
    else 100 + 100 * k - 50 * LastReset(cycle, k)
  }

  // The range closes after 99 passes and starts again; it never is empty, and the value is in it.
  lemma {:induction false} ClosedForm(j: nat)
    ensures After(j).min == MIN + STEP * (j % 99)
    ensures After(j).max == MAX - STEP * (j % 99)
    ensures After(j).min < After(j).max
    ensures After(j).min <= After(j).value <= After(j).max
    ensures After(j).value == ValueAt(j / 99, j % 99)
  {
    if j > 0 {
      ClosedForm(j - 1);
      NextInCycle(j - 1);
      OneStep(After(j - 1), (j - 1) / 99, (j - 1) % 99);
      hide Advance, ValueAt;
    }
  }

  lemma NextInCycle(j: nat)
    ensures (j + 1) % 99 == if j % 99 == 98 then 0 else j % 99 + 1
    ensures (j + 1) / 99 == if j % 99 == 98 then j / 99 + 1 else j / 99
  {
  }

  lemma OneStep(s: Sweep, cycle: nat, k: nat)
    requires k < 99 && s.min == MIN + STEP * k && s.max == MAX - STEP * k
    requires s.value == ValueAt(cycle, k)
    ensures var t, n := Advance(s), if k == 98 then 0 else k + 1;
      && t.min == MIN + STEP * n && t.max == MAX - STEP * n && t.min < t.max
      && t.min <= t.value <= t.max
      && t.value == ValueAt(if k == 98 then cycle + 1 else cycle, n)
  {
  }

  predicate HasSensor(d: TestDevice) { IllumSet in d.caps }

  // The table gives the two functions the test looks for together.
  lemma WiredSensor(d: TestDevice)
    requires Wired(d)
    ensures IllumSet in d.caps <==> IllumSetRange in d.caps
  {
  }

  // The endpoints of the first n devices that have a sensor.
  function Sensors(devs: seq<TestDevice>, n: nat): seq<int>
    requires n <= |devs|
  {
    if n == 0 then []
    else Sensors(devs, n - 1) + if HasSensor(devs[n - 1]) then [devs[n - 1].endpointId] else []
  }

  // What one device answers to the four calls of a pass; a device that is not listed fails.
  datatype Replies = Replies(setRange: Error, get: Error, setValue: Error, getAgain: Error)

  const NO_REPLY := Replies(ETryAgain, ETryAgain, ETryAgain, ETryAgain)

  // The answers of the first n devices asked.
  function Answered(replies: seq<Replies>, n: nat): (rs: seq<Replies>)
    ensures |rs| == n && forall k :: 0 <= k < n ==> rs[k] == if k < |replies| then replies[k] else NO_REPLY
  {
    seq(n, k requires 0 <= k < n => if k < |replies| then replies[k] else NO_REPLY)
  }

  // The first answer that is not S_OK ends the test.
  function Outcome(r: Replies): Error {
    if r.setRange != SOk then r.setRange
    else if r.get != SOk then r.get
    else if r.setValue != SOk then r.setValue
    else r.getAgain
  }

  // The requests of one pass. The value is sent once the range is set and the first get worked.
  datatype Pass = Pass(endpoint: int, min: int, max: int, value: Option<int>)

  function PassOf(endpoint: int, s: Sweep, r: Replies): Pass {
    Pass(endpoint, s.min, s.max, if r.setRange == SOk && r.get == SOk then Some(s.value) else None)
  }

  // In bounds for the k-th pass since the start of the program.
  predicate InRange(p: Pass, k: nat) {
    && p.min == MIN + STEP * ((k + 1) % 99) && p.max == MAX - STEP * ((k + 1) % 99)
    && (p.value.Some? ==> p.min <= p.value.value <= p.max)
    && (p.value.Some? ==> p.value.value == ValueAt((k + 1) / 99, (k + 1) % 99))
  }

  ghost predicate AllInRange(passes: seq<Pass>) {
    forall k :: 0 <= k < |passes| ==> InRange(passes[k], k)
  }

  // All passes after one more test: one pass for each sensor in registry order, up to and
  // including the first failure. The k-th sensor reached answers replies[k].
  function AfterTest(passes: seq<Pass>, devs: seq<TestDevice>, replies: seq<Replies>): seq<Pass> {
    var sensors := Sensors(devs, |devs|);
    var rs := Answered(replies, |sensors|);
    passes + PassesOf(sensors, |passes|, rs, Tried(rs))
  }

  function TestResult(devs: seq<TestDevice>, replies: seq<Replies>): Error {
    var rs := Answered(replies, |Sensors(devs, |devs|)|);
    if rs == [] then ENotSupported else Outcome(rs[Tried(rs) - 1])
  }

  // Whatever devices there are and whatever they answer, a test keeps every range and value
  // ever sent in bounds.
  lemma TestKeepsRange(passes: seq<Pass>, devs: seq<TestDevice>, replies: seq<Replies>)
    requires AllInRange(passes)
    ensures AllInRange(AfterTest(passes, devs, replies))
  {
    var all := AfterTest(passes, devs, replies);
    hide Sensors, Tried, Answered;
    forall k | |passes| <= k < |all| ensures InRange(all[k], k) { ClosedForm(k + 1); }
  }

  // All four calls of a pass worked.
  predicate Worked(r: Replies) {
    r.setRange == SOk && r.get == SOk && r.setValue == SOk && r.getAgain == SOk
  }

  function Answer(replies: seq<Replies>, k: nat): Replies {
    if k < |replies| then replies[k] else NO_REPLY
  }

  // A test asks the sensors in order, once each, until one of them fails; the value is sent to
  // those that took the range and answered. The last one asked decides the result.
  lemma TestCourse(passes: seq<Pass>, devs: seq<TestDevice>, replies: seq<Replies>)
    ensures var all, sensors := AfterTest(passes, devs, replies), Sensors(devs, |devs|);
      var n := |all| - |passes|;
      && 0 <= n <= |sensors| && all[..|passes|] == passes
      && (forall k :: 0 <= k < n ==>
            && all[|passes| + k].endpoint == sensors[k]
            && (all[|passes| + k].value.Some? <==>
                  Answer(replies, k).setRange == SOk && Answer(replies, k).get == SOk))
      && (forall k :: 0 <= k < n - 1 ==> Worked(Answer(replies, k)))
      && (n < |sensors| ==> n > 0 && !Worked(Answer(replies, n - 1)))
      && (sensors == [] ==> TestResult(devs, replies) == ENotSupported)
      && (sensors != [] ==> (TestResult(devs, replies) == SOk <==> n > 0 && Worked(Answer(replies, n - 1))))
  {
    hide Sensors, After;
    var rs := Answered(replies, |Sensors(devs, |devs|)|);
    TriedIs(rs);
    hide Tried;
  }

  lemma {:induction false} TriedIs(replies: seq<Replies>)
    ensures var n := Tried(replies);
      && (forall k :: 0 <= k < n - 1 ==> Worked(replies[k]))
      && (n < |replies| ==> n > 0 && !Worked(replies[n - 1]))
  {
    if replies != [] { TriedIs(replies[1..]); }
  }

  // The sensors are the light sensors of the registry, in its order.
  lemma SensorsAre(devs: seq<TestDevice>, n: nat)
    requires n < |devs| && AllWired(devs)
    ensures Sensors(devs, 0) == []
    ensures Sensors(devs, n + 1) == Sensors(devs, n) +
      if devs[n].profile == 0x0104 && devs[n].deviceId == 0x0106 then [devs[n].endpointId] else []
  {
    HasFunctionIff(devs[n], IllumSet);
  }

  lemma OneMoreInRange(passes: seq<Pass>, endpoint: int, r: Replies)
    requires AllInRange(passes)
    ensures AllInRange(passes + [PassOf(endpoint, After(|passes| + 1), r)])
  {
    ClosedForm(|passes| + 1);
    hide After;
  }

  class IlluminanceTest {
    const registry: TestDevices

    var min: int
    var max: int
    var value: int

    // Every pass made since the start.
    ghost var passes: seq<Pass>

    ghost predicate Valid()
      reads this
    {
      && Sweep(min, max, value) == After(|passes|)
      && AllInRange(passes)
    }

    constructor (registry: TestDevices)
      ensures Valid() && passes == [] && this.registry == registry
    {
      this.registry := registry;
      min, max, value := MIN, MAX, MIN;
      passes := [];
    }

    // The statics move on before the device is asked.
    method MakePass(endpoint: int, r: Replies) returns (ret: Error)
      requires Valid()
      modifies this
      ensures Valid() && ret == Outcome(r)
      ensures passes == old(passes) + [PassOf(endpoint, After(|old(passes)| + 1), r)]
    {
      hide AllInRange, InRange;
      min := min + STEP;
      max := max - STEP;
      value := value + STEP * 2;
      if min >= max { min, max := MIN, MAX; }
      if value < min || value > max { value := min; }
      assert Sweep(min, max, value) == After(|passes| + 1);
      hide After;
      OneMoreInRange(passes, endpoint, r);
      passes := passes + [PassOf(endpoint, After(|passes| + 1), r)];
      if r.setRange != SOk { return r.setRange; }
      if r.get != SOk { return r.get; }
      if r.setValue != SOk { return r.setValue; }
      return r.getAgain;
    }

    method AnySensor() returns (found: bool)
      requires registry.Valid() && AllWired(registry.devices)
      ensures found <==> Sensors(registry.devices, |registry.devices|) != []
    {
      hide Wired, Carries, ArtikList.Linked;
      NoSensors(registry.devices, |registry.devices|);
      var count := registry.Count();
      for i := 0 to count
        invariant count == |registry.devices|
        invariant forall k :: 0 <= k < i ==> !HasSensor(registry.devices[k])
      {
        var d := registry.Get(i);
        WiredSensor(registry.devices[i]);
        if IllumSet in d.value.caps && IllumSetRange in d.value.caps { return true; }
      }
      return false;
    }

    // _illuminance_test
    method Test(replies: seq<Replies>) returns (ret: Error)
      requires Valid() && registry.Valid() && AllWired(registry.devices)
      modifies this
      ensures Valid() && passes == AfterTest(old(passes), registry.devices, replies)
      ensures ret == TestResult(registry.devices, replies)
    {
      hide ArtikList.Linked, Carries, Outcome, After, PassOf, Wired;
      ghost var devs, before := registry.devices, |passes|;
      ghost var sensors := Sensors(devs, |devs|);
      ghost var rs := Answered(replies, |sensors|);
      var supported := AnySensor();
      if !supported {
        assert passes + PassesOf(sensors, before, rs, 0) == passes;
        return ENotSupported;
      }
      hide InRange, AllInRange, Answered;
      ret := SOk;
      var count := registry.Count();
      var i, made := 0, 0;
      while i < count
        invariant i <= count == |devs| && made == |Sensors(devs, i)| <= |sensors|
        invariant Valid() && passes == old(passes) + PassesOf(sensors, before, rs, made)
        invariant AllWork(rs, made) && ret == SOk
      {
        var d := registry.Get(i);
        SensorsGrow(devs, i + 1, |devs|);
        if IllumSet in d.value.caps {
          assert Sensors(devs, i + 1)[made] == d.value.endpointId == sensors[made];
          TriedAt(rs, made);
          var reply := if made < |replies| then replies[made] else NO_REPLY;
          ret := MakePass(d.value.endpointId, reply);
          OnePassMore(sensors, before, rs, made);
          if ret != SOk { return ret; }
          made := made + 1;
        }
        i := i + 1;
      }
      TriedAt(rs, made);
    }
  }

  lemma OnePassMore(sensors: seq<int>, before: nat, rs: seq<Replies>, n: nat)
    requires n < |sensors| == |rs|
    ensures PassesOf(sensors, before, rs, n + 1) ==
            PassesOf(sensors, before, rs, n) + [PassOf(sensors[n], After(before + n + 1), rs[n])]
  {
  }

  predicate AllWork(replies: seq<Replies>, n: nat)
    requires n <= |replies|
  {
    forall k :: 0 <= k < n ==> Outcome(replies[k]) == SOk
  }

  // Up to and including the first failure.
  function Tried(replies: seq<Replies>): (n: nat)
    ensures n <= |replies| && (replies != [] ==> n > 0)
  {
    if replies == [] then 0
    else if Outcome(replies[0]) != SOk then 1
    else 1 + Tried(replies[1..])
  }

  lemma {:induction false} TriedAt(replies: seq<Replies>, n: nat)
    requires n <= |replies| && AllWork(replies, n)
    ensures n == |replies| ==> Tried(replies) == n
    ensures n < |replies| ==> Tried(replies) > n
    ensures n < |replies| && Outcome(replies[n]) != SOk ==> Tried(replies) == n + 1
  {
    if n > 0 { TriedAt(replies[1..], n - 1); }
  }

  function PassesOf(sensors: seq<int>, before: nat, replies: seq<Replies>, n: nat): (ps: seq<Pass>)
    requires n <= |sensors| == |replies|
    ensures |ps| == n
  {
    seq(n, k requires 0 <= k < n => PassOf(sensors[k], After(before + k + 1), replies[k]))
  }

  lemma {:induction false} SensorsGrow(devs: seq<TestDevice>, n: nat, m: nat)
    requires n <= m <= |devs|
    ensures Sensors(devs, n) <= Sensors(devs, m)
  {
    if n < m { SensorsGrow(devs, n, m - 1); }
  }

  lemma {:induction false} NoSensors(devs: seq<TestDevice>, n: nat)
    requires n <= |devs|
    ensures Sensors(devs, n) == [] <==> forall k :: 0 <= k < n ==> !HasSensor(devs[k])
  {
    if n > 0 { NoSensors(devs, n - 1); }
  }
}
