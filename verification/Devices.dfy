/** The simulated ZigBee devices of the example: their types, the functions each type
    supports, and what registering one does to the list of devices. */
module Devices {
  import opened Base

  const PROFILE_HA := 0x0104
  const ON_OFF_SWITCH := 0x0000
  const LEVEL_CONTROL_SWITCH := 0x0001
  const REMOTE_CONTROL := 0x0006
  const ON_OFF_LIGHT := 0x0100
  const DIMMABLE_LIGHT := 0x0101
  const LIGHT_SENSOR := 0x0106

  const ENDPOINT_ID_MIN := 1
  const ENDPOINT_ID_MAX := 239
  const MAX_ENDPOINTS := 5

  // A function pointer of struct test_device.
  datatype Capability =
    | EzInitiatorStart | EzInitiatorStop | EzTargetStart | EzTargetStop
    | IdentifyRequest | IdentifyGetRemainingTime
    | GroupsGetLocalNameSupport | GroupsSetLocalNameSupport
    | OnoffCommand | OnoffGetValue | LevelControlRequest | LevelControlGetValue
    | IllumSetRange | IllumSet | IllumGet
    | ResetToFactoryDefault | RequestReporting | StopReporting

  // `caps` holds the function pointers that are not NULL. The device's own handle always
  // equals its endpoint id.
  datatype TestDevice = TestDevice(profile: int, deviceId: int, endpointId: int, caps: set<Capability>)

  // One entry of a saved endpoint record.
  datatype LocalEndpoint = LocalEndpoint(profile: int, endpointId: int, deviceId: int)

  datatype DeviceType = DeviceType(profile: int, deviceId: int, defaultEndpoint: int)

  const DEVICE_TYPES: seq<DeviceType> := [
    DeviceType(PROFILE_HA, ON_OFF_SWITCH, 1),
    DeviceType(PROFILE_HA, LEVEL_CONTROL_SWITCH, 2),
    DeviceType(PROFILE_HA, ON_OFF_LIGHT, 19),
    DeviceType(PROFILE_HA, DIMMABLE_LIGHT, 20),
    DeviceType(PROFILE_HA, LIGHT_SENSOR, 25),
    DeviceType(PROFILE_HA, REMOTE_CONTROL, 34)]

  // The functions a device of this type gets; None for an unsupported type.
  function CapabilitiesOf(profile: int, deviceId: int): Option<set<Capability>> {
    if profile != PROFILE_HA then None
    else if deviceId == ON_OFF_SWITCH then
      Some({IdentifyRequest, IdentifyGetRemainingTime, OnoffCommand, EzInitiatorStart, EzInitiatorStop})
    else if deviceId == LEVEL_CONTROL_SWITCH then
      Some({IdentifyRequest, IdentifyGetRemainingTime, OnoffCommand, LevelControlRequest,
            EzInitiatorStart, EzInitiatorStop})
    else if deviceId == ON_OFF_LIGHT then
      Some({GroupsGetLocalNameSupport, GroupsSetLocalNameSupport, OnoffGetValue, EzTargetStart, EzTargetStop})
    else if deviceId == DIMMABLE_LIGHT then
      Some({GroupsGetLocalNameSupport, GroupsSetLocalNameSupport, OnoffGetValue, LevelControlGetValue,
            EzTargetStart, EzTargetStop})
    else if deviceId == LIGHT_SENSOR then
      Some({IdentifyRequest, IdentifyGetRemainingTime, IllumSet, IllumGet, IllumSetRange,
            EzInitiatorStart, EzInitiatorStop})
    else if deviceId == REMOTE_CONTROL then
      Some({ResetToFactoryDefault, IdentifyRequest, IdentifyGetRemainingTime, OnoffCommand,
            LevelControlRequest, RequestReporting, StopReporting, EzTargetStart, EzTargetStop})
    else None
  }

  // The two commissioning roles.
  datatype Role = Initiator | Target

  // A device takes part in a role when both its start and its stop function are there.
  predicate Supports(d: TestDevice, role: Role) {
    match role
    case Initiator => EzInitiatorStart in d.caps && EzInitiatorStop in d.caps
    case Target => EzTargetStart in d.caps && EzTargetStop in d.caps
  }

  predicate NoneSupports(devs: seq<TestDevice>, role: Role) {
    forall i :: 0 <= i < |devs| ==> !Supports(devs[i], role)
  }

  // The first supporting position from `from` on; the length when there is none.
  function NextSupporting(devs: seq<TestDevice>, role: Role, from: nat): (i: nat)
    requires from <= |devs|
    ensures from <= i <= |devs|
    ensures forall j :: from <= j < i ==> !Supports(devs[j], role)
    ensures i < |devs| ==> Supports(devs[i], role)
    decreases |devs| - from
  {
    if from == |devs| || Supports(devs[from], role) then from else NextSupporting(devs, role, from + 1)
  }

  lemma NoneSupportsIff(devs: seq<TestDevice>, role: Role)
    ensures NoneSupports(devs, role) <==> NextSupporting(devs, role, 0) == |devs|
  {
  }

  // Installed the way the table says, or without any function at all.
  predicate Wired(d: TestDevice) {
    match CapabilitiesOf(d.profile, d.deviceId)
    case Some(caps) => d.caps == caps
    case None => d.caps == {}
  }

  predicate AllWired(devs: seq<TestDevice>) {
    forall i :: 0 <= i < |devs| ==> Wired(devs[i])
  }

  predicate Supported(d: TestDevice) {
    CapabilitiesOf(d.profile, d.deviceId).Some? && Wired(d)
  }

  // The table gives every supported type exactly one role, and an unsupported one none.
  lemma ExactlyOneRole(d: TestDevice)
    requires Wired(d)
    ensures !(Supports(d, Initiator) && Supports(d, Target))
    ensures Supports(d, Initiator) || Supports(d, Target) <==> CapabilitiesOf(d.profile, d.deviceId).Some?
  {
  }

  // The table read the other way: which device types have a function.
  function TypesWith(c: Capability): seq<int> {
    match c
    case EzInitiatorStart | EzInitiatorStop => [ON_OFF_SWITCH, LEVEL_CONTROL_SWITCH, LIGHT_SENSOR]
    case EzTargetStart | EzTargetStop => [ON_OFF_LIGHT, DIMMABLE_LIGHT, REMOTE_CONTROL]
    case IdentifyRequest | IdentifyGetRemainingTime =>
      [ON_OFF_SWITCH, LEVEL_CONTROL_SWITCH, LIGHT_SENSOR, REMOTE_CONTROL]
    case GroupsGetLocalNameSupport | GroupsSetLocalNameSupport => [ON_OFF_LIGHT, DIMMABLE_LIGHT]
    case OnoffCommand => [ON_OFF_SWITCH, LEVEL_CONTROL_SWITCH, REMOTE_CONTROL]
    case OnoffGetValue => [ON_OFF_LIGHT, DIMMABLE_LIGHT]
    case LevelControlRequest => [LEVEL_CONTROL_SWITCH, REMOTE_CONTROL]
    case LevelControlGetValue => [DIMMABLE_LIGHT]
    case IllumSetRange | IllumSet | IllumGet => [LIGHT_SENSOR]
    case ResetToFactoryDefault | RequestReporting | StopReporting => [REMOTE_CONTROL]
  }

  lemma HasFunctionIff(d: TestDevice, c: Capability)
    requires Wired(d)
    ensures c in d.caps <==> d.profile == PROFILE_HA && d.deviceId in TypesWith(c)
  {
  }

  // The switches and the light sensor look for partners; the lights and the remote control
  // are found by them.
  lemma WhoInitiates(d: TestDevice)
    requires Wired(d)
    ensures Supports(d, Initiator) <==> d.profile == 0x0104 && d.deviceId in [0x0000, 0x0001, 0x0106]
    ensures Supports(d, Target) <==> d.profile == 0x0104 && d.deviceId in [0x0100, 0x0101, 0x0006]
  {
  }

  // ---- The registry as a sequence ----

  predicate Uses(devs: seq<TestDevice>, endpointId: int) {
    exists i :: 0 <= i < |devs| && devs[i].endpointId == endpointId
  }

  // The first device with this endpoint id; the length when there is none.
  function EndpointIndex(devs: seq<TestDevice>, endpointId: int): (k: nat)
    ensures k <= |devs|
    ensures forall i :: 0 <= i < k ==> devs[i].endpointId != endpointId
    ensures k < |devs| ==> devs[k].endpointId == endpointId
    ensures k < |devs| <==> Uses(devs, endpointId)
  {
    if devs == [] || devs[0].endpointId == endpointId then 0 else 1 + EndpointIndex(devs[1..], endpointId)
  }

  // Deleting goes through the list handle, and the handle 0 is the invalid one.
  function Deleted(devs: seq<TestDevice>, endpointId: int): seq<TestDevice> {
    var k := EndpointIndex(devs, endpointId);
    if endpointId == 0 then devs else Without(devs, k)
  }

  // _func_endpoint_add: append, install the functions, and delete by endpoint id if the type
  // is not supported.
  function EndpointAdded(devs: seq<TestDevice>, profile: int, deviceId: int, endpointId: int): seq<TestDevice> {
    match CapabilitiesOf(profile, deviceId)
    case Some(caps) => devs + [TestDevice(profile, deviceId, endpointId, caps)]
    case None => Deleted(devs + [TestDevice(profile, deviceId, endpointId, {})], endpointId)
  }

  function EndpointAddResult(profile: int, deviceId: int): Error {
    if CapabilitiesOf(profile, deviceId).Some? then SOk else EBadArgs
  }

  // Deleting takes out the first device of the id, and none for the id 0.
  lemma DeletesFirst(devs: seq<TestDevice>, endpointId: int)
    ensures endpointId == 0 || !Uses(devs, endpointId) ==> Deleted(devs, endpointId) == devs
    ensures endpointId != 0 && Uses(devs, endpointId) ==>
      exists k :: 0 <= k < |devs| && devs[k].endpointId == endpointId
        && (forall i :: 0 <= i < k ==> devs[i].endpointId != endpointId)
        && Deleted(devs, endpointId) == devs[..k] + devs[k + 1..]
  {
    var k := EndpointIndex(devs, endpointId);
    hide EndpointIndex;
    assert k < |devs| ==> Without(devs, k) == devs[..k] + devs[k + 1..];
  }

  // Adding a device of one of the six types appends it with the functions of its type; any
  // other type is refused as a bad argument.
  lemma AddsSixTypes(devs: seq<TestDevice>, profile: int, deviceId: int, endpointId: int, c: Capability)
    ensures var all := EndpointAdded(devs, profile, deviceId, endpointId);
      if profile == 0x0104 && deviceId in [0x0000, 0x0001, 0x0006, 0x0100, 0x0101, 0x0106] then
        && EndpointAddResult(profile, deviceId) == SOk
        && |all| == |devs| + 1 && all[..|devs|] == devs
        && var d := all[|devs|];
           && d.profile == profile && d.deviceId == deviceId && d.endpointId == endpointId
           && (c in d.caps <==> deviceId in TypesWith(c))
      else
        EndpointAddResult(profile, deviceId) == EBadArgs &&
        all == Deleted(devs + [TestDevice(profile, deviceId, endpointId, {})], endpointId)
  {
    var caps := CapabilitiesOf(profile, deviceId);
    if caps.Some? { HasFunctionIff(TestDevice(profile, deviceId, endpointId, caps.value), c); }
    hide TypesWith, Deleted;
  }

  lemma IndexBehind(devs: seq<TestDevice>, d: TestDevice)
    ensures EndpointIndex(devs + [d], d.endpointId) == EndpointIndex(devs, d.endpointId)
  {
    var all := devs + [d];
    var k, k' := EndpointIndex(devs, d.endpointId), EndpointIndex(all, d.endpointId);
    assert all[|devs|] == d && all[|devs|].endpointId == d.endpointId;
    hide EndpointIndex;
    assert forall i :: 0 <= i < |devs| ==> all[i] == devs[i];
  }

  lemma {:induction false} ShiftedSame(devs: seq<TestDevice>, d: TestDevice, k: nat)
    requires k <= |devs|
    requires forall i {:trigger (devs + [d])[i]} :: k < i <= |devs| ==> (devs + [d])[i] == devs[i - 1]
    ensures forall i :: k <= i < |devs| ==> devs[i] == d
    decreases |devs| - k
  {
    if k < |devs| {
      ShiftedSame(devs, d, k + 1);
      assert (devs + [d])[k + 1] == devs[k];
    }
  }

  // A failing add leaves the registry alone exactly when the endpoint id is non-zero and
  // everything from the first device of that id on is the very device that failed. So for an
  // id in use it deletes the older device of that id, unless earlier failures of the same kind
  // are all that stands behind; for id 0 it deletes nothing at all.
  lemma FailedAddUnchangedIff(devs: seq<TestDevice>, profile: int, deviceId: int, endpointId: int)
    requires CapabilitiesOf(profile, deviceId).None?
    ensures var failed := TestDevice(profile, deviceId, endpointId, {});
      EndpointAdded(devs, profile, deviceId, endpointId) == devs
      <==> endpointId != 0 && forall i :: EndpointIndex(devs, endpointId) <= i < |devs| ==> devs[i] == failed
  {
    var failed := TestDevice(profile, deviceId, endpointId, {});
    var all, k := devs + [failed], EndpointIndex(devs, endpointId);
    IndexBehind(devs, failed);
    if endpointId != 0 {
      var left := Without(all, k);
      assert EndpointAdded(devs, profile, deviceId, endpointId) == left;
      hide EndpointAdded, EndpointIndex, Deleted;
      if left == devs {
        forall i | k < i <= |devs| ensures all[i] == devs[i - 1] { assert left[i - 1] == all[i]; }
        ShiftedSame(devs, failed, k);
      }
    }
  }

  // In a registry without such leftovers: exactly when the id is non-zero and not in use.
  lemma FailedAddUnchangedIffUnused(devs: seq<TestDevice>, profile: int, deviceId: int, endpointId: int)
    requires CapabilitiesOf(profile, deviceId).None?
    requires TestDevice(profile, deviceId, endpointId, {}) !in devs
    ensures EndpointAdded(devs, profile, deviceId, endpointId) == devs
            <==> endpointId != 0 && !Uses(devs, endpointId)
  {
    FailedAddUnchangedIff(devs, profile, deviceId, endpointId);
    var k := EndpointIndex(devs, endpointId);
    assert k < |devs| ==> devs[k] in devs;
  }

  predicate DistinctEndpoints(devs: seq<TestDevice>) {
    forall i, j :: 0 <= i < j < |devs| ==> devs[i].endpointId != devs[j].endpointId
  }

  // What the interactive dialogue keeps: supported devices with distinct ids in 1..239.
  predicate Orderly(devs: seq<TestDevice>) {
    && DistinctEndpoints(devs)
    && forall i :: 0 <= i < |devs| ==>
         Supported(devs[i]) && ENDPOINT_ID_MIN <= devs[i].endpointId <= ENDPOINT_ID_MAX
  }

  lemma AddKeepsOrderly(devs: seq<TestDevice>, profile: int, deviceId: int, endpointId: int)
    requires Orderly(devs) && !Uses(devs, endpointId)
    requires ENDPOINT_ID_MIN <= endpointId <= ENDPOINT_ID_MAX
    ensures Orderly(EndpointAdded(devs, profile, deviceId, endpointId))
  {
    if CapabilitiesOf(profile, deviceId).None? {
      FailedAddUnchangedIff(devs, profile, deviceId, endpointId);
      assert EndpointIndex(devs, endpointId) == |devs|;
    } else {
      var all := EndpointAdded(devs, profile, deviceId, endpointId);
      forall i, j | 0 <= i < j < |all| ensures all[i].endpointId != all[j].endpointId {
        assert i < |devs| && all[i] == devs[i];
        if j < |devs| { assert all[j] == devs[j]; }
      }
    }
  }

  lemma AddKeepsWired(devs: seq<TestDevice>, profile: int, deviceId: int, endpointId: int)
    requires AllWired(devs)
    ensures AllWired(EndpointAdded(devs, profile, deviceId, endpointId))
  {
  }

  // ---- Saving and resuming ----

  function Record(d: TestDevice): LocalEndpoint {
    LocalEndpoint(d.profile, d.endpointId, d.deviceId)
  }

  // The record _func_endpoint_init hands to the daemon: the first five devices in order.
  function Saved(devs: seq<TestDevice>): (rec: seq<LocalEndpoint>)
    ensures |rec| == if |devs| < MAX_ENDPOINTS then |devs| else MAX_ENDPOINTS
    ensures forall i :: 0 <= i < |rec| ==> rec[i] == Record(devs[i])
  {
    var n := if |devs| < MAX_ENDPOINTS then |devs| else MAX_ENDPOINTS;
    seq(n, i requires 0 <= i < n => Record(devs[i]))
  }

  // Resuming adds the entries of a record one by one, ignoring failures.
  function Resumed(devs: seq<TestDevice>, rec: seq<LocalEndpoint>): seq<TestDevice>
    decreases |rec|
  {
    if rec == [] then devs
    else
      var last := rec[|rec| - 1];
      EndpointAdded(Resumed(devs, rec[..|rec| - 1]), last.profile, last.deviceId, last.endpointId)
  }

  lemma {:induction false} ResumedKeepsWired(devs: seq<TestDevice>, rec: seq<LocalEndpoint>)
    requires AllWired(devs)
    ensures AllWired(Resumed(devs, rec))
    decreases |rec|
  {
    if rec != [] {
      var last := rec[|rec| - 1];
      ResumedKeepsWired(devs, rec[..|rec| - 1]);
      AddKeepsWired(Resumed(devs, rec[..|rec| - 1]), last.profile, last.deviceId, last.endpointId);
    }
  }

  // A record this program can have written: distinct supported endpoints with ids in 1..239.
  predicate WellSaved(rec: seq<LocalEndpoint>) {
    && |rec| <= MAX_ENDPOINTS
    && (forall i, j :: 0 <= i < j < |rec| ==> rec[i].endpointId != rec[j].endpointId)
    && forall i :: 0 <= i < |rec| ==>
         && CapabilitiesOf(rec[i].profile, rec[i].deviceId).Some?
         && ENDPOINT_ID_MIN <= rec[i].endpointId <= ENDPOINT_ID_MAX
  }

  // Saving an orderly registry and resuming from the record rebuilds the first five devices,
  // functions included; saving those again writes the same record.
  lemma SaveResumeRoundTrip(devs: seq<TestDevice>)
    requires Orderly(devs)
    ensures WellSaved(Saved(devs)) && |Saved(devs)| == if |devs| < 5 then |devs| else 5
    ensures Resumed([], Saved(devs)) == devs[..|Saved(devs)|]
    ensures Orderly(Resumed([], Saved(devs)))
    ensures Saved(Resumed([], Saved(devs))) == Saved(devs)
  {
    var rec := Saved(devs);
    ResumePrefix(devs, |rec|);
    assert rec[..|rec|] == rec;
  }

  lemma {:induction false} ResumePrefix(devs: seq<TestDevice>, n: nat)
    requires Orderly(devs) && n <= |Saved(devs)|
    ensures Resumed([], Saved(devs)[..n]) == devs[..n]
    decreases n
  {
    if n > 0 {
      ResumePrefix(devs, n - 1);
      var rec := Saved(devs)[..n];
      assert rec[..n - 1] == Saved(devs)[..n - 1] && rec[n - 1] == Record(devs[n - 1]);
      assert Supported(devs[n - 1]);
      assert devs[..n] == devs[..n - 1] + [devs[n - 1]];
    }
  }

  // Resuming any record of this program, in turn, is orderly and saves as the same record.
  lemma ResumeSaveRoundTrip(rec: seq<LocalEndpoint>)
    requires WellSaved(rec)
    ensures Orderly(Resumed([], rec))
    ensures Saved(Resumed([], rec)) == rec
  {
    ResumeMatches(rec);
  }

  lemma {:induction false} ResumeMatches(rec: seq<LocalEndpoint>)
    requires WellSaved(rec)
    ensures var devs := Resumed([], rec);
      Orderly(devs) && |devs| == |rec| && forall i :: 0 <= i < |rec| ==> Record(devs[i]) == rec[i]
    decreases |rec|
  {
    if rec != [] {
      var front, last := rec[..|rec| - 1], rec[|rec| - 1];
      ResumeMatches(front);
      var devs := Resumed([], front);
      assert !Uses(devs, last.endpointId) by {
        assert forall i :: 0 <= i < |devs| ==> Record(devs[i]) == rec[i];
      }
      AddKeepsOrderly(devs, last.profile, last.deviceId, last.endpointId);
    }
  }
}
