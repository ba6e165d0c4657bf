/** The registry of test devices in examples/zigbee/artik_zigbee_common.c: one list node per
    endpoint, keyed by the endpoint id, each carrying its device. */
module Registry {
  import opened Base
  import opened HeapLog
  import opened ArtikList
  import opened Devices

  type DeviceNode = Node<TestDevice>

  // add_test_device passes the endpoint id as the list handle; 0 is the invalid handle, for
  // which the list takes the address of the node.
  ghost function KeyOf(node: DeviceNode, endpointId: int): Handle<TestDevice> {
    if endpointId == 0 then Address(node) else ArtikList.Key(endpointId)
  }

  class TestDevices {
    const list: List<TestDevice>

    ghost var devices: seq<TestDevice>

    ghost function Cells(): set<object>
      reads list
    {
      set n | n in list.nodes
    }

    ghost predicate Valid()
      reads this, list, list.nodes
    {
      list.Valid() && Carries(list.nodes, list.contents, devices)
    }

    constructor ()
      ensures Valid() && fresh(list) && devices == []
    {
      list := new List();
      devices := [];
    }

    method Count() returns (n: nat)
      requires Valid()
      ensures n == |devices|
    {
      hide Linked, Disciplined, Live;
      n := list.Size();
    }

    // get_test_device
    method Get(index: nat) returns (d: Option<TestDevice>)
      requires Valid()
      ensures d == if index < |devices| then Some(devices[index]) else None
    {
      hide Linked, Disciplined, Live;
      var elem := list.GetByPos(index);
      if elem == null { return None; }
      return elem.entry.data;
    }

    // get_test_device_by_endpoint_id
    method GetByEndpointId(endpointId: int) returns (d: Option<TestDevice>)
      requires Valid()
      ensures var k := EndpointIndex(devices, endpointId);
        d == if k < |devices| then Some(devices[k]) else None
    {
      hide Linked, Disciplined, Live;
      var size := list.Size();
      var i := 0;
      while i < size
        invariant size == |devices| && i <= size
        invariant forall j :: 0 <= j < i ==> devices[j].endpointId != endpointId
      {
        var elem := list.GetByPos(i);
        assert elem.entry.data == Some(devices[i]);
        if elem.entry.data.value.endpointId == endpointId { return elem.entry.data; }
        i := i + 1;
      }
      return None;
    }

    // check_test_device_endpoint_id: true when the id is free.
    method CheckEndpointId(endpointId: int) returns (unused: bool)
      requires Valid()
      ensures unused <==> !Uses(devices, endpointId)
    {
      hide Linked, Disciplined, Live;
      var i := 0;
      while true
        invariant i <= |devices|
        invariant forall j :: 0 <= j < i ==> devices[j].endpointId != endpointId
        decreases |devices| - i
      {
        var elem := list.GetByPos(i);
        if elem == null { return true; }
        if elem.entry.data.value.endpointId == endpointId {
          assert devices[i].endpointId == endpointId;
          return false;
        }
        i := i + 1;
      }
    }

    // get_test_device_list: the handles of the first maxSize devices, a device's handle being
    // its endpoint id.
    method HandleList(maxSize: nat) returns (handles: seq<int>)
      requires Valid()
      ensures |handles| == if |devices| < maxSize then |devices| else maxSize
      ensures forall i :: 0 <= i < |handles| ==> handles[i] == devices[i].endpointId
    {
      hide Linked, Disciplined, Live;
      handles := [];
      var i := 0;
      while i < maxSize
        invariant i <= maxSize && |handles| == i <= |devices|
        invariant forall j :: 0 <= j < i ==> handles[j] == devices[j].endpointId
      {
        var elem := list.GetByPos(i);
        if elem == null { break; }
        handles := handles + [elem.entry.data.value.endpointId];
        i := i + 1;
      }
    }

    // add_test_device: the node that carries the new device.
    method Add(profile: int, deviceId: int, endpointId: int) returns (elem: DeviceNode)
      requires Valid()
      modifies this, list, Cells()
      ensures Valid()
      ensures fresh(elem) && list.nodes == old(list.nodes) + [elem]
      ensures fresh(Cells() - old(Cells()))
      ensures devices == old(devices) + [TestDevice(profile, deviceId, endpointId, {})]
    {
      ghost var es, k := list.contents, |list.nodes|;
      assert |es| == k;
      hide Linked, Disciplined, Live, Carries;
      elem := list.Add(if endpointId == 0 then Invalid else ArtikList.Key(endpointId), NODE_SIZE);
      var device := TestDevice(profile, deviceId, endpointId, {});
      ghost var e := elem.entry;
      list.Store(elem, elem.entry.(data := Some(device)), k);
      UpdateLast(es, e, elem.entry);
      CarriesOneMore(old(list.nodes), es, devices, elem, elem.entry, device);
      devices := devices + [device];
    }

    // delete_test_device: by the list handle of the first device with this endpoint id. The
    // caller has just registered one.
    method Delete(endpointId: int)
      requires Valid() && Uses(devices, endpointId)
      modifies this, list, Cells()
      ensures Valid()
      ensures devices == Deleted(old(devices), endpointId)
      ensures Cells() <= old(Cells())
    {
      hide Carries, Linked, Disciplined, Live, EndpointIndex, FirstMatch;
      var device := GetByEndpointId(endpointId);
      var handle := device.value.endpointId;
      HandleFindsEndpoint(list.nodes, list.contents, devices, endpointId);
      CarriesWithout(list.nodes, list.contents, devices, EndpointIndex(devices, endpointId));
      var _ := list.DeleteHandle(if handle == 0 then Invalid else ArtikList.Key(handle));
      devices := Deleted(devices, endpointId);
    }

    // _func_endpoint_add: the functions are installed through the device just registered.
    method EndpointAdd(profile: int, deviceId: int, endpointId: int) returns (result: Error)
      requires Valid()
      modifies this, list, Cells()
      ensures Valid()
      ensures devices == EndpointAdded(old(devices), profile, deviceId, endpointId)
      ensures result == EndpointAddResult(profile, deviceId)
      ensures fresh(Cells() - old(Cells()))
    {
      hide Carries, Linked, Disciplined, Live;
      var elem := Add(profile, deviceId, endpointId);
      var caps := CapabilitiesOf(profile, deviceId);
      if caps.Some? {
        Install(elem, caps.value);
        return SOk;
      }
      assert devices[|devices| - 1].endpointId == endpointId;
      Delete(endpointId);
      return EBadArgs;
    }

    method Install(elem: DeviceNode, caps: set<Capability>)
      requires Valid() && list.nodes != [] && elem == list.nodes[|list.nodes| - 1]
      modifies this, list, elem
      ensures Valid() && list.nodes == old(list.nodes)
      ensures var n := |old(devices)|;
        devices == old(devices)[..n - 1] + [old(devices)[n - 1].(caps := caps)]
    {
      ghost var n := |list.nodes| - 1;
      list.Store(elem, elem.entry.(data := Some(elem.entry.data.value.(caps := caps))), n);
      devices := devices[..n] + [elem.entry.data.value];
    }

    // release_all_test_devices
    method ReleaseAll()
      requires Valid()
      modifies this, list
      ensures Valid() && devices == []
    {
      var _ := list.DeleteAll();
      devices := [];
    }
  }

  // Every node carries its device under the device's own key.
  ghost predicate Carries(nodes: seq<DeviceNode>, es: seq<Entry<TestDevice>>, devs: seq<TestDevice>) {
    && |nodes| == |es| == |devs|
    && forall i :: 0 <= i < |es| ==>
         es[i].data == Some(devs[i]) && es[i].handle == KeyOf(nodes[i], devs[i].endpointId)
  }

  lemma UpdateLast<X>(xs: seq<X>, x: X, y: X)
    ensures (xs + [x])[|xs| := y] == xs + [y]
  {
  }

  lemma CarriesOneMore(nodes: seq<DeviceNode>, es: seq<Entry<TestDevice>>, devs: seq<TestDevice>,
                       n: DeviceNode, e: Entry<TestDevice>, d: TestDevice)
    requires Carries(nodes, es, devs)
    requires e.data == Some(d) && e.handle == KeyOf(n, d.endpointId)
    ensures Carries(nodes + [n], es + [e], devs + [d])
  {
  }

  lemma CarriesWithout(nodes: seq<DeviceNode>, es: seq<Entry<TestDevice>>, devs: seq<TestDevice>, k: nat)
    requires Carries(nodes, es, devs)
    ensures Carries(Without(nodes, k), Without(es, k), Without(devs, k))
    ensures |es| == |devs|
  {
  }

  // Looking a non-zero endpoint id up as a list handle and looking it up among the devices
  // find the same position, or both find nothing.
  lemma {:induction false} HandleFindsEndpoint(
      nodes: seq<DeviceNode>, es: seq<Entry<TestDevice>>, devs: seq<TestDevice>, endpointId: int)
    requires Carries(nodes, es, devs)
    ensures endpointId != 0 ==>
      HandleIndex(es, ArtikList.Key(endpointId)) == EndpointIndex(devs, endpointId)
  {
    if endpointId != 0 && es != [] {
      HandleFindsEndpoint(nodes[1..], es[1..], devs[1..], endpointId);
    }
  }
}
