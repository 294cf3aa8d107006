/** Choosing the HID device to bridge to (`start_hid_interaction`): vendor
    ids in the priority order of `USB_VID`, and for each, the enumerated
    devices with that vendor id in enumeration order; the first one whose
    usage is 1 and that opens wins, and a failed open moves on to the next. */
module DeviceSelection {
  import opened Bytes
  import opened Wrappers

  /** The vendor ids of TinyUSB, Adafruit, Raspberry Pi and Espressif, in
      priority order. */
  const UsbVid: seq<u16> := [0xcafe, 0x239a, 0x2e8a, 0x303a]

  /** The HID usage of the device the bridge talks to. */
  const BridgeUsage: u16 := 1

  /** One entry of the HID API's device list, with the outcome that opening
      its vendor and product id would have. */
  datatype DeviceInfo = DeviceInfo(vendorId: u16, productId: u16, usage: u16, opens: bool)

  /** Where `vid` stands in the priority order. */
  function VidRank(vid: u16): (rank: nat)
    requires vid in UsbVid
    ensures rank < |UsbVid| && UsbVid[rank] == vid
  {
    if vid == UsbVid[0] then 0
    else if vid == UsbVid[1] then 1
    else if vid == UsbVid[2] then 2
    else 3
  }

  /** A device the scan tries to open: a listed vendor id and usage 1. */
  predicate Candidate(d: DeviceInfo) {
    d.vendorId in UsbVid && d.usage == BridgeUsage
  }

  /** A candidate whose open succeeds. */
  predicate Qualifies(d: DeviceInfo) {
    Candidate(d) && d.opens
  }

  /** Device `j` comes before device `k` in the scan: a higher-priority
      vendor id, or the same vendor id and earlier in the device list. */
  predicate Before(devices: seq<DeviceInfo>, j: nat, k: nat)
    requires j < |devices| && k < |devices|
    requires devices[j].vendorId in UsbVid && devices[k].vendorId in UsbVid
  {
    var rj, rk := VidRank(devices[j].vendorId), VidRank(devices[k].vendorId);
    rj < rk || (rj == rk && j < k)
  }

  /** The scan. Without a HID API nothing is chosen; otherwise the result is
      the earliest qualifying device in scan order, or nothing when no
      candidate opens. At most one device is chosen, so at most one bridge
      is started. */
  method SelectDevice(apiReady: bool, devices: seq<DeviceInfo>) returns (chosen: Option<nat>)
    ensures !apiReady ==> chosen == None
    ensures chosen.Some? ==> chosen.value < |devices| && Qualifies(devices[chosen.value])
    ensures chosen.Some? ==> forall j :: 0 <= j < |devices| && j != chosen.value && Qualifies(devices[j]) ==>
      Before(devices, chosen.value, j)
    ensures apiReady && chosen == None ==> forall j :: 0 <= j < |devices| ==> !Qualifies(devices[j])
  {
    if !apiReady {
      return None;
    }
    var v := 0;
    while v < |UsbVid|
      invariant v <= |UsbVid|
      invariant forall j :: 0 <= j < |devices| && Qualifies(devices[j]) ==> VidRank(devices[j].vendorId) >= v
    {
      var vid := UsbVid[v];
      var k := 0;
      while k < |devices|
        invariant k <= |devices|
        invariant forall j :: 0 <= j < |devices| && Qualifies(devices[j]) ==> VidRank(devices[j].vendorId) >= v
        invariant forall j :: 0 <= j < k && Qualifies(devices[j]) ==> VidRank(devices[j].vendorId) > v
      {
        var d := devices[k];
        if d.vendorId == vid && d.usage == BridgeUsage {
          if d.opens {
            return Some(k);
          }
        }
        k := k + 1;
      }
      v := v + 1;
    }
    return None;
  }

  /** The scan order is strict and total on distinct listed devices, so at
      most one device can be the earliest qualifying one: the choice is
      determined by the device list. */
  lemma EarliestIsUnique(devices: seq<DeviceInfo>, a: nat, b: nat)
    requires a < |devices| && b < |devices| && Qualifies(devices[a]) && Qualifies(devices[b])
    requires forall j :: 0 <= j < |devices| && j != a && Qualifies(devices[j]) ==> Before(devices, a, j)
    requires forall j :: 0 <= j < |devices| && j != b && Qualifies(devices[j]) ==> Before(devices, b, j)
    ensures a == b
  {
  }
}
