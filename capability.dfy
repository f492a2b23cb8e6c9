/**
 * What each driver knows about the devices that answer the DeviceID register:
 * the device table, the first-match scan of devid_in, and which ids get attached.
 */
module Capability {
  import opened Basics
  import opened Wire

  /** DEVINTF_*: the interface generation a device speaks, if any. */
  datatype Interface = IntfNone | Typ1 | Typ2
  {
    function Generation(): Option<Variant>
    {
      match this
      case IntfNone => None
      case Typ1 => Some(V1)
      case Typ2 => Some(V2)
    }
  }

  /** One table entry: device id, whether this driver supports it, interface, sensor/fan/pump counts, name. */
  datatype DeviceSpec = DeviceSpec(id: byte, supported: bool, intf: Interface,
                                   maxTemps: nat, maxFans: nat, maxPumps: nat, name: string)

  /** The h80i driver's table: it supports the H80i and H100i. */
  const H80iDevices: seq<DeviceSpec> := [
    DeviceSpec(0x37, false, Typ1, 1, 2, 1, "h80"),
    DeviceSpec(0x38, false, Typ1, 4, 5, 1, "coolNode"),
    DeviceSpec(0x39, false, Typ1, 0, 0, 0, "lightNode"),
    DeviceSpec(0x3a, false, Typ1, 1, 4, 1, "h100"),
    DeviceSpec(0x3b, true, Typ2, 1, 4, 1, "h80i"),
    DeviceSpec(0x3c, true, Typ2, 1, 4, 1, "h100i"),
    DeviceSpec(0x3d, false, Typ2, 4, 6, 0, "extNode"),
    DeviceSpec(0x00, false, IntfNone, 0, 0, 0, "unknown")
  ]

  /** The clink driver's table: it supports only the Cooling Node. */
  const ClinkDevices: seq<DeviceSpec> := [
    DeviceSpec(0x37, false, Typ1, 1, 2, 1, "h80"),
    DeviceSpec(0x38, true, Typ1, 4, 5, 0, "clink"),
    DeviceSpec(0x39, false, Typ1, 0, 0, 0, "lightNode"),
    DeviceSpec(0x3a, false, Typ1, 1, 4, 1, "h100"),
    DeviceSpec(0x3b, false, Typ2, 1, 4, 1, "h80i"),
    DeviceSpec(0x3c, false, Typ2, 1, 4, 1, "h100i"),
    DeviceSpec(0x3d, false, Typ2, 4, 6, 0, "extNode"),
    DeviceSpec(0x00, false, IntfNone, 0, 0, 0, "unknown")
  ]

  /** Fan and sensor slots each driver keeps (NUMFANS, NUMTEMPS). */
  const NumFans := 6
  const NumTemps := 4

  /** A table closed by a sentinel whose id is 0, with no id 0 before it. */
  predicate Terminated(t: seq<DeviceSpec>)
  {
    |t| > 0 && t[|t| - 1].id == 0 && forall i :: 0 <= i < |t| - 1 ==> t[i].id != 0
  }

  /** The entry the scan of devid_in stops at, starting from entry k: the first whose id is `id`, else the sentinel. */
  function LookupFrom(t: seq<DeviceSpec>, id: byte, k: nat): (r: nat)
    requires Terminated(t) && k < |t|
    ensures k <= r < |t|
    decreases |t| - k
  {
    if t[k].id == 0 || t[k].id == id then k else LookupFrom(t, id, k + 1)
  }

  function Lookup(t: seq<DeviceSpec>, id: byte): nat
    requires Terminated(t)
  {
    LookupFrom(t, id, 0)
  }

  /** The id read is known: some entry before the sentinel carries it. */
  predicate Known(t: seq<DeviceSpec>, id: byte)
  {
    exists j :: 0 <= j < |t| - 1 && t[j].id == id
  }

  lemma {:induction false} LookupFromFindsFirst(t: seq<DeviceSpec>, id: byte, k: nat)
    requires Terminated(t) && k < |t|
    ensures forall j :: k <= j < LookupFrom(t, id, k) ==> t[j].id != id
    ensures LookupFrom(t, id, k) < |t| - 1 ==> t[LookupFrom(t, id, k)].id == id
    ensures LookupFrom(t, id, k) == |t| - 1 ==> forall j :: k <= j < |t| - 1 ==> t[j].id != id
    decreases |t| - k
  {
    if t[k].id != 0 && t[k].id != id {
      LookupFromFindsFirst(t, id, k + 1);
    }
  }

  /** Lookup gives the first entry carrying the id, and the sentinel exactly when the id is unknown (0 included). */
  lemma LookupFindsFirst(t: seq<DeviceSpec>, id: byte)
    requires Terminated(t)
    ensures forall j :: 0 <= j < Lookup(t, id) ==> t[j].id != id
    ensures Lookup(t, id) < |t| - 1 <==> Known(t, id)
    ensures Known(t, id) ==> t[Lookup(t, id)].id == id
    ensures !Known(t, id) ==> Lookup(t, id) == |t| - 1
  {
    LookupFromFindsFirst(t, id, 0);
  }

  /**
   * The scan of devid_in: walk the table until the sentinel, stopping at an entry whose id
   * equals the id read. Returns 0 and that entry when found, -ENOENT and the sentinel otherwise.
   */
  method DevIdScan(t: seq<DeviceSpec>, id: byte) returns (retval: int, indx: nat)
    requires Terminated(t)
    ensures indx < |t| && indx == Lookup(t, id)
    ensures retval == 0 <==> Known(t, id)
    ensures retval == 0 ==> t[indx].id == id
    ensures retval != 0 ==> retval == -ENOENT && indx == |t| - 1
    ensures forall j :: 0 <= j < indx ==> t[j].id != id
  {
    retval := -ENOENT;
    indx := 0;
    while t[indx].id != 0
      invariant 0 <= indx < |t|
      invariant forall j :: 0 <= j < indx ==> t[j].id != id
      invariant LookupFrom(t, id, indx) == Lookup(t, id)
      decreases |t| - indx
    {
      if id == t[indx].id {
        retval := 0;
        break;
      }
      indx := indx + 1;
    }
    LookupFindsFirst(t, id);
  }

  /** The probe attaches: the id is found and the entry found is marked supported. */
  predicate Attaches(t: seq<DeviceSpec>, id: byte)
    requires Terminated(t)
  {
    Known(t, id) && t[Lookup(t, id)].supported
  }

  lemma TablesWellFormed()
    ensures Terminated(H80iDevices) && Terminated(ClinkDevices)
    ensures |H80iDevices| == |ClinkDevices| == 8
    ensures forall i :: 0 <= i < 8 ==>
      && H80iDevices[i].id == ClinkDevices[i].id
      && H80iDevices[i].intf == ClinkDevices[i].intf
      && (H80iDevices[i].supported ==> H80iDevices[i].intf == Typ2)
      && (ClinkDevices[i].supported ==> ClinkDevices[i].intf == Typ1)
  {
  }

  /** Every entry a driver supports fits its fan and sensor slots, so the probe loops stay inside the arrays. */
  lemma SupportedFitSlots(t: seq<DeviceSpec>, i: nat)
    requires t == H80iDevices || t == ClinkDevices
    requires i < |t| && t[i].supported
    ensures t[i].maxFans + t[i].maxPumps <= NumFans && t[i].maxTemps <= NumTemps
    ensures t[i].maxFans + t[i].maxPumps <= 5
  {
  }

  /** The h80i driver attaches exactly the H80i (0x3b) and the H100i (0x3c). */
  lemma H80iAttachesExactly(id: byte)
    ensures Terminated(H80iDevices)
    ensures Attaches(H80iDevices, id) <==> id == 0x3b || id == 0x3c
  {
    TablesWellFormed();
    LookupFindsFirst(H80iDevices, id);
    if Known(H80iDevices, id) {
      var j :| 0 <= j < |H80iDevices| - 1 && H80iDevices[j].id == id;
      assert Lookup(H80iDevices, id) == j;
    }
  }

  /** The clink driver attaches exactly the Cooling Node (0x38). */
  lemma ClinkAttachesExactly(id: byte)
    ensures Terminated(ClinkDevices)
    ensures Attaches(ClinkDevices, id) <==> id == 0x38
  {
    TablesWellFormed();
    LookupFindsFirst(ClinkDevices, id);
    if Known(ClinkDevices, id) {
      var j :| 0 <= j < |ClinkDevices| - 1 && ClinkDevices[j].id == id;
      assert Lookup(ClinkDevices, id) == j;
    }
  }

  /** Reading 0x3c finds the H100i (V2, one sensor, four fans and a pump); reading 0x99 finds the sentinel. */
  lemma KnownDevices()
    ensures Terminated(H80iDevices)
    ensures var e := H80iDevices[Lookup(H80iDevices, 0x3c)];
      e.name == "h100i" && e.intf.Generation() == Some(V2) && e.maxTemps == 1 && e.maxFans == 4 && e.maxPumps == 1
    ensures Lookup(H80iDevices, 0x99) == 7 && H80iDevices[7].name == "unknown"
  {
    TablesWellFormed();
  }
}
