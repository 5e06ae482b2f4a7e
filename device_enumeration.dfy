/** What UsbCommunicationManager.GetDevices computes, as functions over the
    platform's answers: the treatment of one device interface, and the fold
    over the interfaces in index order into a map keyed by location name. */
module DeviceEnumeration {
  import opened Win32
  import opened Win32Api
  import opened PortNaming

  /** The record GetDevices stores per device: its interface path, the port
      name built from the registry, the port description and the port number. */
  datatype DeviceInfo = DeviceInfo(path: Option<string>, portName: string, description: string, port: int)

  /** The values under the device's `#\Device Parameters` key. A missing
      value is None; so is a "Port Number" that is not an integer. */
  datatype PortParameters = PortParameters(
    baseName: Option<string>,     // "Base Name"
    description: Option<string>,  // "Port Description"
    portNumber: Option<int>)      // "Port Number"

  /** What the registry walk under
      HKLM\SYSTEM\CurrentControlSet\Control\DeviceClasses\{class} finds for a key. */
  datatype RegistryAnswer =
    | OpenFailed               // opening a key threw (for instance access denied)
    | KeyMissing               // the class key or the device's key is absent
    | ParametersMissing        // the `#\Device Parameters` key is absent
    | Parameters(values: PortParameters)

  /** Marshal.SizeOf(SpDeviceInterfaceDetailData) - sizeof(uint): the room for
      the device path in the detail record (256 UTF-16 characters). */
  const DetailPathCapacity: nat := 512

  /** The platform's answers about the device interface at one index. */
  datatype InterfaceRecord = InterfaceRecord(
    requiredSize: nat,          // size reported by the sizing SetupDiGetDeviceInterfaceDetail call
    detailSucceeds: bool,       // result of the fetching SetupDiGetDeviceInterfaceDetail call
    lastError: int,             // Marshal.GetLastWin32Error() after a failed fetch
    devicePath: string,         // interfaceDetail.DevicePath
    location: PropertyOracle)   // answers for the SPDRP_LOCATION_INFORMATION lookup

  /** The device record for `path`: port name, description and port start
      as "", "" and 0; the registry is consulted only for a `\\?\` path; the
      description is taken before the port number is read, so a missing port
      number leaves the description set; any failure leaves the rest at the
      defaults. */
  function DescribeDevice(path: string, registry: string -> RegistryAnswer): DeviceInfo
  {
    var key := RegistryKey(path);
    if key.None? then DeviceInfo(Some(path), "", "", 0)
    else match registry(key.value)
      case Parameters(PortParameters(baseName, Some(desc), Some(port))) =>
        DeviceInfo(Some(path), PortName(baseName, port), desc, port)
      case Parameters(PortParameters(_, Some(desc), None)) =>
        DeviceInfo(Some(path), "", desc, 0)
      case _ => DeviceInfo(Some(path), "", "", 0)
  }

  /** A port name ends with the formatted port number, which reads back. */
  lemma PortNameReadsBack(baseName: Option<string>, port: int)
    ensures var name := PortName(baseName, port); var n := |FormatPort(port)|;
      3 <= n <= |name| && ParsePort(name[|name| - n..]) == port
  {
    FormatPortRoundTrip(port);
    var f := FormatPort(port);
    var name := PortName(baseName, port);
    assert name[|name| - |f|..] == f;
  }

  /** A device is always described, whatever the registry answers; the port
      name is non-empty exactly when the description and the port number were
      both read, and then it is built from them; otherwise the port is 0. */
  lemma DescribeDeviceTolerant(path: string, registry: string -> RegistryAnswer)
    ensures var info := DescribeDevice(path, registry);
      info.path == Some(path) &&
      (info.portName != "" <==>
        RegistryKey(path).Some? && registry(RegistryKey(path).value).Parameters? &&
        registry(RegistryKey(path).value).values.description.Some? &&
        registry(RegistryKey(path).value).values.portNumber.Some?) &&
      (info.portName != "" ==>
        var p := registry(RegistryKey(path).value).values;
        info.port == p.portNumber.value && info.description == p.description.value &&
        info.portName == PortName(p.baseName, info.port)) &&
      (info.portName == "" ==> info.port == 0)
  {
    var key := RegistryKey(path);
    if key.Some? {
      match registry(key.value)
      case Parameters(PortParameters(baseName, Some(desc), Some(port))) =>
        PortNameReadsBack(baseName, port);
      case _ =>
    }
  }

  /** What happens to one enumerated interface. */
  datatype Visit =
    | Skipped                              // `continue`: size 0 or too large for the detail record
    | Stored(name: string, info: DeviceInfo) // `devices[name] = info`
    | Aborted(error: Exception)            // an exception ends the loop

  function VisitInterface(rec: InterfaceRecord, registry: string -> RegistryAnswer): Visit
  {
    if rec.requiredSize == 0 || rec.requiredSize > DetailPathCapacity then Skipped
    else if !rec.detailSucceeds then Aborted(Win32Exception(rec.lastError))
    else match PropertyOutcome(rec.location)
      case Threw(e) => Aborted(e)
      case Returned(name) => Stored(name, DescribeDevice(rec.devicePath, registry))
  }

  /** An interface aborts the enumeration exactly when its size passes the
      filter and then the detail fetch or the location lookup fails; the
      registry never aborts it. */
  lemma VisitAbortsIff(rec: InterfaceRecord, registry: string -> RegistryAnswer)
    ensures VisitInterface(rec, registry).Skipped? <==>
      rec.requiredSize == 0 || rec.requiredSize > DetailPathCapacity
    ensures VisitInterface(rec, registry).Aborted? <==>
      0 < rec.requiredSize <= DetailPathCapacity &&
      (!rec.detailSucceeds || (rec.location.requiredSize > 0 && !rec.location.fetchSucceeds))
    ensures VisitInterface(rec, registry).Stored? ==>
      VisitInterface(rec, registry).info == DescribeDevice(rec.devicePath, registry) &&
      Returned(VisitInterface(rec, registry).name) == PropertyOutcome(rec.location)
  {
  }

  /** The result of the enumeration loop. */
  datatype Enumeration = Enumeration(
    devices: map<string, DeviceInfo>,
    enumCalls: nat,   // SetupDiEnumDeviceInterfaces calls made (indices 0 .. enumCalls - 1)
    completed: bool)  // the loop ended normally (and the list was destroyed)

  /** The loop from index `i` on, with `devices` gathered so far. The call
      for index |recs| is the one that reports no more interfaces. */
  function Gather(recs: seq<InterfaceRecord>, registry: string -> RegistryAnswer, i: nat,
                  devices: map<string, DeviceInfo>): Enumeration
    requires i <= |recs|
    decreases |recs| - i
  {
    if i == |recs| then Enumeration(devices, i + 1, true)
    else match VisitInterface(recs[i], registry)
      case Skipped => Gather(recs, registry, i + 1, devices)
      case Stored(name, info) => Gather(recs, registry, i + 1, devices[name := info])
      case Aborted(_) => Enumeration(devices, i + 1, false)
  }

  /** Index `j` stores a device under `name`. */
  predicate StoresAt(recs: seq<InterfaceRecord>, registry: string -> RegistryAnswer, j: nat, name: string)
  {
    j < |recs| && VisitInterface(recs[j], registry).Stored? && VisitInterface(recs[j], registry).name == name
  }

  /** The interface at index `j` aborts the loop. */
  predicate AbortsAt(recs: seq<InterfaceRecord>, registry: string -> RegistryAnswer, j: nat)
  {
    j < |recs| && VisitInterface(recs[j], registry).Aborted?
  }

  /** Gather from `i` after the visit of index `i` has finished. */
  lemma GatherStep(recs: seq<InterfaceRecord>, registry: string -> RegistryAnswer, i: nat,
      devices: map<string, DeviceInfo>)
    requires i < |recs| && !AbortsAt(recs, registry, i)
    ensures var v := VisitInterface(recs[i], registry);
      Gather(recs, registry, i, devices) ==
      Gather(recs, registry, i + 1, if v.Stored? then devices[v.name := v.info] else devices)
  {
  }

  /** Indices are visited in order from `i`: the loop completes exactly when
      no later interface aborts, calling the enumerator once more than there
      are interfaces; otherwise it stops right after the first aborting one. */
  lemma {:induction false} GatherStopsAtFirstAbort(recs: seq<InterfaceRecord>,
      registry: string -> RegistryAnswer, i: nat, devices: map<string, DeviceInfo>)
    requires i <= |recs|
    ensures var g := Gather(recs, registry, i, devices);
      i < g.enumCalls <= |recs| + 1 &&
      (g.completed <==> forall j :: i <= j < |recs| ==> !AbortsAt(recs, registry, j)) &&
      (g.completed ==> g.enumCalls == |recs| + 1) &&
      (!g.completed ==>
        AbortsAt(recs, registry, g.enumCalls - 1) &&
        (forall j :: i <= j < g.enumCalls - 1 ==> !AbortsAt(recs, registry, j)))
    decreases |recs| - i
  {
    if i < |recs| {
      if AbortsAt(recs, registry, i) {
        assert Gather(recs, registry, i, devices) == Enumeration(devices, i + 1, false);
      } else {
        var v := VisitInterface(recs[i], registry);
        var next := if v.Stored? then devices[v.name := v.info] else devices;
        GatherStep(recs, registry, i, devices);
        GatherStopsAtFirstAbort(recs, registry, i + 1, next);
      }
    }
  }

  /** Number of interfaces whose visit finished (the aborting one excluded). */
  function Processed(g: Enumeration): nat
  {
    if g.enumCalls == 0 then 0 else g.enumCalls - 1
  }

  /** A name is a key of the result exactly when it was already gathered or
      some finished interface from `i` on stored under it. */
  lemma {:induction false} GatherKeys(recs: seq<InterfaceRecord>, registry: string -> RegistryAnswer,
      i: nat, devices: map<string, DeviceInfo>, name: string)
    requires i <= |recs|
    ensures var g := Gather(recs, registry, i, devices);
      Processed(g) <= |recs| &&
      (name in g.devices <==>
        name in devices || exists j :: i <= j < Processed(g) && StoresAt(recs, registry, j, name))
    decreases |recs| - i
  {
    var g := Gather(recs, registry, i, devices);
    GatherStopsAtFirstAbort(recs, registry, i, devices);
    if i < |recs| {
      match VisitInterface(recs[i], registry)
      case Skipped =>
        GatherKeys(recs, registry, i + 1, devices, name);
      case Stored(n, info) =>
        GatherKeys(recs, registry, i + 1, devices[n := info], name);
        if n == name {
          assert StoresAt(recs, registry, i, name);
        }
      case Aborted(_) =>
    }
  }

  /** A name that no finished interface from `i` on stores under keeps the
      value it had. */
  lemma {:induction false} GatherKeepsUnstored(recs: seq<InterfaceRecord>, registry: string -> RegistryAnswer,
      i: nat, devices: map<string, DeviceInfo>, name: string)
    requires i <= |recs|
    requires name in devices
    requires forall j :: i <= j < Processed(Gather(recs, registry, i, devices)) ==>
      !StoresAt(recs, registry, j, name)
    ensures var g := Gather(recs, registry, i, devices);
      name in g.devices && g.devices[name] == devices[name]
    decreases |recs| - i
  {
    if i < |recs| {
      match VisitInterface(recs[i], registry)
      case Skipped =>
        GatherKeepsUnstored(recs, registry, i + 1, devices, name);
      case Stored(n, info) =>
        GatherStopsAtFirstAbort(recs, registry, i + 1, devices[n := info]);
        assert !StoresAt(recs, registry, i, name);
        GatherKeepsUnstored(recs, registry, i + 1, devices[n := info], name);
      case Aborted(_) =>
    }
  }

  /** Later devices win: the value under `name` is the one stored by the last
      finished interface that stored under it. */
  lemma {:induction false} GatherLastWriteWins(recs: seq<InterfaceRecord>, registry: string -> RegistryAnswer,
      i: nat, devices: map<string, DeviceInfo>, name: string, j: nat)
    requires i <= j < |recs|
    requires j < Processed(Gather(recs, registry, i, devices))
    requires StoresAt(recs, registry, j, name)
    requires forall k :: j < k < Processed(Gather(recs, registry, i, devices)) ==>
      !StoresAt(recs, registry, k, name)
    ensures var g := Gather(recs, registry, i, devices);
      name in g.devices && g.devices[name] == VisitInterface(recs[j], registry).info
    decreases |recs| - i
  {
    GatherStopsAtFirstAbort(recs, registry, i, devices);
    match VisitInterface(recs[i], registry)
    case Skipped =>
      GatherLastWriteWins(recs, registry, i + 1, devices, name, j);
    case Stored(n, info) =>
      if i < j {
        GatherLastWriteWins(recs, registry, i + 1, devices[n := info], name, j);
      } else {
        GatherKeepsUnstored(recs, registry, i + 1, devices[n := info], name);
      }
    case Aborted(_) =>
  }
}
