/** Integration setup (`async_setup_entry`): discover the account's child
    devices, give every device that has an id a coordinator, and after its
    first refresh create one sensor entity per known field its snapshot holds,
    followed by one button entity. */
module EntrySetup {
  import opened Values
  import opened Coordination
  import opened Sensors

  /** A device record as discovery returns it, with the data its coordinator
      holds after the first refresh (None when that data is not a
      dictionary). */
  datatype Discovered = Discovered(record: Record, firstData: Option<Snapshot>)

  /** An entity handed to the host: a sensor, or the marker for the button
      entity whose own coordinator lives in another module. */
  datatype Entity =
    | Sensor(sensor: TapoSensor)
    | Button(entryId: string, deviceId: Value, nickname: Value)

  /** Either setup returned before registering anything, or it registered
      `entities` in one batch after creating one coordinator per id in
      `coordinators`. */
  datatype SetupOutcome =
    | NoDevices
    | Added(coordinators: seq<Value>, entities: seq<Entity>)

  /** `device_data.get("device_id")` when it is present and truthy. */
  function DeviceId(record: Record): (id: Option<Value>)
    ensures id.Some? <==> "device_id" in record && Truthy(record["device_id"])
    ensures id.Some? ==> id.value == record["device_id"]
  {
    match Get(record, "device_id")
    case None => None
    case Some(v) => if Truthy(v) then Some(v) else None
  }

  /** `device_data.get("nickname", "Unknown")`. */
  function Nickname(record: Record): (nick: Value)
    ensures "nickname" in record ==> nick == record["nickname"]
    ensures "nickname" !in record ==> nick == Str("Unknown")
  {
    match Get(record, "nickname")
    case None => Str("Unknown")
    case Some(v) => v
  }

  /** `coordinator.data or {}`. */
  function SnapshotOf(data: Option<Snapshot>): Snapshot {
    match data
    case None => map[]
    case Some(m) => m
  }

  /** The sensor setup builds for one row of the table. */
  function SensorFor(entryId: string, deviceId: Value, nickname: Value, kind: SensorKind): TapoSensor {
    NewSensor(entryId, deviceId, kind.key, Display(nickname) + " " + kind.suffix, kind.unit, kind.stateClass)
  }

  /** The sensors for those rows of `table` whose key the snapshot holds, in
      table order. */
  function SensorsFor(entryId: string, deviceId: Value, nickname: Value, snap: Snapshot,
                      table: seq<SensorKind>): seq<Entity>
    decreases |table|
  {
    if table == [] then []
    else
      var rest := SensorsFor(entryId, deviceId, nickname, snap, table[..|table| - 1]);
      var kind := table[|table| - 1];
      if kind.key in snap then rest + [Sensor(SensorFor(entryId, deviceId, nickname, kind))] else rest
  }

  /** What one discovered device adds to the entity list. */
  function DeviceEntities(entryId: string, d: Discovered): seq<Entity> {
    match DeviceId(d.record)
    case None => []
    case Some(id) =>
      var snap := SnapshotOf(d.firstData);
      var nickname := Nickname(d.record);
      if snap == map[] then []
      else SensorsFor(entryId, id, nickname, snap, SensorTable) + [Button(entryId, id, nickname)]
  }

  function AllEntities(entryId: string, devices: seq<Discovered>): seq<Entity>
    decreases |devices|
  {
    if devices == [] then []
    else AllEntities(entryId, devices[..|devices| - 1]) + DeviceEntities(entryId, devices[|devices| - 1])
  }

  /** The device ids that get a coordinator, in discovery order. */
  function Coordinators(devices: seq<Discovered>): seq<Value>
    decreases |devices|
  {
    if devices == [] then []
    else
      var last := devices[|devices| - 1];
      Coordinators(devices[..|devices| - 1])
      + match DeviceId(last.record) case None => [] case Some(id) => [id]
  }

  /** What setup does, given the device list discovery returned (None when it
      returned nothing at all). */
  function Setup(entryId: string, allDevices: Option<seq<Discovered>>): SetupOutcome {
    match allDevices
    case None => NoDevices
    case Some(devices) =>
      if devices == [] then NoDevices else Added(Coordinators(devices), AllEntities(entryId, devices))
  }

  /** Handling one more device extends the coordinators and the entities by
      that device's. */
  lemma DevicesStep(entryId: string, devices: seq<Discovered>, i: nat)
    requires i < |devices|
    ensures AllEntities(entryId, devices[..i + 1])
            == AllEntities(entryId, devices[..i]) + DeviceEntities(entryId, devices[i])
    ensures Coordinators(devices[..i + 1])
            == Coordinators(devices[..i]) + match DeviceId(devices[i].record) case None => [] case Some(id) => [id]
  {
    assert devices[..i + 1][..i] == devices[..i];
  }

  /** Looking at one more row of the table adds that row's sensor when the
      snapshot holds its key. */
  lemma RowsStep(entryId: string, deviceId: Value, nickname: Value, snap: Snapshot,
                 table: seq<SensorKind>, j: nat)
    requires j < |table|
    ensures SensorsFor(entryId, deviceId, nickname, snap, table[..j + 1])
            == SensorsFor(entryId, deviceId, nickname, snap, table[..j])
               + (if table[j].key in snap then [Sensor(SensorFor(entryId, deviceId, nickname, table[j]))] else [])
  {
    assert table[..j + 1][..j] == table[..j];
  }

  /** The walk down the table for one device: appends a sensor for each row
      whose key the snapshot holds. */
  method AppendTableSensors(entryId: string, id: Value, nickname: Value, snap: Snapshot,
                            sensors: seq<Entity>) returns (result: seq<Entity>)
    ensures result == sensors + SensorsFor(entryId, id, nickname, snap, SensorTable)
  {
    result := sensors;
    for j := 0 to |SensorTable|
      invariant result == sensors + SensorsFor(entryId, id, nickname, snap, SensorTable[..j])
    {
      var kind := SensorTable[j];
      RowsStep(entryId, id, nickname, snap, SensorTable, j);
      ghost var built := SensorsFor(entryId, id, nickname, snap, SensorTable[..j]);
      if kind.key in snap {
        var sensor := NewSensor(entryId, id, kind.key, Display(nickname) + " " + kind.suffix,
                                kind.unit, kind.stateClass);
        assert Sensor(sensor) == Sensor(SensorFor(entryId, id, nickname, kind));
        result := result + [Sensor(sensor)];
        assert result == sensors + (built + [Sensor(sensor)]);
      }
    }
    assert SensorTable[..|SensorTable|] == SensorTable;
  }

  /** `async_setup_entry`: walks the devices and appends to one entity list. */
  method SetupEntry(entryId: string, allDevices: Option<seq<Discovered>>) returns (outcome: SetupOutcome)
    ensures outcome == Setup(entryId, allDevices)
  {
    if allDevices.None? || allDevices.value == [] {
      return NoDevices;
    }
    var devices := allDevices.value;
    var coordinators: seq<Value> := [];
    var sensors: seq<Entity> := [];
    for i := 0 to |devices|
      invariant coordinators == Coordinators(devices[..i])
      invariant sensors == AllEntities(entryId, devices[..i])
    {
      var d := devices[i];
      DevicesStep(entryId, devices, i);
      var deviceId := Get(d.record, "device_id");
      var nickname := if "nickname" in d.record then d.record["nickname"] else Str("Unknown");
      if deviceId.None? || !Truthy(deviceId.value) {
        assert DeviceId(d.record).None? && DeviceEntities(entryId, d) == [];
        continue;
      }
      var id := deviceId.value;
      assert DeviceId(d.record) == Some(id) && nickname == Nickname(d.record);
      coordinators := coordinators + [id];
      var snap := if d.firstData.Some? then d.firstData.value else map[];
      assert snap == SnapshotOf(d.firstData);
      if snap != map[] {
        sensors := AppendTableSensors(entryId, id, nickname, snap, sensors);
        sensors := sensors + [Button(entryId, id, nickname)];
        assert DeviceEntities(entryId, d)
               == SensorsFor(entryId, id, nickname, snap, SensorTable) + [Button(entryId, id, nickname)];
      } else {
        assert DeviceEntities(entryId, d) == [];
      }
    }
    assert devices[..|devices|] == devices;
    return Added(coordinators, sensors);
  }
}
