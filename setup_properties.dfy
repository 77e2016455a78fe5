/** What setup guarantees about the entities and coordinators it creates. */
module SetupProperties {
  import opened Values
  import opened Coordination
  import opened Sensors
  import opened EntrySetup

  /** Setup registers nothing, and returns early, exactly when discovery
      returned no device at all. */
  lemma NoDevicesIffEmpty(entryId: string, allDevices: Option<seq<Discovered>>)
    ensures Setup(entryId, allDevices) == NoDevices <==> allDevices.None? || allDevices.value == []
  {
  }

  /** Devices are handled one after another, independently. */
  lemma EntitiesOfConcat(entryId: string, a: seq<Discovered>, b: seq<Discovered>)
    ensures AllEntities(entryId, a + b) == AllEntities(entryId, a) + AllEntities(entryId, b)
    ensures Coordinators(a + b) == Coordinators(a) + Coordinators(b)
  {
    EntityListOfConcat(entryId, a, b);
    CoordinatorsOfConcat(a, b);
  }

  lemma {:induction false} EntityListOfConcat(entryId: string, a: seq<Discovered>, b: seq<Discovered>)
    ensures AllEntities(entryId, a + b) == AllEntities(entryId, a) + AllEntities(entryId, b)
    decreases |b|
  {
    if b == [] {
      assert a + b == a;
    } else {
      var front, last := b[..|b| - 1], b[|b| - 1];
      var x, y, z := AllEntities(entryId, a), AllEntities(entryId, front), DeviceEntities(entryId, last);
      assert AllEntities(entryId, a + b) == (x + y) + z by {
        assert (a + b)[..|a + b| - 1] == a + front;
        assert (a + b)[|a + b| - 1] == last;
        EntityListOfConcat(entryId, a, front);
      }
      assert AllEntities(entryId, b) == y + z;
      assert (x + y) + z == x + (y + z);
    }
  }

  lemma {:induction false} CoordinatorsOfConcat(a: seq<Discovered>, b: seq<Discovered>)
    ensures Coordinators(a + b) == Coordinators(a) + Coordinators(b)
    decreases |b|
  {
    if b == [] {
      assert a + b == a;
    } else {
      var front, last := b[..|b| - 1], b[|b| - 1];
      var x, y := Coordinators(a), Coordinators(front);
      var z: seq<Value> := match DeviceId(last.record) case None => [] case Some(id) => [id];
      assert Coordinators(a + b) == (x + y) + z by {
        assert (a + b)[..|a + b| - 1] == a + front;
        assert (a + b)[|a + b| - 1] == last;
        CoordinatorsOfConcat(a, front);
      }
      assert Coordinators(b) == y + z;
      assert (x + y) + z == x + (y + z);
    }
  }

  /** A device without a truthy `device_id` gets no coordinator and no
      entity, and the devices after it are handled as if it were absent. */
  lemma SkippedDevice(entryId: string, before: seq<Discovered>, d: Discovered, after: seq<Discovered>)
    requires DeviceId(d.record).None?
    ensures AllEntities(entryId, before + [d] + after) == AllEntities(entryId, before + after)
    ensures Coordinators(before + [d] + after) == Coordinators(before + after)
  {
    var with := before + [d];
    assert with[..|with| - 1] == before && with[|with| - 1] == d;
    assert AllEntities(entryId, with) == AllEntities(entryId, before);
    assert Coordinators(with) == Coordinators(before);
    EntitiesOfConcat(entryId, with, after);
    EntitiesOfConcat(entryId, before, after);
  }

  /** The known keys as a set. It is written over the key list alone, not
      as `TableKeySet(SensorTable)`, so that the counts stated with it do not
      unfold the table's eleven rows; `TableKeySetIsKnown` equates the two. */
  function KnownKeySet(): set<string> {
    set k | k in KnownKeys
  }

  /** Removing the last row of a table with distinct keys keeps the rows of
      the other keys where they were. */
  lemma PrefixRow(table: seq<SensorKind>, key: string)
    requires DistinctKeys(table) && table != []
    requires key in TableKeySet(table[..|table| - 1])
    ensures key in TableKeySet(table) && key != table[|table| - 1].key
    ensures RowIn(table, key) == RowIn(table[..|table| - 1], key)
  {
    var n := |table| - 1;
    var r := RowIn(table[..n], key);
    assert table[r] == table[..n][r];
  }

  /** `out` holds, in row order, only sensors of rows of `table` whose key
      the snapshot holds. */
  predicate InTableOrder(entryId: string, deviceId: Value, nickname: Value, snap: Snapshot,
                         table: seq<SensorKind>, out: seq<Entity>)
  {
    && (forall i :: 0 <= i < |out| ==>
          && out[i].Sensor? && out[i].sensor.key in TableKeySet(table) && out[i].sensor.key in snap
          && out[i] == Sensor(SensorFor(entryId, deviceId, nickname, table[RowIn(table, out[i].sensor.key)])))
    && (forall i, j :: 0 <= i < j < |out| ==> RowIn(table, out[i].sensor.key) < RowIn(table, out[j].sensor.key))
  }

  /** Each sensor built from a table with distinct keys is the sensor of a
      row whose key the snapshot holds, and they come in row order. */
  lemma {:induction false} SensorsInTableOrder(entryId: string, deviceId: Value, nickname: Value,
                                               snap: Snapshot, table: seq<SensorKind>)
    requires DistinctKeys(table)
    ensures InTableOrder(entryId, deviceId, nickname, snap, table,
                         SensorsFor(entryId, deviceId, nickname, snap, table))
    decreases |table|
  {
    if table != [] {
      var n := |table| - 1;
      var prefix, kind := table[..n], table[n];
      SensorsInTableOrder(entryId, deviceId, nickname, snap, prefix);
      var rest := SensorsFor(entryId, deviceId, nickname, snap, prefix);
      var out := SensorsFor(entryId, deviceId, nickname, snap, table);
      var added := if kind.key in snap then [Sensor(SensorFor(entryId, deviceId, nickname, kind))] else [];
      assert out == rest + added;
      assert kind.key in TableKeySet(table) && RowIn(table, kind.key) == n;
      forall i | 0 <= i < |out|
        ensures && out[i].Sensor? && out[i].sensor.key in TableKeySet(table) && out[i].sensor.key in snap
                && out[i] == Sensor(SensorFor(entryId, deviceId, nickname, table[RowIn(table, out[i].sensor.key)]))
      {
        if i < |rest| {
          assert out[i] == rest[i];
          PrefixRow(table, rest[i].sensor.key);
        } else {
          assert out[i] == Sensor(SensorFor(entryId, deviceId, nickname, kind));
        }
      }
      forall i, j | 0 <= i < j < |out|
        ensures RowIn(table, out[i].sensor.key) < RowIn(table, out[j].sensor.key)
      {
        assert out[i] == rest[i];
        PrefixRow(table, rest[i].sensor.key);
        if j < |rest| {
          assert out[j] == rest[j];
          PrefixRow(table, rest[j].sensor.key);
        } else {
          assert out[j] == Sensor(SensorFor(entryId, deviceId, nickname, kind));
        }
      }
    }
  }

  /** Every row of the table whose key the snapshot holds has its sensor. */
  lemma {:induction false} SensorsCoverTable(entryId: string, deviceId: Value, nickname: Value,
                                             snap: Snapshot, table: seq<SensorKind>)
    ensures var out := SensorsFor(entryId, deviceId, nickname, snap, table);
      forall r :: 0 <= r < |table| && table[r].key in snap ==>
        Sensor(SensorFor(entryId, deviceId, nickname, table[r])) in out
    decreases |table|
  {
    if table != [] {
      var n := |table| - 1;
      SensorsCoverTable(entryId, deviceId, nickname, snap, table[..n]);
      assert forall r :: 0 <= r < n ==> table[..n][r] == table[r];
    }
  }

  /** The last row of a table with distinct keys adds a key no earlier row has. */
  lemma LastRowKey(table: seq<SensorKind>)
    requires DistinctKeys(table) && table != []
    ensures var n := |table| - 1;
      && TableKeySet(table) == TableKeySet(table[..n]) + {table[n].key}
      && table[n].key !in TableKeySet(table[..n])
  {
    var n := |table| - 1;
    var prefix, k := table[..n], table[n].key;
    forall x | x in TableKeySet(table) ensures x in TableKeySet(prefix) + {k} {
      var r :| 0 <= r < |table| && table[r].key == x;
      if r < n {
        assert prefix[r].key == x;
      }
    }
    forall x | x in TableKeySet(prefix) ensures x in TableKeySet(table) {
      var r :| 0 <= r < n && prefix[r].key == x;
      assert table[r].key == x;
    }
  }

  /** A table with distinct keys gives as many sensors as keys it shares
      with the snapshot. */
  lemma {:induction false} SensorsCount(entryId: string, deviceId: Value, nickname: Value,
                                        snap: Snapshot, table: seq<SensorKind>)
    requires DistinctKeys(table)
    ensures |SensorsFor(entryId, deviceId, nickname, snap, table)| == |snap.Keys * TableKeySet(table)|
    decreases |table|
  {
    if table != [] {
      var n := |table| - 1;
      var prefix, k := table[..n], table[n].key;
      var before := snap.Keys * TableKeySet(prefix);
      assert |SensorsFor(entryId, deviceId, nickname, snap, prefix)| == |before| by {
        SensorsCount(entryId, deviceId, nickname, snap, prefix);
      }
      assert TableKeySet(table) == TableKeySet(prefix) + {k} && k !in TableKeySet(prefix) by {
        LastRowKey(table);
      }
      if k in snap {
        assert snap.Keys * TableKeySet(table) == before + {k};
        assert |before + {k}| == |before| + 1;
      } else {
        assert snap.Keys * TableKeySet(table) == before;
      }
    } else {
      assert TableKeySet(table) == {};
    }
  }

  /** The table's keys are the known keys, each once. */
  lemma TableKeySetIsKnown()
    ensures DistinctKeys(SensorTable)
    ensures TableKeySet(SensorTable) == KnownKeySet()
  {
    TableKeys();
    forall k | k in KnownKeySet() ensures k in TableKeySet(SensorTable) {
      var i :| 0 <= i < |KnownKeys| && KnownKeys[i] == k;
      assert SensorTable[i].key == k;
    }
  }

  /** The row `RowOf` names is the one `RowIn` finds in the table. */
  lemma RowOfIsRowIn()
    ensures forall k :: k in KnownKeys ==> k in TableKeySet(SensorTable) && RowOf(k) == RowIn(SensorTable, k)
  {
    TableKeySetIsKnown();
    TableKeys();
    forall k | k in KnownKeys
      ensures k in TableKeySet(SensorTable) && RowOf(k) == RowIn(SensorTable, k)
    {
      assert k in KnownKeySet();
      var r := RowIn(SensorTable, k);
      assert KnownKeys[r] == k;
    }
  }

  /** One device's sensors, for the whole table: exactly one sensor per
      known key present in the snapshot, in table order, each described by
      its table row; the count is the number of known keys present. */
  lemma DeviceSensors(entryId: string, deviceId: Value, nickname: Value, snap: Snapshot)
    ensures var out := SensorsFor(entryId, deviceId, nickname, snap, SensorTable);
      && (forall i :: 0 <= i < |out| ==>
            && out[i].Sensor? && out[i].sensor.key in KnownKeys && out[i].sensor.key in snap
            && out[i] == Sensor(SensorFor(entryId, deviceId, nickname, SensorTable[RowOf(out[i].sensor.key)])))
      && (forall i, j :: 0 <= i < j < |out| ==> RowOf(out[i].sensor.key) < RowOf(out[j].sensor.key))
      && (forall k :: k in KnownKeys && k in snap <==>
            exists i :: 0 <= i < |out| && out[i].sensor.key == k)
      && |out| == |snap.Keys * KnownKeySet()|
  {
    var out := SensorsFor(entryId, deviceId, nickname, snap, SensorTable);
    TableKeySetIsKnown();
    RowOfIsRowIn();
    SensorsInTableOrder(entryId, deviceId, nickname, snap, SensorTable);
    SensorsCoverTable(entryId, deviceId, nickname, snap, SensorTable);
    SensorsCount(entryId, deviceId, nickname, snap, SensorTable);
    forall k | k in KnownKeys && k in snap
      ensures exists i :: 0 <= i < |out| && out[i].sensor.key == k
    {
      var s := Sensor(SensorFor(entryId, deviceId, nickname, SensorTable[RowOf(k)]));
      assert s in out;
      var i :| 0 <= i < |out| && out[i] == s;
      assert out[i].sensor.key == k;
    }
  }

  /** The description of every sensor setup creates: a known key, the name
      `<nickname> <suffix>`, the unique id `<entry>_<device>_<key>` and the
      unit and state class of the key. */
  predicate DescribedByTable(entryId: string, nickname: Value, s: TapoSensor)
    requires s.key in KnownKeys
  {
    && s.name == Display(nickname) + " " + SensorTable[RowOf(s.key)].suffix
    && s.uniqueId == entryId + "_" + Display(s.deviceId) + "_" + s.key
    && (s.unit, s.stateClass) == UnitAndClass(s.key)
  }

  /** A device contributes nothing exactly when it has no truthy id or its
      first snapshot is empty; otherwise its sensors come first and exactly
      one button closes its block. */
  lemma DeviceBlock(entryId: string, d: Discovered)
    ensures var block := DeviceEntities(entryId, d);
      && (block != [] <==> DeviceId(d.record).Some? && SnapshotOf(d.firstData) != map[])
      && (block != [] ==>
            && block[|block| - 1] == Button(entryId, DeviceId(d.record).value, Nickname(d.record))
            && (forall i :: 0 <= i < |block| - 1 ==>
                  && block[i].Sensor? && block[i].sensor.key in KnownKeys
                  && block[i].sensor.key in SnapshotOf(d.firstData)
                  && block[i].sensor.deviceId == DeviceId(d.record).value
                  && DescribedByTable(entryId, Nickname(d.record), block[i].sensor)))
      && |block| == (if block == [] then 0 else |SnapshotOf(d.firstData).Keys * KnownKeySet()| + 1)
  {
    if DeviceId(d.record).Some? && SnapshotOf(d.firstData) != map[] {
      var id, nick, snap := DeviceId(d.record).value, Nickname(d.record), SnapshotOf(d.firstData);
      DeviceSensors(entryId, id, nick, snap);
      TableUnits();
      TableKeys();
    }
  }

  /** The number of entities a device contributes. */
  function DeviceCount(d: Discovered): nat {
    if DeviceId(d.record).Some? && SnapshotOf(d.firstData) != map[]
    then |SnapshotOf(d.firstData).Keys * KnownKeySet()| + 1
    else 0
  }

  function TotalCount(devices: seq<Discovered>): nat {
    if devices == [] then 0 else DeviceCount(devices[0]) + TotalCount(devices[1..])
  }

  /** Setup registers, over all devices with a truthy id and a non-empty first
      snapshot, one entity per known key present plus one button. */
  lemma {:induction false} EntityCount(entryId: string, devices: seq<Discovered>)
    ensures |AllEntities(entryId, devices)| == TotalCount(devices)
    decreases |devices|
  {
    if devices != [] {
      EntityCount(entryId, devices[1..]);
      EntitiesOfConcat(entryId, [devices[0]], devices[1..]);
      assert [devices[0]] + devices[1..] == devices;
      assert AllEntities(entryId, [devices[0]]) == AllEntities(entryId, []) + DeviceEntities(entryId, devices[0]);
      DeviceBlock(entryId, devices[0]);
    }
  }

  /** The indices of the devices that have a truthy id, as a set. It is a
      comprehension, independent of the recursion that builds
      `Coordinators` and `IdIndices`, so `CoordinatorCount` checks the count
      against a definition that does not share their shape. */
  function WithId(devices: seq<Discovered>): set<nat> {
    set i | 0 <= i < |devices| && DeviceId(devices[i].record).Some?
  }

  /** The positions of the devices that have a truthy id, in discovery
      order. */
  function IdIndices(devices: seq<Discovered>): (r: seq<nat>)
    ensures forall k :: 0 <= k < |r| ==> r[k] < |devices|
    decreases |devices|
  {
    if devices == [] then []
    else
      var n := |devices| - 1;
      var front := IdIndices(devices[..n]);
      if DeviceId(devices[n].record).Some? then front + [n] else front
  }

  /** Every position `IdIndices` lists is that of a device with a truthy id. */
  lemma {:induction false} IdIndicesSound(devices: seq<Discovered>)
    ensures forall k :: 0 <= k < |IdIndices(devices)| ==>
              DeviceId(devices[IdIndices(devices)[k]].record).Some?
    decreases |devices|
  {
    if devices != [] {
      var n := |devices| - 1;
      var prefix := devices[..n];
      IdIndicesSound(prefix);
      var front, r := IdIndices(prefix), IdIndices(devices);
      forall k | 0 <= k < |r| ensures DeviceId(devices[r[k]].record).Some? {
        if k < |front| {
          assert r[k] == front[k] && devices[front[k]] == prefix[front[k]];
        }
      }
    }
  }

  /** Every device with a truthy id has its position listed. */
  lemma {:induction false} IdIndicesComplete(devices: seq<Discovered>)
    ensures forall i :: 0 <= i < |devices| && DeviceId(devices[i].record).Some? ==> i in IdIndices(devices)
    decreases |devices|
  {
    if devices != [] {
      var n := |devices| - 1;
      var prefix := devices[..n];
      IdIndicesComplete(prefix);
      var front, r := IdIndices(prefix), IdIndices(devices);
      assert forall x :: x in front ==> x in r;
      forall i | 0 <= i < n && DeviceId(devices[i].record).Some? ensures i in r {
        assert prefix[i] == devices[i];
      }
    }
  }

  /** The positions are listed in increasing order. */
  lemma {:induction false} IdIndicesOrdered(devices: seq<Discovered>)
    ensures forall k, l :: 0 <= k < l < |IdIndices(devices)| ==> IdIndices(devices)[k] < IdIndices(devices)[l]
    decreases |devices|
  {
    if devices != [] {
      var n := |devices| - 1;
      IdIndicesOrdered(devices[..n]);
      var front, r := IdIndices(devices[..n]), IdIndices(devices);
      forall k, l | 0 <= k < l < |r| ensures r[k] < r[l] {
        assert r[k] == front[k];
        if l < |front| {
          assert r[l] == front[l];
        }
      }
    }
  }

  /** As many coordinators as devices with a truthy id. */
  lemma {:induction false} CoordinatorCount(devices: seq<Discovered>)
    ensures |Coordinators(devices)| == |WithId(devices)|
    decreases |devices|
  {
    if devices != [] {
      var n := |devices| - 1;
      var prefix := devices[..n];
      CoordinatorCount(prefix);
      assert forall i :: 0 <= i < n ==> prefix[i] == devices[i];
      assert WithId(prefix) == WithId(devices) - {n};
      if DeviceId(devices[n].record).Some? {
        assert WithId(devices) == WithId(prefix) + {n};
      } else {
        assert WithId(devices) == WithId(prefix);
      }
    }
  }

  /** The k-th coordinator is for the id of the k-th device that has one. */
  lemma {:induction false} CoordinatorsAtIndices(devices: seq<Discovered>)
    ensures |Coordinators(devices)| == |IdIndices(devices)|
    ensures forall k :: 0 <= k < |Coordinators(devices)| ==>
              Some(Coordinators(devices)[k]) == DeviceId(devices[IdIndices(devices)[k]].record)
    decreases |devices|
  {
    if devices != [] {
      var n := |devices| - 1;
      var prefix := devices[..n];
      CoordinatorsAtIndices(prefix);
      var before, at := Coordinators(prefix), IdIndices(prefix);
      forall k | 0 <= k < |at| ensures devices[at[k]] == prefix[at[k]] {
      }
    }
  }

  /** One coordinator is created per device with a truthy id, in discovery
      order, and each is for that device's own id. */
  lemma CoordinatorPerDevice(devices: seq<Discovered>)
    ensures var r := IdIndices(devices);
      && (forall k :: 0 <= k < |r| ==> DeviceId(devices[r[k]].record).Some?)
      && (forall i :: 0 <= i < |devices| && DeviceId(devices[i].record).Some? ==> i in r)
      && (forall k, l :: 0 <= k < l < |r| ==> r[k] < r[l])
    ensures |Coordinators(devices)| == |IdIndices(devices)| == |WithId(devices)|
    ensures forall k :: 0 <= k < |Coordinators(devices)| ==>
              Some(Coordinators(devices)[k]) == DeviceId(devices[IdIndices(devices)[k]].record)
    ensures forall v :: v in Coordinators(devices) ==> Truthy(v)
  {
    CoordinatorCount(devices);
    CoordinatorsAtIndices(devices);
    IdIndicesSound(devices);
    IdIndicesComplete(devices);
    IdIndicesOrdered(devices);
  }

  /** Every sensor in `entities` is for a known key, has the unique id
      `<entry>_<device>_<key>`, and the unit and state class of its key. */
  predicate SensorsWellFormed(entryId: string, entities: seq<Entity>) {
    forall i :: 0 <= i < |entities| && entities[i].Sensor? ==>
      && entities[i].sensor.key in KnownKeys
      && entities[i].sensor.uniqueId == entryId + "_" + Display(entities[i].sensor.deviceId) + "_" + entities[i].sensor.key
      && (entities[i].sensor.unit, entities[i].sensor.stateClass) == UnitAndClass(entities[i].sensor.key)
  }

  /** Every sensor setup creates is described by its key's table row. */
  lemma {:induction false} AllSensorsWellFormed(entryId: string, devices: seq<Discovered>)
    ensures SensorsWellFormed(entryId, AllEntities(entryId, devices))
    decreases |devices|
  {
    if devices != [] {
      var n := |devices| - 1;
      AllSensorsWellFormed(entryId, devices[..n]);
      DeviceBlock(entryId, devices[n]);
      var head := AllEntities(entryId, devices[..n]);
      var block := DeviceEntities(entryId, devices[n]);
      var all := AllEntities(entryId, devices);
      assert all == head + block;
      forall i | 0 <= i < |all| && all[i].Sensor?
        ensures && all[i].sensor.key in KnownKeys
                && all[i].sensor.uniqueId == entryId + "_" + Display(all[i].sensor.deviceId) + "_" + all[i].sensor.key
                && (all[i].sensor.unit, all[i].sensor.stateClass) == UnitAndClass(all[i].sensor.key)
      {
        if i < |head| {
          assert all[i] == head[i];
        } else {
          assert all[i] == block[i - |head|];
        }
      }
    }
  }

  /** Across everything one setup registers, two sensors share a unique id
      exactly when they are for the same key of devices whose ids print the
      same. */
  lemma UniqueIds(entryId: string, devices: seq<Discovered>)
    ensures var all := AllEntities(entryId, devices);
      forall i, j :: 0 <= i < |all| && 0 <= j < |all| && all[i].Sensor? && all[j].Sensor? ==>
        (all[i].sensor.uniqueId == all[j].sensor.uniqueId
         <==> all[i].sensor.key == all[j].sensor.key
              && Display(all[i].sensor.deviceId) == Display(all[j].sensor.deviceId))
  {
    AllSensorsWellFormed(entryId, devices);
    var all := AllEntities(entryId, devices);
    forall i, j | 0 <= i < |all| && 0 <= j < |all| && all[i].Sensor? && all[j].Sensor?
      ensures all[i].sensor.uniqueId == all[j].sensor.uniqueId
              <==> all[i].sensor.key == all[j].sensor.key
                   && Display(all[i].sensor.deviceId) == Display(all[j].sensor.deviceId)
    {
      UniqueIdInjective(entryId, all[i].sensor.deviceId, all[i].sensor.key,
                        all[j].sensor.deviceId, all[j].sensor.key);
    }
  }

  /** Within one device's block, no two entities share a unique id. */
  lemma UniqueIdsWithinDevice(entryId: string, d: Discovered)
    ensures var block := DeviceEntities(entryId, d);
      forall i, j :: 0 <= i < j < |block| && block[i].Sensor? && block[j].Sensor? ==>
        block[i].sensor.uniqueId != block[j].sensor.uniqueId
  {
    if DeviceId(d.record).Some? && SnapshotOf(d.firstData) != map[] {
      var id, nick, snap := DeviceId(d.record).value, Nickname(d.record), SnapshotOf(d.firstData);
      DeviceSensors(entryId, id, nick, snap);
      DeviceBlock(entryId, d);
      var block := DeviceEntities(entryId, d);
      var out := SensorsFor(entryId, id, nick, snap, SensorTable);
      assert block == out + [Button(entryId, id, nick)];
      forall i, j | 0 <= i < j < |block| && block[i].Sensor? && block[j].Sensor?
        ensures block[i].sensor.uniqueId != block[j].sensor.uniqueId
      {
        assert block[i] == out[i] && block[j] == out[j];
        UniqueIdInjective(entryId, id, out[i].sensor.key, id, out[j].sensor.key);
      }
    }
  }

  /** The rows of the two keys of the example below. */
  lemma RowsOfBatteryAndRssi()
    ensures RowOf("battery_percentage") == 0 && RowOf("rssi") == 8
  {
    TableKeys();
    var b, r := RowOf("battery_percentage"), RowOf("rssi");
    assert KnownKeys[b] == KnownKeys[0];
    assert KnownKeys[r] == KnownKeys[8];
  }

  /** A snapshot holding exactly a battery percentage and a signal strength
      shares two fields with the table. */
  lemma KnownKeysOfSnapshot(snap: Snapshot)
    requires snap.Keys == {"battery_percentage", "rssi"}
    ensures |snap.Keys * KnownKeySet()| == 2
  {
    assert snap.Keys * KnownKeySet() == {"battery_percentage", "rssi"};
  }

  /** The sensors such a snapshot gives: the battery first, then the signal
      strength. */
  lemma BatteryAndRssiSensors(entryId: string, id: Value, nick: Value, snap: Snapshot)
    requires snap.Keys == {"battery_percentage", "rssi"}
    ensures var out := SensorsFor(entryId, id, nick, snap, SensorTable);
      && |out| == 2
      && out[0] == Sensor(SensorFor(entryId, id, nick, SensorTable[0]))
      && out[1] == Sensor(SensorFor(entryId, id, nick, SensorTable[8]))
  {
    var out := SensorsFor(entryId, id, nick, snap, SensorTable);
    DeviceSensors(entryId, id, nick, snap);
    KnownKeysOfSnapshot(snap);
    RowsOfBatteryAndRssi();
    assert RowOf(out[0].sensor.key) < RowOf(out[1].sensor.key);
    assert out[0].sensor.key == "battery_percentage";
  }

  /** A device whose first snapshot holds exactly a battery percentage and a
      signal strength gets two sensors, with units "%" and "dBm", and its
      button. */
  lemma BatteryAndRssiOnly(entryId: string, record: Record, snap: Snapshot)
    requires DeviceId(record).Some?
    requires snap.Keys == {"battery_percentage", "rssi"}
    ensures var block := DeviceEntities(entryId, Discovered(record, Some(snap)));
      && |block| == 3
      && block[0].Sensor? && block[0].sensor.key == "battery_percentage" && block[0].sensor.unit == Some("%")
      && block[1].Sensor? && block[1].sensor.key == "rssi" && block[1].sensor.unit == Some("dBm")
      && block[2].Button?
  {
    var id, nick := DeviceId(record).value, Nickname(record);
    assert "rssi" in snap;
    BatteryAndRssiSensors(entryId, id, nick, snap);
  }
}
