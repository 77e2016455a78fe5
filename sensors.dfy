/** The sensor entities (`TapoSensor`): their fixed key table, their identity,
    and the two values they read live from their coordinator. */
module Sensors {
  import opened Values
  import opened Timestamps
  import opened Coordination

  datatype StateClass = Measurement

  /** One row of the setup table: a snapshot field, the suffix its entity's
      name gets after the device nickname, its unit and its state class. */
  datatype SensorKind = SensorKind(key: string, suffix: string,
                                   unit: Option<string>, stateClass: Option<StateClass>)

  /** The fields setup looks for, in the order it looks for them. */
  const SensorTable: seq<SensorKind> := [
    SensorKind("battery_percentage", "Battery", Some("%"), Some(Measurement)),
    SensorKind("battery_low", "Battery Low", None, None),
    SensorKind("model", "Model", None, None),
    SensorKind("firmware_version", "Firmware Version", None, None),
    SensorKind("hardware_version", "Hardware Version", None, None),
    SensorKind("nickname", "Nickname", None, None),
    SensorKind("mac", "MAC Address", None, None),
    SensorKind("device_id", "Device ID", None, None),
    SensorKind("rssi", "Signal Strength (RSSI)", Some("dBm"), Some(Measurement)),
    SensorKind("signal_level", "Signal Level", None, Some(Measurement)),
    SensorKind("at_low_battery", "Low Battery Warning", None, None)
  ]

  /** The fields setup looks for, in table order. */
  const KnownKeys: seq<string> := [
    "battery_percentage", "battery_low", "model", "firmware_version", "hardware_version",
    "nickname", "mac", "device_id", "rssi", "signal_level", "at_low_battery"
  ]

  /** The table's keys are the known keys, in the same order, each once. */
  lemma TableKeys()
    ensures |SensorTable| == |KnownKeys|
    ensures forall i :: 0 <= i < |SensorTable| ==> SensorTable[i].key == KnownKeys[i]
    ensures forall i, j :: 0 <= i < j < |KnownKeys| ==> KnownKeys[i] != KnownKeys[j]
  {
  }

  /** The keys of a table, as a set. */
  function TableKeySet(table: seq<SensorKind>): set<string> {
    set r | 0 <= r < |table| :: table[r].key
  }

  predicate DistinctKeys(table: seq<SensorKind>) {
    forall i, j :: 0 <= i < j < |table| ==> table[i].key != table[j].key
  }

  /** The last row of `table` with the given key. */
  function RowIn(table: seq<SensorKind>, key: string): (r: nat)
    requires key in TableKeySet(table)
    ensures r < |table| && table[r].key == key
    decreases |table|
  {
    var n := |table| - 1;
    if table[n].key == key then n
    else
      assert key in TableKeySet(table[..n]) by {
        var r :| 0 <= r < |table| && table[r].key == key;
        assert table[..n][r].key == key;
      }
      RowIn(table[..n], key)
  }

  /** The row of a known key in the table. */
  function RowOf(key: string): (r: nat)
    requires key in KnownKeys
    ensures r < |SensorTable| && SensorTable[r].key == key && KnownKeys[r] == key
  {
    TableKeys();
    assert key in TableKeySet(SensorTable) by {
      var i :| 0 <= i < |KnownKeys| && KnownKeys[i] == key;
      assert SensorTable[i].key == key;
    }
    RowIn(SensorTable, key)
  }

  /** The unit and state class each field's entity declares, as the setup
      code writes them out: a percentage and a dBm reading are measurements,
      the signal level is a measurement without a unit, and every other field
      has neither. */
  function UnitAndClass(key: string): (Option<string>, Option<StateClass>) {
    if key == "battery_percentage" then (Some("%"), Some(Measurement))
    else if key == "rssi" then (Some("dBm"), Some(Measurement))
    else if key == "signal_level" then (None, Some(Measurement))
    else (None, None)
  }

  /** Every row of the table declares the unit and state class above. */
  lemma TableUnits()
    ensures forall r :: 0 <= r < |SensorTable|
                        ==> (SensorTable[r].unit, SensorTable[r].stateClass) == UnitAndClass(SensorTable[r].key)
  {
  }

  /** The first letter of every known key; the one starting with `b` are
      not seven letters long. */
  lemma KeyStarts(k: string)
    requires k in KnownKeys
    ensures k[0] in {'b', 'm', 'f', 'h', 'n', 'd', 'r', 's', 'a'}
    ensures k[0] == 'b' ==> |k| != 7
  {
  }

  /** What follows a `_` inside a known key: one of four letters, except
      for the `b` of `at_low_battery`, seven places before its end. */
  lemma AfterSeparator(k: string, p: int)
    requires k in KnownKeys && 0 <= p < |k| - 1 && k[p] == '_'
    ensures k[p + 1] in {'p', 'l', 'v', 'i'} || (k[p + 1] == 'b' && |k| - p - 1 == 7)
  {
  }

  /** No known key ends with `_` followed by another known key: either the
      character where the separator would sit is not `_`, or the one after it
      does not start the shorter key. */
  lemma NoKeyEndsWithAnother(k1: string, k2: string)
    requires k1 in KnownKeys && k2 in KnownKeys && |k1| < |k2|
    ensures k2[|k2| - |k1| - 1] != '_' || k2[|k2| - |k1|] != k1[0]
  {
    var i := |k2| - |k1|;
    KeyStarts(k1);
    if k2[i - 1] == '_' {
      AfterSeparator(k2, i - 1);
    }
  }

  /** The identity of one sensor entity; the coordinator it reads from is
      not part of the value. */
  datatype TapoSensor = TapoSensor(deviceId: Value, key: string, name: string, uniqueId: string,
                                   unit: Option<string>, stateClass: Option<StateClass>)

  /** `TapoSensor.__init__`: the unique id joins entry, device and key with `_`. */
  function NewSensor(entryId: string, deviceId: Value, key: string, name: string,
                     unit: Option<string>, stateClass: Option<StateClass>): (s: TapoSensor)
    ensures s.uniqueId == entryId + "_" + Display(deviceId) + "_" + key
    ensures s.deviceId == deviceId && s.key == key && s.name == name
    ensures s.unit == unit && s.stateClass == stateClass
  {
    TapoSensor(deviceId, key, name, entryId + "_" + Display(deviceId) + "_" + key, unit, stateClass)
  }

  /** Neither key ends with `_` followed by the other. */
  predicate SeparatorFree(k1: string, k2: string) {
    && (0 < |k1| < |k2| ==> k2[|k2| - |k1| - 1] != '_' || k2[|k2| - |k1|] != k1[0])
    && (0 < |k2| < |k1| ==> k1[|k1| - |k2| - 1] != '_' || k1[|k1| - |k2|] != k2[0])
  }

  /** In `x + "_" + k`, the separator, the first character of the key, and
      the two characters at a position `i` inside the key. */
  lemma SeparatedAt(x: string, k: string, i: int)
    requires |x| < i < |x| + |k|
    ensures (x + "_" + k)[|x|] == '_' && (x + "_" + k)[|x| + 1] == k[0]
    ensures (x + "_" + k)[i] == k[i - |x| - 1] && (x + "_" + k)[i + 1] == k[i - |x|]
  {
  }

  /** Text, `_`, key: when neither key ends with `_` followed by the other,
      the whole determines both the key and the text before the separator. */
  lemma SplitAtKey(x1: string, k1: string, x2: string, k2: string)
    requires |k1| > 0 && |k2| > 0 && SeparatorFree(k1, k2)
    requires x1 + "_" + k1 == x2 + "_" + k2
    ensures k1 == k2 && x1 == x2
  {
    var s := x1 + "_" + k1;
    if |k1| < |k2| {
      SeparatedAt(x2, k2, |x1|);
    } else if |k2| < |k1| {
      SeparatedAt(x1, k1, |x2|);
    } else {
      assert k1 == s[|s| - |k1|..] == k2;
      assert x1 == s[..|x1|] == x2;
    }
  }

  /** Within one config entry, two sensors for known keys share a unique id
      exactly when they are for the same key of devices whose ids print the
      same. */
  lemma UniqueIdInjective(entryId: string, d1: Value, k1: string, d2: Value, k2: string)
    requires k1 in KnownKeys && k2 in KnownKeys
    ensures entryId + "_" + Display(d1) + "_" + k1 == entryId + "_" + Display(d2) + "_" + k2
            <==> k1 == k2 && Display(d1) == Display(d2)
  {
    var p, t1, t2 := entryId + "_", Display(d1), Display(d2);
    if p + t1 + "_" + k1 == p + t2 + "_" + k2 {
      assert |k1| > 0 && |k2| > 0;
      if |k1| < |k2| {
        NoKeyEndsWithAnother(k1, k2);
      } else if |k2| < |k1| {
        NoKeyEndsWithAnother(k2, k1);
      }
      SplitAtKey(p + t1, k1, p + t2, k2);
      assert t1 == (p + t1)[|p|..] == (p + t2)[|p|..] == t2;
    }
  }

  /** `native_value`: the current snapshot's value for the sensor's key, or
      None when the coordinator holds no dictionary or the key is absent. */
  function NativeValue(s: TapoSensor, data: Option<Snapshot>): (v: Value)
    ensures data.Some? && s.key in data.value ==> v == data.value[s.key]
    ensures data.None? || s.key !in data.value ==> v == Null
  {
    match data
    case None => Null
    case Some(m) => if s.key in m then m[s.key] else Null
  }

  /** What a sensor reads after its coordinator's poll: a fetched dictionary
      replaces the previous data as a whole, and any failed fetch leaves the
      sensor reading None, whatever it read before. */
  lemma ValueAfterPoll(s: TapoSensor, outcome: FetchOutcome, last: Option<Time>, now: Time)
    ensures !outcome.Fetched? ==> NativeValue(s, Some(Poll(outcome, last, now).data)) == Null
    ensures outcome.Fetched? && s.key in outcome.data
            ==> NativeValue(s, Some(Poll(outcome, last, now).data)) == outcome.data[s.key]
  {
  }

  /** `extra_state_attributes`. `lastUpdate` is the coordinator's last success;
      `lastAuth` is None when the API client offers no last-authentication time
      and `Some(t)` with its answer `t` when it does. */
  function ExtraStateAttributes(lastUpdate: Option<Time>, lastAuth: Option<Option<Time>>): (attrs: map<string, string>)
    ensures "last_successful_update" in attrs
    ensures attrs["last_successful_update"] == "Never" <==> lastUpdate.None?
    ensures lastUpdate.Some? ==> IsoShaped(attrs["last_successful_update"])
    ensures "last_successful_auth" in attrs <==> lastAuth.Some?
    ensures lastAuth.Some? ==> (attrs["last_successful_auth"] == "Never" <==> lastAuth.value.None?)
    ensures lastUpdate.Some? ==> attrs["last_successful_update"] == IsoFormat(lastUpdate.value)
    ensures lastAuth.Some? && lastAuth.value.Some?
            ==> attrs["last_successful_auth"] == IsoFormat(lastAuth.value.value)
    ensures attrs.Keys <= {"last_successful_update", "last_successful_auth"}
  {
    var update := map["last_successful_update" := IsoOrNever(lastUpdate)];
    match lastAuth
    case None => update
    case Some(auth) => update["last_successful_auth" := IsoOrNever(auth)]
  }

  /** The update attribute tells recorded times apart: two sensors show the
      same text exactly when their coordinators recorded the same last
      success. */
  lemma UpdateAttributeIdentifiesTime(u1: Option<Time>, u2: Option<Time>,
                                      a1: Option<Option<Time>>, a2: Option<Option<Time>>)
    ensures (ExtraStateAttributes(u1, a1)["last_successful_update"]
             == ExtraStateAttributes(u2, a2)["last_successful_update"]) <==> u1 == u2
  {
    if u1.Some? && u2.Some? {
      IsoFormatInjective(u1.value, u2.value);
    }
  }

  /** `t.isoformat() if t else "Never"`. */
  function IsoOrNever(t: Option<Time>): string {
    match t
    case None => "Never"
    case Some(time) => IsoFormat(time)
  }
}
