# Tapo sensor platform, modelled in Dafny

This project models the sensor platform of the Tapo hub integration for Home
Assistant (`custom_components/tapo/sensor.py`). The model has three parts.

- **Entry setup** (`async_setup_entry`). For each child device the hub reports,
  it takes the device's `device_id` and nickname. Devices without a truthy id
  are skipped. Each remaining device gets a coordinator. When the
  coordinator's first snapshot is non-empty, setup creates one sensor entity
  for each of the eleven known fields present in the snapshot, in a fixed
  order, followed by one button entity. All entities are registered in a
  single batch.
- **The per-device coordinator** (`TapoCoordinator`). Each poll asks the hub for
  one snapshot. A `None` answer, a timeout or any other `Exception` all yield
  an empty dictionary. The coordinator
  records the time of its last poll that succeeded.
- **The sensor entity** (`TapoSensor`). This covers its unique id
  `<entry>_<device>_<key>`, its live value (the snapshot's entry for its key,
  or None) and its extra attributes. The attributes are the ISO 8601 time of
  the last successful update and of the last successful authentication, or
  `"Never"`.

The modules are:

- `Values` (`values.dfy`): Python values as they occur in device records and
  snapshots, with Python truthiness, `dict.get`, and the text an f-string gives
  for a value.
- `Timestamps` (`timestamps.dfy`): naive `datetime` values and the text
  `isoformat()` gives for them.
- `Coordination` (`coordination.dfy`): the fetch outcomes, one poll as a
  function, and the `TapoCoordinator` class whose update method changes its
  last-success field.
- `Sensors` (`sensors.dfy`): the table of known fields, the sensor entity, its
  unique id, `native_value` and `extra_state_attributes`.
- `EntrySetup` (`setup.dfy`): `async_setup_entry` as a method with loops over
  devices and table rows, proved equal to the function `Setup`.
- `SetupProperties` (`setup_properties.dfy`): what setup guarantees about the
  entities and coordinators it creates.

Three behaviours of the code may surprise a reader. The model follows the
code in each:

- **After an empty or failed poll.** A reader might expect a sensor to keep
  its value. Instead, the poll returns `{}`, which replaces the coordinator's
  data, so the sensor then reads None (`Sensors.ValueAfterPoll`).
- **After the hub answers `None`.** A reader might expect the update
  attribute to read "Never". Instead, the previous success time is kept, so
  "Never" appears only if no poll has ever succeeded
  (`Coordination.LastSuccessIsLatestFetch`).
- **Button creation.** A reader might expect every device with an id to get
  a button. Instead, the button is created only inside the branch for a
  non-empty first snapshot (`custom_components/tapo/sensor.py:56` and
  `200-203`; `SetupProperties.DeviceBlock`).

## Model

| member | source | states |
|---|---|---|
| Values.Get | custom_components/tapo/sensor.py:41-42 | `dict.get`: a value exactly when the key is present, and then the stored one |
| Values.Truthy | custom_components/tapo/sensor.py:44 | Python truthiness of a scalar; `EntrySetup.DeviceId` states which ids pass the `if not device_id` test |
| Values.Display | custom_components/tapo/sensor.py:64 | the text an f-string gives for a scalar; `Values.DecimalString` states what it gives for an int, and `Sensors.UniqueIdInjective` what unique ids it yields |
| Values.DecimalString | custom_components/tapo/sensor.py:257 | an int's text is Python's `str(i)`: for `i >= 0` it is digits reading back to `i`, and for `i < 0` it is `-` followed by digits reading back to `-i`; the digits never start with a redundant `0`, so the text is fully determined |
| Values.ParseDigitsInverse | custom_components/tapo/sensor.py:257 | the digits of a natural number read back to that number |
| EntrySetup.DeviceId | custom_components/tapo/sensor.py:41-46 | a device gets an id exactly when `device_id` is present and truthy, and the id is the stored value |
| EntrySetup.Nickname | custom_components/tapo/sensor.py:42 | the stored nickname when present (whatever it is), `"Unknown"` only when absent |
| EntrySetup.SnapshotOf | custom_components/tapo/sensor.py:53 | `coordinator.data or {}`; `SetupProperties.DeviceBlock` states what a device contributes for each snapshot |
| EntrySetup.SensorFor | custom_components/tapo/sensor.py:58-67 | the sensor built for one table row, named `"<nickname> <suffix>"`; `SetupProperties.DeviceBlock` (through `DescribedByTable`) and `SetupProperties.AllSensorsWellFormed` state its key, unique id, unit and state class |
| EntrySetup.SensorsFor | custom_components/tapo/sensor.py:57-198 | the sensors of the table rows whose key the snapshot holds; described by `SetupProperties.SensorsInTableOrder`, `SensorsCoverTable`, `SensorsCount` and `DeviceSensors` |
| EntrySetup.DeviceEntities | custom_components/tapo/sensor.py:40-203 | what one device adds to the entity list; described by `SetupProperties.DeviceBlock` and `UniqueIdsWithinDevice` |
| EntrySetup.AllEntities | custom_components/tapo/sensor.py:38-203 | the entity list the device loop builds, each device's block in discovery order; described by `SetupProperties.EntitiesOfConcat`, `EntityCount`, `AllSensorsWellFormed` and `UniqueIds` |
| EntrySetup.Coordinators | custom_components/tapo/sensor.py:40-51 | the ids that get a coordinator; described by `SetupProperties.CoordinatorPerDevice` |
| EntrySetup.Setup | custom_components/tapo/sensor.py:23-206 | the outcome of setup; described by `SetupProperties.NoDevicesIffEmpty`, `EntityCount`, `AllSensorsWellFormed` and `UniqueIds`, and implemented by `EntrySetup.SetupEntry` |
| EntrySetup.AppendTableSensors | custom_components/tapo/sensor.py:56-198 | walking the table for one device appends exactly that device's sensors, in table order, to the list |
| EntrySetup.SetupEntry | custom_components/tapo/sensor.py:23-206 | the loop over devices returns exactly the coordinators and entity list `Setup` describes |
| SetupProperties.NoDevicesIffEmpty | custom_components/tapo/sensor.py:31-34 | setup registers nothing exactly when discovery returned no device |
| SetupProperties.EntitiesOfConcat | custom_components/tapo/sensor.py:40-203 | devices are handled independently: the entities and coordinators of a concatenation are the concatenation of each part's |
| SetupProperties.SkippedDevice | custom_components/tapo/sensor.py:44-46 | a device without a truthy id adds no coordinator and no entity and does not affect the devices after it |
| SetupProperties.IdIndicesSound | custom_components/tapo/sensor.py:40-46 | every position listed is that of a device with a truthy id |
| SetupProperties.IdIndicesComplete | custom_components/tapo/sensor.py:40-46 | every device with a truthy id has its position listed |
| SetupProperties.IdIndicesOrdered | custom_components/tapo/sensor.py:40 | the positions are listed in discovery order |
| SetupProperties.CoordinatorPerDevice | custom_components/tapo/sensor.py:40-51 | one coordinator per device with a truthy id, in discovery order: the k-th is for the id of the k-th device that has one, and every id is truthy |
| SetupProperties.SensorsInTableOrder | custom_components/tapo/sensor.py:57-198 | for any table with distinct keys, each sensor built is that of a row whose key the snapshot holds, in row order |
| SetupProperties.SensorsCoverTable | custom_components/tapo/sensor.py:57-198 | every row whose key the snapshot holds has its sensor in the list |
| SetupProperties.SensorsCount | custom_components/tapo/sensor.py:57-198 | a table with distinct keys gives as many sensors as keys it shares with the snapshot |
| SetupProperties.DeviceSensors | custom_components/tapo/sensor.py:57-198 | one device's sensors: exactly one per known key present in the snapshot, in table order, each built from its row; the count is the number of known keys present |
| SetupProperties.DeviceBlock | custom_components/tapo/sensor.py:53-203 | a device contributes entities exactly when it has a truthy id and a non-empty first snapshot; then its described sensors come first and one button closes the block |
| SetupProperties.EntityCount | custom_components/tapo/sensor.py:40-206 | the number of entities registered is the sum, over devices with an id and a non-empty snapshot, of known keys present plus one |
| SetupProperties.AllSensorsWellFormed | custom_components/tapo/sensor.py:57-198 | every sensor registered is for a known key, with unique id `<entry>_<device>_<key>` and its key's unit and state class |
| SetupProperties.UniqueIds | custom_components/tapo/sensor.py:257 | across one setup, two sensors share a unique id exactly when they have the same key and their device ids print the same |
| SetupProperties.UniqueIdsWithinDevice | custom_components/tapo/sensor.py:56-203 | no two sensors of one device share a unique id |
| SetupProperties.BatteryAndRssiSensors | custom_components/tapo/sensor.py:57-172 | a snapshot holding exactly `battery_percentage` and `rssi` yields the battery sensor, then the signal-strength sensor |
| SetupProperties.BatteryAndRssiOnly | custom_components/tapo/sensor.py:56-203 | such a device's block is those two sensors, with units `%` and `dBm`, and a button |
| Sensors.TableKeys | custom_components/tapo/sensor.py:57-198 | the eleven table rows carry the eleven known keys in setup order, each once |
| Sensors.RowOf | custom_components/tapo/sensor.py:57-198 | the row of a known key holds that key |
| Sensors.UnitAndClass | custom_components/tapo/sensor.py:57-198 | the unit and state class of each key; `Sensors.TableUnits` states that every table row declares them |
| Sensors.TableUnits | custom_components/tapo/sensor.py:57-198 | only the battery (`%`) and RSSI (`dBm`) have units; those two and the signal level are measurements |
| Sensors.NoKeyEndsWithAnother | custom_components/tapo/sensor.py:57-198 | no known key ends with `_` followed by another known key |
| Sensors.UniqueIdInjective | custom_components/tapo/sensor.py:257 | for known keys, two unique ids are equal exactly when the keys are equal and the device ids print the same |
| Sensors.NativeValue | custom_components/tapo/sensor.py:261-266 | the snapshot's value for the key, and None when the data is not a dictionary or lacks the key |
| Sensors.ValueAfterPoll | custom_components/tapo/sensor.py:224-266 | after a failed poll a sensor reads None; after a fetch it reads the fetched value for its key |
| Sensors.IsoOrNever | custom_components/tapo/sensor.py:274 | a time's `isoformat()` text, or "Never"; stated through `Sensors.ExtraStateAttributes` |
| Sensors.ExtraStateAttributes | custom_components/tapo/sensor.py:268-280 | the update time is always present: "Never" exactly when there was no success, otherwise the `isoformat()` text of that time; the auth time is present exactly when the client offers it: "Never" exactly when it is None, otherwise the text of that time; no other keys |
| Sensors.UpdateAttributeIdentifiesTime | custom_components/tapo/sensor.py:272-274 | two sensors show the same update text exactly when their coordinators recorded the same last success |
| Timestamps.PadInverse | custom_components/tapo/sensor.py:274 | a zero-padded field reads back to its number |
| Timestamps.IsoFormat | custom_components/tapo/sensor.py:274 | `isoformat()` text is `YYYY-MM-DDTHH:MM:SS` with `.ffffff` exactly when microseconds are non-zero, and never "Never" |
| Timestamps.IsoFormatFields | custom_components/tapo/sensor.py:274 | the text's digit fields read back to the time's year, month, day, hour, minute, second and, when present, microseconds |
| Timestamps.IsoFormatInjective | custom_components/tapo/sensor.py:274 | two times give the same text exactly when they are equal |
| Coordination.Poll | custom_components/tapo/sensor.py:224-239 | one run of the update function; described by `Coordination.PollOutcomes` and `LastSuccessIsLatestFetch`, and implemented by `Coordination.TapoCoordinator.UpdateData` |
| Coordination.PollOutcomes | custom_components/tapo/sensor.py:224-239 | every outcome returns a dictionary: the fetched one exactly on a fetch, else `{}`; the time moves only on a fetch, and to the finishing time |
| Coordination.LastSuccessIsLatestFetch | custom_components/tapo/sensor.py:224-239 | after a series of polls the recorded time is the last fetch's finishing time, the earlier one when none fetched, and None exactly when there never was a success |
| Coordination.TapoCoordinator.constructor | custom_components/tapo/sensor.py:210-219 | a new coordinator is for its device, polls every 60 seconds and has no success time |
| Coordination.TapoCoordinator.UpdateData | custom_components/tapo/sensor.py:224-239 | a fetched dictionary is returned and the time set to now; a `None` answer, a timeout or any other `Exception` returns `{}` and keeps the time |

Two accessors are modelled but have no row, because their contracts only
repeat their bodies. `Sensors.NewSensor` builds a sensor from its fields
(`custom_components/tapo/sensor.py:243-259`); what its unique id guarantees is
stated by `Sensors.UniqueIdInjective`, `SetupProperties.AllSensorsWellFormed`
and `SetupProperties.DeviceBlock`.
`Coordination.TapoCoordinator.GetLastSuccessfulUpdateTime` returns the
recorded time (`custom_components/tapo/sensor.py:221-222`); what that time is
is stated by `Coordination.TapoCoordinator.UpdateData` and
`Coordination.LastSuccessIsLatestFetch`.

## Left out

- Home Assistant itself is not modelled: the base classes, the entity registry,
  the poll scheduler and the host storing the update result as
  `coordinator.data`. Instead, a coordinator's data is passed as an input.
- The hub's API calls (`async_get_all_child_devices`, `async_get_sensor_data`,
  `get_last_successful_auth_time`) are network I/O. Their results are inputs:
  the device list, a `FetchOutcome`, and an optional auth time.
- Asynchrony, awaiting and timeouts are not modelled. A timeout is one of the
  fetch outcomes.
- `datetime.now()` is not modelled: the time at which a poll finishes is a
  parameter.
- Logging is left out, and so is the lookup of the API client in `hass.data`.
- The coordinator's `name` is built from `DOMAIN`. `const.py` is not part of
  this model, so the name is left out.
- The `hasattr` test on the coordinator always succeeds, because the method is
  defined on the class, so the update attribute is always present. Whether
  the API client offers an auth time is modelled as an `Option`.
- The button entity and its own coordinator live in `button.py`, which is not
  part of this model. The button appears only as a marker carrying the entry
  id, device id and nickname. Its first refresh is not modelled.
- `async_config_entry_first_refresh` is not modelled. Its effect on setup is
  the first snapshot, passed in as `Discovered.firstData`.
- Exceptions that are not an `Exception` are not modelled. A `BaseException`
  such as `asyncio.CancelledError`, `KeyboardInterrupt` or `SystemExit` passes
  through the handler at `custom_components/tapo/sensor.py:237`, out of the
  update function and so out of the first refresh at line 51. The outcome
  `Coordination.Failed` stands only for an `Exception`.
- Time zones are not modelled. Every time, including the one the API client
  returns from `get_last_successful_auth_time`, is taken as a naive
  `datetime`. An aware datetime would make `isoformat()` append an offset
  such as `+02:00`, and `Timestamps.IsoFormat` does not produce that text.
- Floating-point values are kept as their Python text and never computed on.
  `Truthy` treats `0.0` and `-0.0` as false by their text.
- EntrySetup.SetupEntry: the entity list is returned, not handed to a callback.
  Each coordinator is represented by its device id, not by a coordinator
  object.
- Sensors.NativeValue: the sensor's value is returned as is, with no
  conversion. The model does not capture the host converting it for display.
