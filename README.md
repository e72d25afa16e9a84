# L-SNMPvS agent core, modelled in Dafny

This project models the sequential core of an L-SNMPvS agent, a small SNMP-like
management agent for simulated home-automation sensors and actuators:

- **IID validation** (`IidUtils`): `parse_iid` checks an identifier's components in a
  fixed order. It splits a valid one into structure, object and 0–2 indexes. Every
  failure raises `InvalidIIDError`.
- **Value types** (`ValueTypeUtils`): `get_value_type_from_iid` maps an IID to the type
  of value it addresses. The Device group uses a fixed table. The Sensors and Actuators
  groups use the declaration order of the `Sensor` and `Actuator` dataclass fields.
- **Format validators** (`FormatUtils`, concrete cases in `FormatUtilsExamples`):
  - `validate_date_format` accepts `day:month:year:hour:minute:second:millisecond`
    strings that name a real Gregorian date and time and end in three millisecond digits.
  - `is_valid_int` says whether Python's `int()` accepts a string.
- **Devices** (`SensorDevice`, `ActuatorDevice`): the sensor and actuator records are
  classes updated in place.
  - A sensor reading stores the sample, a percentage status and the sampling time.
  - An actuator accepts a new status only inside its `[min, max]` range.
- **Registry** (`LMib`): the MIB holds two maps keyed by device id, one for sensors and
  one for actuators. Registration refuses an id already present. The maps hold the
  device objects, so a later change to a device shows in every lookup.
- **Error taxonomy** (`Exceptions`): the nine exception kinds with codes 1..9. The
  agent's exception-to-code mapping falls back to 1 for the base kind.

Randomness and the wall clock are parameters: the sensor sample, the `now` timestamp
string and the `start_time` clock readings (opaque `real`s).

The checks run in the same order as in the source, and each failure gives the same
error or message. The source's raised exceptions become `Result`, `TypeLookup` and
`Registration` values. Python's `None` becomes `Option`.

Where the code and the L-SNMPvS protocol description disagree, the model follows the code:

- `parse_iid` takes a list of components, not a dotted string.
- `get_all_devices_states` returns maps from id to the device objects, not to their
  states, although its name and docstring say "states".
- `get_all_sensors` returns the sensor objects, not state dictionaries.
- The Device group, the wire codec and the get/set-by-IID resolver that the protocol
  description calls for do not exist in this code: `MIB` has no `get_value_by_iid`,
  `set_value_by_iid` or `device_info`.
- `devices/*.py` import `generate_date_timestamp`, but `utils/timestamp_utils.py` only
  defines `gerar_timestamp_data`. The model passes the timestamp in as a parameter.

## Model

| member | source | states |
|---|---|---|
| `Exceptions.ClassCode` | exceptions.py:1-47 | Only the base class lacks a `code`. Every subclass's code lies in 1..9. |
| `Exceptions.MapExceptionToCode` | agent.py:47-51 | The mapping gives 1 for the base class and each subclass's own code otherwise. The result is always in 1..9. |
| `Exceptions.CodesFollowDeclarationOrder` | exceptions.py:5-47 | The nine subclasses get codes 1..9 in declaration order. Every kind other than the base is one of them. |
| `Exceptions.CodesDistinct` | exceptions.py:7-47 | Two subclasses with the same code are the same subclass. |
| `Exceptions.MappingInjectiveOnSubclasses` | agent.py:51 | Subclasses map to equal codes only when they are the same subclass. No subclass is sent to the fallback instead of its own code. |
| `Exceptions.FallbackIsDecodingCode` | agent.py:47-51 | The base class's fallback code equals DecodingError's code, 1. |
| `IidUtils.ParseIid` | utils/iid_utils.py:3-30 | On failure the error is InvalidIIDError (code 5) with the message of the first failing check in the order length 2..4, all ints, structure > 0, object >= 0, and on success the result is a well-formed record whose components are exactly the input. |
| `IidUtils.ParseComponents` | utils/iid_utils.py:24-30 | Any structure > 0, object >= 0 and 0–2 indexes of any value parse back to the same record. Indexes are never checked. |
| `IidUtils.ParseSucceedsIff` | utils/iid_utils.py:10-30 | Parsing succeeds if and only if the input is the component list of a well-formed record. |
| `IidUtils.FailuresCarryCodeFive` | utils/iid_utils.py:1-22 | Every parse failure maps to wire code 5. |
| `ValueTypeUtils.PyIndex` | utils/value_type_utils.py:35 | Python list indexing: positions -n..n-1 are valid, and negative ones count from the end. |
| `ValueTypeUtils.DeviceType` | utils/value_type_utils.py:19-25 | The Device table gives a type exactly for objects 0..10 and None otherwise. |
| `ValueTypeUtils.GetValueTypeFromIid` | utils/value_type_utils.py:16-52 | Fewer than 2 components raise an unpacking error. Structure 1 uses the Device table. For structures 2 and 3, object 0 gives int, and a nonzero object with two indexes gives "list". Other structures give None. Only a field position outside the field list raises IndexError. |
| `ValueTypeUtils.SensorTypesFollowFields` | utils/value_type_utils.py:28-38 | With any number of indexes other than two, Sensors objects 1..8 give the declared field type, or "timestamp" for object 7 (`last_sampling_time`). Objects above 8 raise. |
| `ValueTypeUtils.ActuatorTypesFollowFields` | utils/value_type_utils.py:41-50 | With any number of indexes other than two, Actuators objects 1..7 give the declared field type, or "timestamp" for object 6 (`last_control_time`). Objects above 7 raise. |
| `ValueTypeUtils.DeviceIgnoresIndexes` | utils/value_type_utils.py:19-25 | For the Device group the indexes never change the answer. |
| `ValueTypeUtils.NegativeObjectWraps` | utils/value_type_utils.py:28-50 | A negative object id k counts fields from the end: Sensors object k in -7..-1 gives the type of object k + 8 and Actuators object k in -6..-1 that of object k + 7, and ids further back raise IndexError. |
| `FormatUtils.ThreeDigitsInMillisecondRange` | utils/format_utils.py:16-20 | The 0..999 range check never rejects a string that passed the three-ASCII-digit check. |
| `FormatUtils.RSplitOnce` | utils/format_utils.py:10 | `rsplit(":", 1)`: one piece when there is no separator. Otherwise the text before and after the last separator. |
| `FormatUtils.DaysInMonth` | utils/format_utils.py:13 | April, June, September and November have 30 days, February 29 in leap years and 28 otherwise, and every other month 31. |
| `FormatUtils.FromDirectives` | utils/format_utils.py:13 | Succeeds exactly when the six fields match the strptime directives and the date and time they name is valid, and then returns that date and time. |
| `FormatUtils.Strptime` | utils/format_utils.py:13 | `strptime(date_part, "%d:%m:%Y:%H:%M:%S")` succeeds exactly when the ':'-separated fields match the directives and name a valid date and time, and then returns that date and time. |
| `FormatUtils.ValidateDateFormat` | utils/format_utils.py:3-24 | The result is true exactly when the text has a last ':' and the text before it parses as a date and time. The text after it must be exactly three ASCII digits. Every failure is false. |
| `FormatUtils.ValidateFields` | utils/format_utils.py:9-24 | On ':'-joined fields followed by ':' and milliseconds, the validator checks exactly the fields and the milliseconds. |
| `FormatUtils.ValidateCalendar` | utils/format_utils.py:10-24 | On fields that match the directives, the validator is true exactly when they name a valid date and time and the milliseconds are three digits. |
| `FormatUtils.DayPastMonthEndRejected` | utils/format_utils.py:13 | A day past the end of its month makes the string invalid, whatever the other fields. |
| `FormatUtils.YearZeroRejected` | utils/format_utils.py:13 | Year 0000 makes the string invalid. |
| `FormatUtils.LeapSecondsRejected` | utils/format_utils.py:13 | Seconds 60 and 61, which the %S pattern matches, make the string invalid. |
| `FormatUtils.FormattedTimestampValid` | utils/format_utils.py:3-24 | Every timestamp in the agent's own format, with years 1000..9999 and milliseconds 0..999, is accepted. Its date part parses back to the same date and time. |
| `FormatUtils.Strip` | utils/format_utils.py:32 | The result neither starts nor ends with whitespace (the space or \t \n \v \f \r), holds only characters of the input, and is the input itself when the input does not start or end with whitespace. |
| `FormatUtils.StripRemovesEdgeSpace` | utils/format_utils.py:32 | The input is some whitespace, then the stripped text, then some whitespace: only edge whitespace is removed. |
| `FormatUtils.ParseInt` | utils/format_utils.py:32 | `int(s)` succeeds only if `s` contains a digit. A non-empty ASCII digit string parses to its decimal value when it has at most 4300 digits and raises otherwise. |
| `FormatUtils.IsValidInt` | utils/format_utils.py:26-35 | True only for strings that contain a digit. A non-empty ASCII digit string is valid exactly when it has at most 4300 digits. |
| `FormatUtils.ForeignCharacterRejected` | utils/format_utils.py:26-35 | Text holding, anywhere, a character that is not a digit, a sign, an underscore or whitespace ("1.5", "1a", "0x1F", "1e3") does not parse, and `is_valid_int` is false on it. |
| `FormatUtils.ParseIntOfDecimal` | utils/format_utils.py:26-35 | For every integer of at most 4300 digits, `str(n)` is a valid int string and parses back to n. |
| `FormatUtilsExamples.JuneSeventhParses` | tests/test_format_utils.py:9 | The fields of 07:06:2025:14:30:15 parse to that date and time. |
| `FormatUtilsExamples.FebruaryThirtyFirstFails` | tests/test_format_utils.py:13 | The fields of 31:02:2025:14:30:15 do not parse. |
| `FormatUtilsExamples.ValidDateExamples` | tests/test_format_utils.py:7-37 | 07:06:2025:14:30:15 followed by any three digits, such as 123, 000 or 999, is valid. |
| `FormatUtilsExamples.DayOutsideMonthExample` | tests/test_format_utils.py:11-13 | "31:02:2025:14:30:15:123" is invalid. |
| `FormatUtilsExamples.MillisecondShapeExamples` | tests/test_format_utils.py:15-29 | Any millisecond field that is not exactly three digits, such as "12", "1234" or "abc", makes the string invalid. |
| `FormatUtilsExamples.MissingMillisecondsExample` | tests/test_format_utils.py:23-25 | A string with no millisecond field is invalid. |
| `FormatUtilsExamples.IntExamples` | tests/test_format_utils.py:39-45 | "123" is a valid int and "abc" is not. |
| `FormatUtilsExamples.SeparatorsAreNotSkipped` | utils/format_utils.py:32-35 | `int()` does not skip the ASCII separators 0x1C..0x1F, so "\x1c5" and " 5\x1f" raise and are not valid ints. |
| `SensorDevice.Sensor.constructor` | devices/sensor.py:21-28 | A new sensor keeps its id, type and range, and has no value, status or sampling time. |
| `SensorDevice.Sensor.ReadValue` | devices/sensor.py:30-40 | The returned value is the sample and is stored, and the sampling time is recorded. The status is 0 when min = max. Otherwise it lies in 0..100, is 0 at the minimum sample and 100 at the maximum sample. |
| `SensorDevice.Sensor.GetState` | devices/sensor.py:42-54 | Reports id, type, (min, max), value, status and sampling time as stored. |
| `ActuatorDevice.Actuator.constructor` | devices/actuator.py:11-17 | A new actuator has status 0 and no control time. It is in range exactly when min <= 0 <= max. |
| `ActuatorDevice.Actuator.ConfigureValue` | devices/actuator.py:19-28 | A value is accepted if and only if min <= value <= max. Acceptance sets the status to the value and records the control time. Refusal changes nothing. An empty range refuses every value. Being in range is preserved. |
| `ActuatorDevice.Actuator.GetState` | devices/actuator.py:30-41 | Reports id, type, (min, max), status, control time and start time as stored. |
| `LMib.Mib.constructor` | l_mibvs.py:19-22 | A new registry has two empty maps and files every device under its own id. |
| `LMib.Mib.RegisterSensor` | l_mibvs.py:24-33 | A fresh id is added and then looked up to that object. A known id is refused with "Sensor with ID {id} already exists." and leaves the maps unchanged. Existing entries and the actuator map never change. |
| `LMib.Mib.RegisterActuator` | l_mibvs.py:35-43 | The same for actuators, with "Actuator with ID {id} already exists.". The sensor map never changes. |
| `LMib.Mib.GetSensor` | l_mibvs.py:45-51 | Gives the registered object for a known id and None otherwise. The object's id is the key. |
| `LMib.Mib.GetActuator` | l_mibvs.py:53-59 | Gives the registered object for a known id and None otherwise. The object's id is the key. |
| `LMib.Mib.GetAllSensors` | l_mibvs.py:61-66 | Gives the sensor map itself, each object under its own id. |
| `LMib.Mib.GetAllActuators` | l_mibvs.py:68-73 | Gives the actuator map itself, each object under its own id. |
| `LMib.Mib.GetSensorState` | l_mibvs.py:87-94 | Gives None exactly for unknown ids, and otherwise the registered sensor's current state. |
| `LMib.Mib.GetActuatorState` | l_mibvs.py:96-103 | Gives None exactly for unknown ids, and otherwise the registered actuator's current state. |
| `LMib.Mib.GetMibState` | l_mibvs.py:75-85 | Holds exactly the registered ids, each mapped to its device's current state, plus the start time. |
| `LMib.Mib.GetAllDevicesStates` | l_mibvs.py:105-114 | Gives copies of both maps, from id to device object. |
| `LMib.ConfigurationSeenThroughRegistry` | l_mibvs.py:41-43 | After an actuator is registered, configuring the object changes what the registry reports: status 0 before, and the new value after an accepted configuration. |
| `LMib.SeparateIdSpaces` | l_mibvs.py:20-21 | One id can be registered once as a sensor and once as an actuator. A second sensor registration with it is refused. |

## Left out

- The wire codec and the get/set-by-IID resolver are not part of this model. `protocol.py` holds test code, and `MIB` defines no `get_value_by_iid`, `set_value_by_iid` or Device group.
- `agent.py` is left out: the UDP socket, `handle_request` (which needs the missing codec and resolver) and uuid notification ids. Only its exception-to-code fallback is modelled.
- `udp_receiver.py` is left out: a blocking socket loop that prints.
- `utils/timestamp_utils.py` is left out: it reads the wall clock and prints. Timestamps are a `now` parameter and clock readings an opaque `real`. `FormatUtils.FormatTimestamp` models only the layout of the strings it writes.
- `utils/enums.py` is left out: its constants are unused.
- SensorDevice.Sensor.ReadValue: the status is Python floating point, int((v - min) / range * 100), which may fall one below the exact percentage. Only the bounds 0..100 and the values at the two ends of the range are stated. The model chooses any status meeting them.
- SensorDevice.Sensor.ReadValue: the random draw is the `sample` parameter, constrained to [min, max] as `random.randint` guarantees. A sensor whose min exceeds its max, where `random.randint` raises ValueError, is excluded by the precondition `minValue <= maxValue` rather than modelled as an error.
- IidUtils.ParseIid: Python `bool` passes the `isinstance(x, int)` check. Booleans are not modelled as components.
- ValueTypeUtils.GetValueTypeFromIid: the input is a list of integers. Non-integer components are not modelled.
- FormatUtils.ValidateDateFormat: only ASCII digits are digits. Python's `isdigit` and `\d` also accept other Unicode digits.
- FormatUtils.IsValidInt: only str arguments are modelled, with ASCII whitespace (`int()` skips only the space and \t \n \v \f \r, 0x09..0x0D; the separators 0x1C..0x1F that `str.isspace` also accepts make it raise) and ASCII digits. `int()` of floats, ints or None, and non-ASCII digits or spaces, are not modelled. The 4300-digit cap is the interpreter's default (`sys.set_int_max_str_digits` and interpreters without the int/str digit limit differ).
- LMib.Mib.GetAllSensors: the dictionary returned is the registry's own, so a caller mutating it mutates the registry. The model returns the map as a value.
- LMib.Mib.GetAllActuators: same aliasing as `get_all_sensors`.
- Device `id`, `type` and range fields are constants. The source never reassigns them, although Python would allow it.
