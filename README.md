# Dyson Pure Cool v2 message readers, in Dafny

This project models `libpurecoollink/dyson_pure_state_v2.py`, the part of
libpurecoollink that turns a decoded JSON message from a Dyson Pure Cool v2
purifier into a read-only state snapshot:

- two **classifiers** that look at the `msg` tag (`is_state_message`,
  `is_environmental_state_message`);
- the **field extractor** (`_get_field_value` and its private twin
  `__get_field_value`), which unwraps the protocol's `[previous, current]`
  pairs to the current value and passes bare values through;
- the **operational state** (`DysonPureCoolV2State`): fifteen short keys of
  `product-state` (`fpwr`, `fdir`, `auto`, `oscs`, `oson`, `nmod`, `rhtm`,
  `fnst`, `nmdv`, `fnsp`, `cflr`, `hflr`, `sltm`, `osal`, `osau`) stored as
  sent;
- the **environmental sensor state** (`DysonEnvironmentalSensorV2State`): nine
  keys of `data`, where `"OFF"` reads as 0 for temperature, humidity and the
  sleep timer, and `"INIT"` reads as 0 for volatile organic compounds; any
  other temperature goes through Python's `float()` and is divided by 10, and
  any other reading goes through Python's `int()`.

Files and modules:

- `wrappers.dfy` — `Wrappers`: the `Option` type.
- `numerals.dfy` — `Numerals`: Python's `int()` and `str()` on plain decimal
  numerals. `ParseInt` scans left to right; it is proved equal to the
  positional value `DigitsValue`, and `ShowInt` is proved to be its inverse.
- `json_value.dfy` — `JsonValue`: the decoded value `JValue`, the exceptions
  (`Error`), the `Result` type, subscripting with a string key, `int()` and
  `float()` on decoded values.
- `pure_state_v2.dfy` — `PureStateV2`: the classifiers, the extractor, the two
  snapshots and their constructors, and the lemmas.

Each Python constructor is one Dafny function from the decoded payload to
`Result<snapshot>`. It returns `Err` with the exception Python would raise
first, or `Ok` with a complete snapshot; there is no partial object. The
fifteen assignments of one constructor, and the eight integer readings of the
other, are modelled as a key table read in source order by `ReadAll`, so the
first failing field decides the error, as in Python. Snapshots are Dafny
datatypes: their destructors (`fanPower`, `temperature`, ...) are the
read-only properties, and nothing can change them after construction.

Each constructor has a partner, a message builder, with a round-trip lemma.
`StateChangeMessage` builds a STATE-CHANGE message from two snapshots, and
reading it gives back the "after" snapshot. `CurrentStateMessage` builds a
CURRENT-STATE message with bare values. `SensorDataMessage` builds a sensor
message whose values are decimal strings, and reading it gives back the
readings, with the temperature divided by 10.

Behaviour of the code worth noting:

- A payload that is not an object, or a `product-state` or `data` that is not
  an object, raises `TypeError` (`NotSubscriptable`).
- A list shorter than two raises `IndexError` (`ShortList`).
- A list longer than two also yields its element 1. The protocol sends
  two-element `[previous, current]` lists.

## Model

| member | source | states |
|---|---|---|
| `PureStateV2.IsStateMessage` | libpurecoollink/dyson_pure_state_v2.py:12-15 | succeeds exactly when the payload is an object with `msg`; then true iff the tag is `"CURRENT-STATE"` or `"STATE-CHANGE"`; a missing `msg` is `KeyError`, a non-object `TypeError`, never false |
| `PureStateV2.IsEnvironmentalStateMessage` | libpurecoollink/dyson_pure_state_v2.py:144-148 | same failure cases; true iff the tag is `"ENVIRONMENTAL-CURRENT-SENSOR-DATA"` |
| `PureStateV2.ClassifiersExclusive` | libpurecoollink/dyson_pure_state_v2.py:145-148 | no payload satisfies both classifiers, and both fail on exactly the same payloads |
| `PureStateV2.GetFieldValue` | libpurecoollink/dyson_pure_state_v2.py:17-21 | succeeds iff the key is present and, when its value is a list, the list has at least two elements; a list yields element 1, anything else is returned unchanged; otherwise `TypeError`, `KeyError` or `IndexError` |
| `PureStateV2.TransitionYieldsCurrent` | libpurecoollink/dyson_pure_state_v2.py:150-154 | a `[previous, current]` pair extracts to `current`, not `previous` |
| `PureStateV2.ScalarPassesThrough` | libpurecoollink/dyson_pure_state_v2.py:20-21 | a value that is not a list extracts to itself, the same as the pair `[v, v]` |
| `PureStateV2.ReadAll` | libpurecoollink/dyson_pure_state_v2.py:30-44 | reading fields in order succeeds iff every field reads, then gives every value in order; otherwise it fails with the error of the first failing field |
| `PureStateV2.OperationalState` | libpurecoollink/dyson_pure_state_v2.py:46-119 | the fifteen properties of the snapshot are exactly the given values, in key order |
| `PureStateV2.NewPureCoolV2State` | libpurecoollink/dyson_pure_state_v2.py:23-44 | succeeds iff `product-state` exists and all fifteen keys extract; property i is then the extracted value of key i, unconverted; otherwise it fails with the first error, in source order |
| `PureStateV2.MissingKeyFailsOperational` | libpurecoollink/dyson_pure_state_v2.py:29-44 | a `product-state` lacking any of the fifteen keys yields no snapshot |
| `PureStateV2.StateChangeRoundTrip` | libpurecoollink/dyson_pure_state_v2.py:13-44 | a STATE-CHANGE message of `[before, after]` pairs is classified as a state message, not a sensor message, and reads back as exactly the `after` snapshot |
| `PureStateV2.CurrentStateRoundTrip` | libpurecoollink/dyson_pure_state_v2.py:23-44 | a CURRENT-STATE message with bare values is classified as a state message and reads back as exactly its snapshot |
| `PureStateV2.SensorState` | libpurecoollink/dyson_pure_state_v2.py:187-230 | the snapshot's temperature and its eight integer properties are exactly the given values, in reading order |
| `PureStateV2.NewEnvironmentalSensorV2State` | libpurecoollink/dyson_pure_state_v2.py:156-185 | succeeds iff `data` exists, the temperature reads and all eight integer readings read; the properties are then those readings; otherwise it fails with the first error, in the order `data`, temperature, then the readings |
| `PureStateV2.Normalize` | libpurecoollink/dyson_pure_state_v2.py:168-185 | the sentinel test before `int()`: it succeeds iff the value is the reading's sentinel or `int()` accepts it, and every failure and every non-zero result is `int()`'s |
| `PureStateV2.ReadReading` | libpurecoollink/dyson_pure_state_v2.py:168-185 | one integer reading fails with the extractor's error when its field does not extract, and otherwise succeeds exactly when the sentinel test and `int()` do; `ReadingValue` gives its value case by case |
| `PureStateV2.ReadTemperature` | libpurecoollink/dyson_pure_state_v2.py:164-166 | the temperature fails with the extractor's error when `tact` does not extract; a non-zero result is `float()` of the field divided by 10; `TemperatureValue` gives its value case by case |
| `PureStateV2.ReadingValue` | libpurecoollink/dyson_pure_state_v2.py:168-185 | one integer reading: its sentinel gives 0, a numeral its value, an integer itself, a boolean 0 or 1, another string `ValueError`, null, a list or an object `TypeError` |
| `PureStateV2.TemperatureValue` | libpurecoollink/dyson_pure_state_v2.py:164-166 | `"OFF"` gives 0; a numeral, integer or boolean n gives exactly n / 10; any other string is `ValueError`; null, a list or an object is `TypeError` |
| `PureStateV2.SentinelReadsAsZero` | libpurecoollink/dyson_pure_state_v2.py:168-185 | in a built snapshot, humidity and sleep timer are 0 when their field held `"OFF"`, and volatile organic compounds is 0 when its field held `"INIT"` |
| `PureStateV2.OffFailsWithoutOffSentinel` | libpurecoollink/dyson_pure_state_v2.py:171-182 | `"OFF"` in pm25, pm10, va10, noxl, p25r or p10r makes the whole construction fail |
| `PureStateV2.TemperatureOffIsZero` | libpurecoollink/dyson_pure_state_v2.py:164-165 | in a built snapshot, a temperature field holding `"OFF"` gives temperature 0 |
| `PureStateV2.MissingKeyFailsSensor` | libpurecoollink/dyson_pure_state_v2.py:161-185 | a `data` object lacking any of the nine keys yields no snapshot |
| `PureStateV2.SensorDataMessageClassified` | libpurecoollink/dyson_pure_state_v2.py:145-148 | a sensor-data message is classified as a sensor message and not as a state message |
| `PureStateV2.SensorDataRoundTrip` | libpurecoollink/dyson_pure_state_v2.py:161-185 | a sensor message carrying decimal strings reads back as its readings, the temperature being the tenths divided by 10 |
| `PureStateV2.TemperatureExample` | libpurecoollink/dyson_pure_state_v2.py:164-166 | `"2960"` gives temperature 296.0 |
| `PureStateV2.OffSentinelExamples` | libpurecoollink/dyson_pure_state_v2.py:168-169 | humidity `"OFF"` gives 0 and `"45"` gives 45 |
| `PureStateV2.InitSentinelExamples` | libpurecoollink/dyson_pure_state_v2.py:174-177 | volatile organic compounds `"INIT"` gives 0, `"3"` gives 3, and `"OFF"` is a `ValueError` |
| `PureStateV2.PlainReadingExamples` | libpurecoollink/dyson_pure_state_v2.py:171-172 | a reading without a sentinel accepts `"0004"` as 4 and rejects `"OFF"` |
| `JsonValue.Subscript` | libpurecoollink/dyson_pure_state_v2.py:15 | `v[key]` is `TypeError` on anything but an object, `KeyError` for an absent key, otherwise the key's value (also the subscripts at lines 29, 148 and 162) |
| `JsonValue.IntOf` | libpurecoollink/dyson_pure_state_v2.py:169 | `int()` succeeds exactly on integers, booleans and numeral strings; an integer gives itself, a boolean 0 or 1, a numeral its value; other strings raise `ValueError`, null, lists and objects `TypeError` |
| `JsonValue.FloatOf` | libpurecoollink/dyson_pure_state_v2.py:165-166 | `float()` succeeds on the same values as `int()`, with the same number as a real and the same error otherwise |
| `Numerals.ParseInt` | libpurecoollink/dyson_pure_state_v2.py:171-172 | the string parser succeeds exactly on an optional sign followed by digits, and then gives the numeral's positional value |

## Left out

- Decoding the payload string (`json.loads`): the model starts from the
  decoded value `JValue`, so decode errors are not modelled.
- JSON numbers with a fraction or an exponent: `JValue` holds integers only.
- `__repr__` (lines 121-138 and 232-244): it relies on `printable_fields` from
  `libpurecoollink/utils.py`, which is not part of this model, and on Python
  string formatting.
- Floating point: the temperature is an exact `real`, with no IEEE rounding.
  When the field is `"OFF"`, Python stores the integer `0` and the model
  stores `0.0`. The range of `float()` is not modelled either: for a JSON
  integer temperature beyond the float range Python raises `OverflowError`,
  where the model returns a value.
- JsonValue.FloatOf: weaker than Python's `float()`. It accepts only what
  `int()` accepts, so strings such as `"29.6"`, `"1e3"`, `"inf"` or `"nan"`
  are rejected here but accepted by Python.
- Numerals.ParseInt: does not model the rest of Python's `int()`:
  surrounding whitespace, `_` separators and non-ASCII digits.
- The MQTT transport, connection, authentication and command publishing that
  deliver these payloads or consume the snapshots.
