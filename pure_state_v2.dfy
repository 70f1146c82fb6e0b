/**
 * The Dyson Pure Cool v2 message readers: two classifiers on the message tag,
 * the "[previous, current]" field extractor, and the two read-only state
 * snapshots (operational state from "product-state", environmental sensor
 * state from "data"), each built all at once or not at all.
 */
module PureStateV2 {
  import opened Wrappers
  import opened Numerals
  import opened JsonValue

  // ---------------------------------------------------------------------------
  // Message classifiers
  // ---------------------------------------------------------------------------

  const CurrentStateTag := "CURRENT-STATE"
  const StateChangeTag := "STATE-CHANGE"
  const SensorDataTag := "ENVIRONMENTAL-CURRENT-SENSOR-DATA"

  /** is_state_message: the tag under "msg" is one of the two operational-state tags. */
  function IsStateMessage(payload: JValue): (r: Result<bool>)
    ensures r.Ok? <==> payload.JObj? && "msg" in payload.fields
    ensures r.Ok? ==> (r.value <==> payload.fields["msg"] in {JStr(CurrentStateTag), JStr(StateChangeTag)})
    ensures r.Err? ==> r.error == (if payload.JObj? then MissingKey("msg") else NotSubscriptable)
  {
    var tag :- Subscript(payload, "msg");
    Ok(tag in [JStr(CurrentStateTag), JStr(StateChangeTag)])
  }

  /** is_environmental_state_message: the tag under "msg" is the sensor-data tag. */
  function IsEnvironmentalStateMessage(payload: JValue): (r: Result<bool>)
    ensures r.Ok? <==> payload.JObj? && "msg" in payload.fields
    ensures r.Ok? ==> (r.value <==> payload.fields["msg"] == JStr(SensorDataTag))
    ensures r.Err? ==> r.error == (if payload.JObj? then MissingKey("msg") else NotSubscriptable)
  {
    var tag :- Subscript(payload, "msg");
    Ok(tag in [JStr(SensorDataTag)])
  }

  /** No message is accepted by both classifiers, and both fail on the same payloads. */
  lemma ClassifiersExclusive(payload: JValue)
    ensures !(IsStateMessage(payload) == Ok(true) && IsEnvironmentalStateMessage(payload) == Ok(true))
    ensures IsStateMessage(payload).Err? <==> IsEnvironmentalStateMessage(payload).Err?
  {
  }

  // ---------------------------------------------------------------------------
  // Field extraction
  // ---------------------------------------------------------------------------

  /**
   * _get_field_value: the value under key, unwrapped to its element 1 when it
   * is a list ("[previous, current]"), passed through otherwise.
   */
  function GetFieldValue(state: JValue, key: string): (r: Result<JValue>)
    ensures r.Ok? <==> state.JObj? && key in state.fields
                       && (state.fields[key].JList? ==> |state.fields[key].items| >= 2)
    ensures r.Ok? && state.fields[key].JList? ==> r.value == state.fields[key].items[1]
    ensures r.Ok? && !state.fields[key].JList? ==> r.value == state.fields[key]
    ensures r.Err? ==> r.error == (if !state.JObj? then NotSubscriptable
                                   else if key !in state.fields then MissingKey(key)
                                   else ShortList(|state.fields[key].items|))
  {
    var v :- Subscript(state, key);
    if v.JList? then
      if |v.items| >= 2 then Ok(v.items[1]) else Err(ShortList(|v.items|))
    else
      Ok(v)
  }

  /** A "[previous, current]" pair yields the current value, never the previous one. */
  lemma TransitionYieldsCurrent(fields: map<string, JValue>, key: string, previous: JValue, current: JValue)
    ensures GetFieldValue(JObj(fields[key := JList([previous, current])]), key) == Ok(current)
  {
  }

  /** A value that is not a list is returned unchanged, so extracting it twice changes nothing. */
  lemma ScalarPassesThrough(fields: map<string, JValue>, key: string, v: JValue)
    requires !v.JList?
    ensures GetFieldValue(JObj(fields[key := v]), key) == Ok(v)
    ensures GetFieldValue(JObj(fields[key := JList([v, v])]), key) == GetFieldValue(JObj(fields[key := v]), key)
  {
  }

  /**
   * Reads every field in order with read, stopping at the first failure,
   * as a run of assignments in a constructor does.
   */
  function ReadAll<K, T>(fields: seq<K>, read: K -> Result<T>): (r: Result<seq<T>>)
    ensures r.Ok? <==> forall i :: 0 <= i < |fields| ==> read(fields[i]).Ok?
    ensures r.Ok? ==> |r.value| == |fields|
                      && forall i :: 0 <= i < |fields| ==> r.value[i] == read(fields[i]).value
    ensures r.Err? ==> FirstFailure(fields, read, r.error)
    decreases |fields|
  {
    if fields == [] then Ok([])
    else
      var first :- read(fields[0]);
      var rest :- ReadAll(fields[1..], read);
      assert forall i :: 1 <= i < |fields| ==> fields[i] == fields[1..][i - 1];
      Ok([first] + rest)
  }

  /** The extractor of one decoded object, as a function of the key. */
  function FieldsOf(state: JValue): string -> Result<JValue> {
    key => GetFieldValue(state, key)
  }

  /** Field i is the first one whose read fails, and it fails with e. */
  ghost predicate FirstFailure<K, T>(fields: seq<K>, read: K -> Result<T>, e: Error) {
    exists i :: 0 <= i < |fields| && read(fields[i]) == Err(e)
                && forall j :: 0 <= j < i ==> read(fields[j]).Ok?
  }

  // ---------------------------------------------------------------------------
  // Operational state (DysonPureCoolV2State)
  // ---------------------------------------------------------------------------

  /** The protocol keys, in the order the constructor reads them. */
  const OperationalKeys: seq<string> :=
    ["fpwr", "fdir", "auto", "oscs", "oson", "nmod", "rhtm", "fnst",
     "nmdv", "fnsp", "cflr", "hflr", "sltm", "osal", "osau"]

  /** A read-only snapshot; every property holds the extracted value as sent. */
  datatype PureCoolV2State = PureCoolV2State(
    fanPower: JValue,
    frontDirection: JValue,
    autoMode: JValue,
    oscillationStatus: JValue,
    oscillation: JValue,
    nightMode: JValue,
    continuousMonitoring: JValue,
    fanState: JValue,
    nightModeSpeed: JValue,
    speed: JValue,
    carbonFilterState: JValue,
    hepaFilterState: JValue,
    sleepTimer: JValue,
    oscillationAngleLow: JValue,
    oscillationAngleHigh: JValue)

  /** The properties, listed in the order of OperationalKeys. */
  function OperationalValues(st: PureCoolV2State): (vs: seq<JValue>)
    ensures |vs| == |OperationalKeys|
  {
    [st.fanPower, st.frontDirection, st.autoMode, st.oscillationStatus, st.oscillation,
     st.nightMode, st.continuousMonitoring, st.fanState, st.nightModeSpeed, st.speed,
     st.carbonFilterState, st.hepaFilterState, st.sleepTimer, st.oscillationAngleLow,
     st.oscillationAngleHigh]
  }

  /** The snapshot whose properties, in key order, are vs. */
  function OperationalState(vs: seq<JValue>): (st: PureCoolV2State)
    requires |vs| == |OperationalKeys|
    ensures OperationalValues(st) == vs
  {
    PureCoolV2State(vs[0], vs[1], vs[2], vs[3], vs[4], vs[5], vs[6], vs[7],
                    vs[8], vs[9], vs[10], vs[11], vs[12], vs[13], vs[14])
  }

  function ProductState(payload: JValue): Result<JValue> {
    Subscript(payload, "product-state")
  }

  /**
   * DysonPureCoolV2State(payload): succeeds exactly when "product-state" is
   * present and every key extracts; property i is then the extracted value of
   * key i, with no conversion. Otherwise it fails with the first error met.
   */
  function NewPureCoolV2State(payload: JValue): (r: Result<PureCoolV2State>)
    ensures r.Ok? <==> ProductState(payload).Ok? && AllExtract(ProductState(payload).value, OperationalKeys)
    ensures r.Ok? ==> ExtractedAs(ProductState(payload).value, OperationalKeys, OperationalValues(r.value))
    ensures r.Err? ==> if ProductState(payload).Err? then r.error == ProductState(payload).error
                       else FirstFailure(OperationalKeys, FieldsOf(ProductState(payload).value), r.error)
  {
    var state :- ProductState(payload);
    var vs :- ReadAll(OperationalKeys, FieldsOf(state));
    Ok(OperationalState(vs))
  }

  /** Every key extracts from state. */
  predicate AllExtract(state: JValue, keys: seq<string>) {
    forall i :: 0 <= i < |keys| ==> GetFieldValue(state, keys[i]).Ok?
  }

  /** vs holds, in order, the extracted value of each key. */
  predicate ExtractedAs(state: JValue, keys: seq<string>, vs: seq<JValue>) {
    |vs| == |keys| && forall i :: 0 <= i < |keys| ==> GetFieldValue(state, keys[i]) == Ok(vs[i])
  }

  /** A payload whose "product-state" lacks one of the keys yields no snapshot. */
  lemma MissingKeyFailsOperational(payload: JValue, i: nat)
    requires ProductState(payload).Ok? && ProductState(payload).value.JObj?
    requires i < |OperationalKeys| && OperationalKeys[i] !in ProductState(payload).value.fields
    ensures NewPureCoolV2State(payload).Err?
  {
  }

  // Messages a device sends, built from snapshots: the partners of the constructor.

  /** The object mapping keys[i] to vals[i]. */
  function FieldMap(keys: seq<string>, vals: seq<JValue>): map<string, JValue>
    requires |keys| == |vals|
  {
    if keys == [] then map[] else FieldMap(keys[1..], vals[1..])[keys[0] := vals[0]]
  }

  predicate Distinct(keys: seq<string>) {
    forall i, j :: 0 <= i < j < |keys| ==> keys[i] != keys[j]
  }

  lemma {:induction false} FieldMapAt(keys: seq<string>, vals: seq<JValue>, i: nat)
    requires |keys| == |vals| && Distinct(keys) && i < |keys|
    ensures keys[i] in FieldMap(keys, vals) && FieldMap(keys, vals)[keys[i]] == vals[i]
    decreases |keys|
  {
    if i > 0 {
      FieldMapAt(keys[1..], vals[1..], i - 1);
    }
  }

  lemma OperationalKeysDistinct()
    ensures Distinct(OperationalKeys)
  {
  }

  /** "[before, after]" for every property. */
  function Transitions(before: seq<JValue>, after: seq<JValue>): (ts: seq<JValue>)
    requires |before| == |after|
    ensures |ts| == |after|
  {
    seq(|after|, i requires 0 <= i < |after| => JList([before[i], after[i]]))
  }

  /** A STATE-CHANGE message reporting every property moving from before to after. */
  function StateChangeMessage(before: PureCoolV2State, after: PureCoolV2State): JValue {
    JObj(map[
      "msg" := JStr(StateChangeTag),
      "product-state" := JObj(FieldMap(OperationalKeys,
                                       Transitions(OperationalValues(before), OperationalValues(after))))])
  }

  /** A CURRENT-STATE message reporting every property as a bare value. */
  function CurrentStateMessage(st: PureCoolV2State): JValue {
    JObj(map[
      "msg" := JStr(CurrentStateTag),
      "product-state" := JObj(FieldMap(OperationalKeys, OperationalValues(st)))])
  }

  /** Every key of a map of "[before, after]" pairs extracts to its "after" value. */
  lemma TransitionsExtract(keys: seq<string>, before: seq<JValue>, after: seq<JValue>)
    requires Distinct(keys) && |keys| == |before| == |after|
    ensures ExtractedAs(JObj(FieldMap(keys, Transitions(before, after))), keys, after)
  {
    forall i | 0 <= i < |keys|
      ensures GetFieldValue(JObj(FieldMap(keys, Transitions(before, after))), keys[i]) == Ok(after[i])
    {
      FieldMapAt(keys, Transitions(before, after), i);
    }
  }

  /** Every key of a map of bare (non-list) values extracts to that value. */
  lemma ScalarsExtract(keys: seq<string>, vs: seq<JValue>)
    requires Distinct(keys) && |keys| == |vs|
    requires forall i :: 0 <= i < |vs| ==> !vs[i].JList?
    ensures ExtractedAs(JObj(FieldMap(keys, vs)), keys, vs)
  {
  }

  /** A product-state from which every key extracts yields the snapshot of those values. */
  lemma OperationalFromExtracted(payload: JValue, st: PureCoolV2State)
    requires ProductState(payload).Ok?
    requires ExtractedAs(ProductState(payload).value, OperationalKeys, OperationalValues(st))
    ensures NewPureCoolV2State(payload) == Ok(st)
  {
  }

  /** Reading a STATE-CHANGE message gives back the "after" snapshot exactly. */
  lemma StateChangeRoundTrip(before: PureCoolV2State, after: PureCoolV2State)
    ensures IsStateMessage(StateChangeMessage(before, after)) == Ok(true)
    ensures IsEnvironmentalStateMessage(StateChangeMessage(before, after)) == Ok(false)
    ensures NewPureCoolV2State(StateChangeMessage(before, after)) == Ok(after)
  {
    var m := StateChangeMessage(before, after);
    OperationalKeysDistinct();
    TransitionsExtract(OperationalKeys, OperationalValues(before), OperationalValues(after));
    OperationalFromExtracted(m, after);
  }

  /** Reading a CURRENT-STATE message whose values are not lists gives back the snapshot. */
  lemma CurrentStateRoundTrip(st: PureCoolV2State)
    requires forall i :: 0 <= i < |OperationalKeys| ==> !OperationalValues(st)[i].JList?
    ensures IsStateMessage(CurrentStateMessage(st)) == Ok(true)
    ensures NewPureCoolV2State(CurrentStateMessage(st)) == Ok(st)
  {
    OperationalKeysDistinct();
    ScalarsExtract(OperationalKeys, OperationalValues(st));
    OperationalFromExtracted(CurrentStateMessage(st), st);
  }

  // ---------------------------------------------------------------------------
  // Environmental sensor state (DysonEnvironmentalSensorV2State)
  // ---------------------------------------------------------------------------

  const TemperatureKey := "tact"

  /** One integer sensor reading: its key, and the string that stands for 0, if any. */
  datatype Reading = Reading(key: string, zero: Option<string>)

  /** The integer readings, in the order the constructor reads them (after the temperature). */
  const SensorReadings: seq<Reading> := [
    Reading("hact", Some("OFF")),
    Reading("pm25", None),
    Reading("pm10", None),
    Reading("va10", Some("INIT")),
    Reading("noxl", None),
    Reading("p25r", None),
    Reading("p10r", None),
    Reading("sltm", Some("OFF"))]

  /** A read-only snapshot of the sensor values, already normalised. */
  datatype EnvironmentalSensorV2State = EnvironmentalSensorV2State(
    temperature: real,
    humidity: int,
    particulateMatter25: int,
    particulateMatter10: int,
    volatileOrganicCompounds: int,
    nitrogenDioxide: int,
    p25r: int,
    p10r: int,
    sleepTimer: int)

  /** The integer properties, listed in the order of SensorReadings. */
  function SensorValues(st: EnvironmentalSensorV2State): (vs: seq<int>)
    ensures |vs| == |SensorReadings|
  {
    [st.humidity, st.particulateMatter25, st.particulateMatter10, st.volatileOrganicCompounds,
     st.nitrogenDioxide, st.p25r, st.p10r, st.sleepTimer]
  }

  /** The snapshot with this temperature whose integer properties, in reading order, are vs. */
  function SensorState(temperature: real, vs: seq<int>): (st: EnvironmentalSensorV2State)
    requires |vs| == |SensorReadings|
    ensures st.temperature == temperature && SensorValues(st) == vs
  {
    EnvironmentalSensorV2State(temperature, vs[0], vs[1], vs[2], vs[3], vs[4], vs[5], vs[6], vs[7])
  }

  lemma SensorValuesInjective(a: EnvironmentalSensorV2State, b: EnvironmentalSensorV2State)
    requires a.temperature == b.temperature && SensorValues(a) == SensorValues(b)
    ensures a == b
  {
  }

  /**
   * The sentinel test, then int(): the sentinel string reads as 0, anything
   * else through int(). Every failure and every non-zero value is int()'s.
   */
  function Normalize(v: JValue, zero: Option<string>): (r: Result<int>)
    ensures r.Ok? <==> (zero.Some? && v == JStr(zero.value)) || IntOf(v).Ok?
    ensures r.Err? || r.value != 0 ==> r == IntOf(v)
  {
    if zero.Some? && v == JStr(zero.value) then Ok(0) else IntOf(v)
  }

  /** One integer reading: extract its field, then normalise it; a failed extraction fails the reading. */
  function ReadReading(data: JValue, rd: Reading): (r: Result<int>)
    ensures GetFieldValue(data, rd.key).Err? ==> r == Err(GetFieldValue(data, rd.key).error)
    ensures GetFieldValue(data, rd.key).Ok? ==> (r.Ok? <==> Normalize(GetFieldValue(data, rd.key).value, rd.zero).Ok?)
  {
    var v :- GetFieldValue(data, rd.key);
    Normalize(v, rd.zero)
  }

  function ReadingsOf(data: JValue): Reading -> Result<int> {
    rd => ReadReading(data, rd)
  }

  /**
   * The temperature: "OFF" reads as 0, anything else through float() and
   * divided by 10; a failed extraction fails the reading.
   */
  function ReadTemperature(data: JValue): (r: Result<real>)
    ensures GetFieldValue(data, TemperatureKey).Err? ==> r == Err(GetFieldValue(data, TemperatureKey).error)
    ensures r.Ok? && r.value != 0.0 ==> FloatOf(GetFieldValue(data, TemperatureKey).value) == Ok(r.value * 10.0)
  {
    var v :- GetFieldValue(data, TemperatureKey);
    if v == JStr("OFF") then Ok(0.0)
    else
      var t :- FloatOf(v);
      Ok(t / 10.0)
  }

  function SensorData(payload: JValue): Result<JValue> {
    Subscript(payload, "data")
  }

  /** Every reading succeeds on data. */
  predicate AllRead(data: JValue, rds: seq<Reading>) {
    forall i :: 0 <= i < |rds| ==> ReadReading(data, rds[i]).Ok?
  }

  /** vs holds, in order, the value of each reading. */
  predicate ReadAs(data: JValue, rds: seq<Reading>, vs: seq<int>) {
    |vs| == |rds| && forall i :: 0 <= i < |rds| ==> ReadReading(data, rds[i]) == Ok(vs[i])
  }

  /**
   * DysonEnvironmentalSensorV2State(payload): succeeds exactly when "data" is
   * present, the temperature reads and every integer reading reads; the
   * properties are then those readings. Otherwise it fails with the first
   * error met, in the order temperature, then SensorReadings.
   */
  function NewEnvironmentalSensorV2State(payload: JValue): (r: Result<EnvironmentalSensorV2State>)
    ensures r.Ok? <==> SensorData(payload).Ok? && ReadTemperature(SensorData(payload).value).Ok?
                       && AllRead(SensorData(payload).value, SensorReadings)
    ensures r.Ok? ==> ReadTemperature(SensorData(payload).value) == Ok(r.value.temperature)
                      && ReadAs(SensorData(payload).value, SensorReadings, SensorValues(r.value))
    ensures r.Err? ==> if SensorData(payload).Err? then r.error == SensorData(payload).error
                       else if ReadTemperature(SensorData(payload).value).Err?
                       then r.error == ReadTemperature(SensorData(payload).value).error
                       else FirstFailure(SensorReadings, ReadingsOf(SensorData(payload).value), r.error)
  {
    var data :- SensorData(payload);
    var temperature :- ReadTemperature(data);
    var vs :- ReadAll(SensorReadings, ReadingsOf(data));
    Ok(SensorState(temperature, vs))
  }

  /**
   * What one integer reading gives for each kind of extracted value: its
   * sentinel gives 0, a numeral its value, an integer itself, any other
   * string a ValueError, and null, a list or an object a TypeError.
   */
  lemma ReadingValue(data: JValue, rd: Reading, v: JValue)
    requires rd in SensorReadings && GetFieldValue(data, rd.key) == Ok(v)
    ensures rd.zero.Some? && v == JStr(rd.zero.value) ==> ReadReading(data, rd) == Ok(0)
    ensures v.JStr? && IsNumeral(v.s) ==> ReadReading(data, rd) == Ok(NumeralValue(v.s))
    ensures v.JStr? && !IsNumeral(v.s) && rd.zero != Some(v.s) ==> ReadReading(data, rd) == Err(BadLiteral(v.s))
    ensures v.JInt? ==> ReadReading(data, rd) == Ok(v.i)
    ensures v.JBool? ==> ReadReading(data, rd) == Ok(if v.b then 1 else 0)
    ensures v.JNull? || v.JList? || v.JObj? ==> ReadReading(data, rd) == Err(NotNumeric)
  {
  }

  /**
   * What the temperature reading gives: "OFF" gives 0, a numeral, integer or
   * boolean n gives n / 10, any other string a ValueError, and null, a list
   * or an object a TypeError.
   */
  lemma TemperatureValue(data: JValue, v: JValue)
    requires GetFieldValue(data, TemperatureKey) == Ok(v)
    ensures v == JStr("OFF") ==> ReadTemperature(data) == Ok(0.0)
    ensures v.JStr? && IsNumeral(v.s) ==> ReadTemperature(data) == Ok(NumeralValue(v.s) as real / 10.0)
    ensures v.JStr? && !IsNumeral(v.s) && v.s != "OFF" ==> ReadTemperature(data) == Err(BadLiteral(v.s))
    ensures v.JInt? ==> ReadTemperature(data) == Ok(v.i as real / 10.0)
    ensures v.JBool? ==> ReadTemperature(data) == Ok(if v.b then 0.1 else 0.0)
    ensures v.JNull? || v.JList? || v.JObj? ==> ReadTemperature(data) == Err(NotNumeric)
  {
  }

  /** In a built snapshot, a reading whose field held its sentinel is 0. */
  lemma SentinelReadsAsZero(payload: JValue, i: nat)
    requires NewEnvironmentalSensorV2State(payload).Ok? && i < |SensorReadings|
    requires SensorReadings[i].zero.Some?
    requires GetFieldValue(SensorData(payload).value, SensorReadings[i].key) == Ok(JStr(SensorReadings[i].zero.value))
    ensures SensorValues(NewEnvironmentalSensorV2State(payload).value)[i] == 0
  {
  }

  /**
   * "OFF" is a sentinel only for humidity and the sleep timer: in any other
   * reading it makes the whole construction fail.
   */
  lemma OffFailsWithoutOffSentinel(payload: JValue, i: nat)
    requires SensorData(payload).Ok? && i < |SensorReadings| && SensorReadings[i].zero != Some("OFF")
    requires GetFieldValue(SensorData(payload).value, SensorReadings[i].key) == Ok(JStr("OFF"))
    ensures NewEnvironmentalSensorV2State(payload).Err?
  {
  }

  /** In a built snapshot, a temperature field holding "OFF" gives temperature 0. */
  lemma TemperatureOffIsZero(payload: JValue)
    requires NewEnvironmentalSensorV2State(payload).Ok?
    requires GetFieldValue(SensorData(payload).value, TemperatureKey) == Ok(JStr("OFF"))
    ensures NewEnvironmentalSensorV2State(payload).value.temperature == 0.0
  {
  }

  /** A payload whose "data" lacks one of the nine keys yields no snapshot. */
  lemma MissingKeyFailsSensor(payload: JValue, key: string)
    requires SensorData(payload).Ok? && SensorData(payload).value.JObj?
    requires key in SensorKeys && key !in SensorData(payload).value.fields
    ensures NewEnvironmentalSensorV2State(payload).Err?
  {
  }

  // Messages a sensor sends, built from readings: the partner of the constructor.

  /** The keys of the data object, in reading order. */
  const SensorKeys: seq<string> := ["tact", "hact", "pm25", "pm10", "va10", "noxl", "p25r", "p10r", "sltm"]

  lemma SensorKeysDistinct()
    ensures Distinct(SensorKeys)
    ensures SensorKeys[0] == TemperatureKey
    ensures forall i :: 0 <= i < |SensorReadings| ==> SensorKeys[i + 1] == SensorReadings[i].key
  {
  }

  /** Each integer as the decimal string a device sends. */
  function Shown(xs: seq<int>): (vs: seq<JValue>)
    ensures |vs| == |xs|
    ensures forall i :: 0 <= i < |xs| ==> vs[i] == JStr(ShowInt(xs[i]))
  {
    seq(|xs|, i requires 0 <= i < |xs| => JStr(ShowInt(xs[i])))
  }

  /**
   * An ENVIRONMENTAL-CURRENT-SENSOR-DATA message carrying the temperature in
   * tenths and the integer readings vs, every value as a decimal string.
   */
  function SensorDataMessage(tenths: int, vs: seq<int>): JValue
    requires |vs| == |SensorReadings|
  {
    JObj(map[
      "msg" := JStr(SensorDataTag),
      "data" := JObj(FieldMap(SensorKeys, Shown([tenths] + vs)))])
  }

  /** A data object whose readings all succeed yields the snapshot of those readings. */
  lemma SensorFromReadings(payload: JValue, temperature: real, vs: seq<int>)
    requires |vs| == |SensorReadings| && SensorData(payload).Ok?
    requires ReadTemperature(SensorData(payload).value) == Ok(temperature)
    requires ReadAs(SensorData(payload).value, SensorReadings, vs)
    ensures NewEnvironmentalSensorV2State(payload) == Ok(SensorState(temperature, vs))
  {
    var r := NewEnvironmentalSensorV2State(payload);
    assert SensorValues(r.value) == vs;
    SensorValuesInjective(r.value, SensorState(temperature, vs));
  }

  /** The data object of a sensor message reads back as the integers it was built from. */
  lemma ShownReadsBack(tenths: int, vs: seq<int>)
    requires |vs| == |SensorReadings|
    ensures ReadTemperature(JObj(FieldMap(SensorKeys, Shown([tenths] + vs)))) == Ok(tenths as real / 10.0)
    ensures ReadAs(JObj(FieldMap(SensorKeys, Shown([tenths] + vs))), SensorReadings, vs)
  {
    var xs := [tenths] + vs;
    var data := JObj(FieldMap(SensorKeys, Shown(xs)));
    SensorKeysDistinct();
    ScalarsExtract(SensorKeys, Shown(xs));
    assert GetFieldValue(data, TemperatureKey) == Ok(JStr(ShowInt(tenths)));
    ParseShowInt(tenths);
    TemperatureValue(data, JStr(ShowInt(tenths)));
    forall i | 0 <= i < |SensorReadings|
      ensures ReadReading(data, SensorReadings[i]) == Ok(vs[i])
    {
      assert xs[i + 1] == vs[i];
      assert GetFieldValue(data, SensorKeys[i + 1]) == Ok(JStr(ShowInt(vs[i])));
      ParseShowInt(vs[i]);
      ReadingValue(data, SensorReadings[i], JStr(ShowInt(vs[i])));
    }
  }

  /** A sensor message is recognised as one, and not as an operational-state message. */
  lemma SensorDataMessageClassified(tenths: int, vs: seq<int>)
    requires |vs| == |SensorReadings|
    ensures IsEnvironmentalStateMessage(SensorDataMessage(tenths, vs)) == Ok(true)
    ensures IsStateMessage(SensorDataMessage(tenths, vs)) == Ok(false)
  {
  }

  /** Reading a sensor message gives back its readings, the temperature scaled down by 10. */
  lemma SensorDataRoundTrip(tenths: int, vs: seq<int>)
    requires |vs| == |SensorReadings|
    ensures NewEnvironmentalSensorV2State(SensorDataMessage(tenths, vs))
            == Ok(SensorState(tenths as real / 10.0, vs))
  {
    var m := SensorDataMessage(tenths, vs);
    assert SensorData(m) == Ok(JObj(FieldMap(SensorKeys, Shown([tenths] + vs))));
    ShownReadsBack(tenths, vs);
    SensorFromReadings(m, tenths as real / 10.0, vs);
  }

  /** The worked temperature of the sensor protocol: "2960" tenths is 296.0 K. */
  lemma TemperatureExample(data: JValue)
    requires GetFieldValue(data, TemperatureKey) == Ok(JStr("2960"))
    ensures ReadTemperature(data) == Ok(296.0)
  {
  }

  /** Humidity and sleep timer: "OFF" reads as 0, a numeral as its value. */
  lemma OffSentinelExamples()
    ensures Normalize(JStr("OFF"), Some("OFF")) == Ok(0)
    ensures Normalize(JStr("45"), Some("OFF")) == Ok(45)
  {
  }

  /** Volatile organic compounds: "INIT" reads as 0, a numeral as its value, "OFF" is a ValueError. */
  lemma InitSentinelExamples()
    ensures Normalize(JStr("INIT"), Some("INIT")) == Ok(0)
    ensures Normalize(JStr("3"), Some("INIT")) == Ok(3)
    ensures Normalize(JStr("OFF"), Some("INIT")) == Err(BadLiteral("OFF"))
  {
  }

  /** Readings without a sentinel accept leading zeros and reject "OFF". */
  lemma PlainReadingExamples()
    ensures Normalize(JStr("0004"), None) == Ok(4)
    ensures Normalize(JStr("OFF"), None) == Err(BadLiteral("OFF"))
  {
  }
}
