/**
 * The topic transformer of main.rs (`get_topic_from_actuator_topic`): given the
 * report of a physical actuator and one connection edge (logical topic name and
 * uuid, channel number), compute the logical topic's new value from its stored
 * value, or report that nothing in this report concerns that topic.
 *
 * The rule is chosen by the class of the LOGICAL topic; each rule assigns a
 * fixed set of fields (`WrittenFields`) and leaves every other field alone.
 */
module Transformer {
  import opened Wrappers
  import opened JsonValue
  import opened DomoCache

  datatype TransformError =
    | TopicMissing    // the logical topic is not in the cache
    | NotUpdate       // the report does not carry the property this topic needs
    | BadRgbwStatus   // `rgbw_status` is not a string or does not parse

  /** The logical device classes the transformer distinguishes. */
  datatype DeviceClass =
    | PowerEnergySensor  // domo_power_energy_sensor
    | LightDimmable      // domo_light_dimmable
    | RgbwLight          // domo_rgbw_light
    | Relay              // domo_light, domo_siren, domo_switch, domo_fan_coil
    | FloorValve         // domo_floor_valve
    | Shutter            // domo_roller_shutter, domo_garage_gate
    | InputSensor        // domo_pir_sensor, domo_radar_sensor, domo_button, domo_bistable_button
    | ContactSensor      // domo_window_sensor, domo_door_sensor
    | Unhandled          // every other topic name

  function ClassOf(name: string): DeviceClass
  {
    if name == "domo_power_energy_sensor" then PowerEnergySensor
    else if name == "domo_light_dimmable" then LightDimmable
    else if name == "domo_rgbw_light" then RgbwLight
    else if name == "domo_light" || name == "domo_siren" || name == "domo_switch" || name == "domo_fan_coil" then Relay
    else if name == "domo_floor_valve" then FloorValve
    else if name == "domo_roller_shutter" || name == "domo_garage_gate" then Shutter
    else if name == "domo_pir_sensor" || name == "domo_radar_sensor" || name == "domo_button"
         || name == "domo_bistable_button" then InputSensor
    else if name == "domo_window_sensor" || name == "domo_door_sensor" then ContactSensor
    else Unhandled
  }

  // ---------------------------------------------------------------- channel numbers

  function DigitChar(d: nat): char
    requires d < 10
  {
    "0123456789"[d]
  }

  function DigitValue(c: char): nat
  {
    if '0' <= c <= '9' then (c - '0') as nat else 0
  }

  /** `u64::to_string`: the decimal digits of `n`, without leading zeros. */
  function NatToString(n: nat): (s: string)
    ensures |s| >= 1
    decreases n
  {
    if n < 10 then [DigitChar(n)] else NatToString(n / 10) + [DigitChar(n % 10)]
  }

  /** The number a string of decimal digits denotes. */
  function DecimalValue(s: string): nat
    decreases |s|
  {
    if s == [] then 0 else 10 * DecimalValue(s[..|s| - 1]) + DigitValue(s[|s| - 1])
  }

  /** Reading the decimal string back gives the channel number. */
  lemma {:induction false} NatToStringRoundTrip(n: nat)
    ensures DecimalValue(NatToString(n)) == n
    decreases n
  {
    if n >= 10 {
      var s := NatToString(n);
      assert s[..|s| - 1] == NatToString(n / 10);
      NatToStringRoundTrip(n / 10);
    }
  }

  /** Different channels are addressed by different field names. */
  lemma NatToStringInjective(m: nat, n: nat)
    requires NatToString(m) == NatToString(n)
    ensures m == n
  {
    NatToStringRoundTrip(m);
    NatToStringRoundTrip(n);
  }

  // ---------------------------------------------------------------- helpers of the rules

  /** The stored energy as `as_f64` reads it, 0.0 when absent or not a number. */
  function EnergyOf(stored: Fields): real
  {
    match AsF64(Get(stored, "energy"))
    case Some(e) => e
    case None => 0.0
  }

  /** `energy` becomes the stored total plus the reported delta. */
  function AddEnergy(stored: Fields, delta: real): Fields
  {
    stored["energy" := JFloat(EnergyOf(stored) + delta)]
  }

  /** The power sensor's reading for one channel: `power_data["channel{N}"]`. */
  function PowerReading(report: Fields, ch: string): Json
  {
    Field(Get(report, "power_data"), "channel" + ch)
  }

  /** The report's `updated_properties` array (empty when it is not an array). */
  function UpdatedProps(report: Fields): seq<Json>
  {
    var p := Get(report, "updated_properties");
    if p.JArr? then p.items else []
  }

  /** The single-channel relays, which report neither power nor energy. */
  predicate IsSingleRelay(targetName: string)
  {
    targetName == "shelly_1" || targetName == "shelly_1plus"
  }

  /**
   * The echo of `updated_properties` for a relay channel: one "power" for every
   * "power{N}" and one "energy" for every "energy{N}", in the report's order.
   */
  function RenameProps(props: seq<Json>, ch: string): seq<Json>
  {
    if props == [] then []
    else
      (if props[0] == JStr("power" + ch) then [JStr("power")] else [])
      + (if props[0] == JStr("energy" + ch) then [JStr("energy")] else [])
      + RenameProps(props[1..], ch)
  }

  /** `rgbw_status` must be a string holding JSON; `parse` is `serde_json::from_str`. */
  function DecodeRgbw(report: Fields, parse: string -> Option<Json>): Option<Json>
  {
    match Get(report, "rgbw_status")
    case JStr(s) => parse(s)
    case _ => None
  }

  /** The colour component a dimmable light fed by an RGBW relay follows. */
  function RgbwComponent(channel: nat): string
    requires 1 <= channel <= 4
  {
    if channel == 1 then "r" else if channel == 2 then "g" else if channel == 3 then "b" else "w"
  }

  /** The panics (`unwrap`) of each rule do not happen for this report. */
  predicate ReportDefined(cls: DeviceClass, targetName: string, ch: string, report: Fields)
  {
    !RulePanics(cls, targetName, ch, report)
  }

  /** The report makes the rule for `cls` unwrap a missing or ill-typed field. */
  predicate RulePanics(cls: DeviceClass, targetName: string, ch: string, report: Fields)
  {
    match cls
    case PowerEnergySensor =>
      !IsStrArray(Get(report, "updated_properties")) ||
      (JStr("power_data") in UpdatedProps(report) && AsF64(Field(PowerReading(report, ch), "energy")).None?)
    case LightDimmable =>
      targetName == "shelly_dimmer" &&
      (AsF64(Get(report, "energy1")).None? || !Get(report, "updated_properties").JArr?)
    case Relay =>
      (!IsSingleRelay(targetName) && AsF64(Get(report, "energy" + ch)).None?) ||
      !IsStrArray(Get(report, "updated_properties"))
    case InputSensor =>
      !IsStrArray(Get(report, "updated_properties"))
    case _ => false
  }

  /** The fields each rule assigns (possibly to null); all others are left alone. */
  function WrittenFields(cls: DeviceClass, targetName: string, channel: nat): set<string>
  {
    match cls
    case PowerEnergySensor => {"power", "energy", "updated_properties"}
    case LightDimmable =>
      if targetName == "shelly_dimmer" then {"status", "power", "energy", "updated_properties"}
      else if targetName == "shelly_rgbw" && 1 <= channel <= 4 then {"status"}
      else {}
    case RgbwLight => {"r", "g", "b", "w"}
    case Relay =>
      if IsSingleRelay(targetName) then {"status", "updated_properties"}
      else {"status", "power", "energy", "updated_properties"}
    case FloorValve => {"status"}
    case Shutter => {"shutter_status"}
    case InputSensor => {"status"}
    case ContactSensor => {"status"}
    case Unhandled => {}
  }

  /** `updated` differs from `stored` only on the fields `fs`, all of which it holds. */
  ghost predicate UpdatesOnly(stored: Fields, updated: Fields, fs: set<string>)
  {
    updated.Keys == stored.Keys + fs &&
    forall k :: k in stored && k !in fs ==> updated[k] == stored[k]
  }

  // ---------------------------------------------------------------- the rules

  /** One device-class rule applied to the stored value of the logical topic. */
  function ApplyRule(cls: DeviceClass, stored: Fields, report: Fields, channel: nat, targetName: string,
                     parse: string -> Option<Json>): (r: Result<Fields, TransformError>)
    requires ReportDefined(cls, targetName, NatToString(channel), report)
    ensures r.Ok? ==> UpdatesOnly(stored, r.value, WrittenFields(cls, targetName, channel))
    ensures r.Err? ==> r.error != TopicMissing
  {
    var ch := NatToString(channel);
    match cls
    case PowerEnergySensor =>
      if JStr("power_data") !in UpdatedProps(report) then Err(NotUpdate)
      else
        var reading := PowerReading(report, ch);
        var withPower := stored["power" := Field(reading, "active_power")];
        Ok(AddEnergy(withPower, AsF64(Field(reading, "energy")).value)
             ["updated_properties" := JArr([JStr("power"), JStr("energy")])])
    case LightDimmable =>
      if targetName == "shelly_dimmer" then
        var withStatus := stored["status" := Get(report, "dimmer_status")]["power" := Get(report, "power1")];
        Ok(AddEnergy(withStatus, AsF64(Get(report, "energy1")).value)
             ["updated_properties" := JArr(RenameProps(UpdatedProps(report), "1"))])
      else if targetName == "shelly_rgbw" then
        (match DecodeRgbw(report, parse)
         case None => Err(BadRgbwStatus)
         case Some(rgbw) =>
           if 1 <= channel <= 4 then Ok(stored["status" := Field(rgbw, RgbwComponent(channel))])
           else Ok(stored))
      else Ok(stored)
    case RgbwLight =>
      (match DecodeRgbw(report, parse)
       case None => Err(BadRgbwStatus)
       case Some(rgbw) =>
         Ok(stored["r" := Field(rgbw, "r")]["g" := Field(rgbw, "g")]["b" := Field(rgbw, "b")]["w" := Field(rgbw, "w")]))
    case Relay =>
      var withStatus := stored["status" := Get(report, "output" + ch)];
      var withEnergy :=
        if IsSingleRelay(targetName) then withStatus
        else AddEnergy(withStatus["power" := Get(report, "power" + ch)], AsF64(Get(report, "energy" + ch)).value);
      Ok(withEnergy["updated_properties" := JArr(RenameProps(UpdatedProps(report), ch))])
    case FloorValve =>
      Ok(stored["status" := Get(report, "output" + ch)])
    case Shutter =>
      Ok(stored["shutter_status" := Get(report, "shutter_status")])
    case InputSensor =>
      if JStr("input" + ch) in UpdatedProps(report) then Ok(stored["status" := Get(report, "input" + ch)])
      else Err(NotUpdate)
    case ContactSensor =>
      if targetName == "domo_ble_contact" then Ok(stored["status" := Get(report, "status")])
      else Ok(stored["status" := Get(report, "input" + ch)])
    case Unhandled =>
      Ok(stored)
  }

  /**
   * `get_topic_from_actuator_topic(source_topic_name, source_topic_uuid,
   * channel_number, actuator_topic, target_topic_name)`: the new value of the
   * logical topic, computed from its stored value; the cache is not changed.
   */
  function TopicFromActuatorTopic(c: Cache, parse: string -> Option<Json>, sourceName: string, sourceUuid: string,
                                  channel: nat, report: Fields, targetName: string): (r: Result<Fields, TransformError>)
    requires GetTopicUuid(c, sourceName, sourceUuid).Some? ==>
               ReportDefined(ClassOf(sourceName), targetName, NatToString(channel), report)
    ensures r == Err(TopicMissing) <==> GetTopicUuid(c, sourceName, sourceUuid).None?
    ensures r.Ok? ==> UpdatesOnly(GetTopicUuid(c, sourceName, sourceUuid).value, r.value,
                                  WrittenFields(ClassOf(sourceName), targetName, channel))
  {
    match GetTopicUuid(c, sourceName, sourceUuid)
    case None => Err(TopicMissing)
    case Some(stored) => ApplyRule(ClassOf(sourceName), stored, report, channel, targetName, parse)
  }
}
