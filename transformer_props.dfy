/** What each rule of the topic transformer promises, stated over all inputs. */
module TransformerProperties {
  import opened Wrappers
  import opened JsonValue
  import opened DomoCache
  import opened Transformer

  /** The classes whose rule adds the reported energy to the stored total. */
  predicate AccumulatesEnergy(cls: DeviceClass, targetName: string)
  {
    cls == PowerEnergySensor
    || (cls == LightDimmable && targetName == "shelly_dimmer")
    || (cls == Relay && !IsSingleRelay(targetName))
  }

  /** The report field that carries the energy delta for a class. */
  function EnergyField(cls: DeviceClass, channel: nat, report: Fields): Json
  {
    match cls
    case PowerEnergySensor => Field(PowerReading(report, NatToString(channel)), "energy")
    case LightDimmable => Get(report, "energy1")
    case Relay => Get(report, "energy" + NatToString(channel))
    case _ => JNull
  }

  /** The property a gated class needs among `updated_properties`. */
  function GateProperty(cls: DeviceClass, channel: nat): string
  {
    if cls == PowerEnergySensor then "power_data" else "input" + NatToString(channel)
  }

  /**
   * Presence gating: the power sensor and the input sensors fail with
   * `NotUpdate` exactly when their property is missing from
   * `updated_properties`; an input sensor then copies `input{N}` into `status`.
   */
  lemma PresenceGating(c: Cache, parse: string -> Option<Json>, name: string, uuid: string,
                       channel: nat, report: Fields, targetName: string)
    requires ClassOf(name) == PowerEnergySensor || ClassOf(name) == InputSensor
    requires GetTopicUuid(c, name, uuid).Some?
    requires ReportDefined(ClassOf(name), targetName, NatToString(channel), report)
    ensures var r := TopicFromActuatorTopic(c, parse, name, uuid, channel, report, targetName);
            && (r == Err(NotUpdate) <==> JStr(GateProperty(ClassOf(name), channel)) !in UpdatedProps(report))
            && (r.Err? ==> r == Err(NotUpdate))
            && (r.Ok? && ClassOf(name) == InputSensor ==>
                  r.value["status"] == Get(report, "input" + NatToString(channel)))
  {
  }

  /** Whether a rule succeeds depends on the report alone, never on the stored value. */
  lemma OutcomeIgnoresStored(cls: DeviceClass, s1: Fields, s2: Fields, report: Fields, channel: nat,
                             targetName: string, parse: string -> Option<Json>)
    requires ReportDefined(cls, targetName, NatToString(channel), report)
    ensures ApplyRule(cls, s1, report, channel, targetName, parse).Ok? ==
            ApplyRule(cls, s2, report, channel, targetName, parse).Ok?
  {
  }

  /**
   * Energy is additive: the new `energy` is the stored total (0.0 when absent)
   * plus the delta the report carries, never a replacement.
   */
  lemma EnergyIsAdditive(c: Cache, parse: string -> Option<Json>, name: string, uuid: string,
                         channel: nat, report: Fields, targetName: string)
    requires AccumulatesEnergy(ClassOf(name), targetName)
    requires GetTopicUuid(c, name, uuid).Some?
    requires ReportDefined(ClassOf(name), targetName, NatToString(channel), report)
    requires TopicFromActuatorTopic(c, parse, name, uuid, channel, report, targetName).Ok?
    ensures AsF64(EnergyField(ClassOf(name), channel, report)).Some?
    ensures TopicFromActuatorTopic(c, parse, name, uuid, channel, report, targetName).value["energy"] ==
            JFloat(EnergyOf(GetTopicUuid(c, name, uuid).value) + AsF64(EnergyField(ClassOf(name), channel, report)).value)
  {
  }

  /** The same, for a rule applied to a stored value. */
  lemma RuleAddsEnergy(cls: DeviceClass, stored: Fields, report: Fields, channel: nat, targetName: string,
                       parse: string -> Option<Json>, d: real)
    requires AccumulatesEnergy(cls, targetName)
    requires ReportDefined(cls, targetName, NatToString(channel), report)
    requires AsF64(EnergyField(cls, channel, report)) == Some(d)
    ensures var r := ApplyRule(cls, stored, report, channel, targetName, parse);
            r.Ok? ==> r.value["energy"] == JFloat(EnergyOf(stored) + d)
  {
  }

  /**
   * Two successive reports with deltas d1 and d2, the second applied to the
   * value the first produced, starting from a topic with no energy, leave
   * d1 + d2.
   */
  lemma EnergyOverTwoReports(cls: DeviceClass, stored: Fields, report1: Fields, report2: Fields, channel: nat,
                             targetName: string, parse: string -> Option<Json>, d1: real, d2: real)
    requires AccumulatesEnergy(cls, targetName) && EnergyOf(stored) == 0.0
    requires ReportDefined(cls, targetName, NatToString(channel), report1)
    requires ReportDefined(cls, targetName, NatToString(channel), report2)
    requires AsF64(EnergyField(cls, channel, report1)) == Some(d1)
    requires AsF64(EnergyField(cls, channel, report2)) == Some(d2)
    requires ApplyRule(cls, stored, report1, channel, targetName, parse).Ok?
    ensures var v1 := ApplyRule(cls, stored, report1, channel, targetName, parse).value;
            var r2 := ApplyRule(cls, v1, report2, channel, targetName, parse);
            r2.Ok? ==> r2.value["energy"] == JFloat(d1 + d2)
  {
    var v1 := ApplyRule(cls, stored, report1, channel, targetName, parse).value;
    RuleAddsEnergy(cls, stored, report1, channel, targetName, parse, d1);
    assert EnergyOf(v1) == d1;
    RuleAddsEnergy(cls, v1, report2, channel, targetName, parse, d2);
  }

  /**
   * Lights, sirens, switches and fan coils: `status` follows `output{N}`; power
   * and energy are touched only for relays other than shelly_1 / shelly_1plus;
   * `updated_properties` is rebuilt from the report's `power{N}` / `energy{N}`.
   */
  lemma RelayRule(c: Cache, parse: string -> Option<Json>, name: string, uuid: string,
                  channel: nat, report: Fields, targetName: string)
    requires ClassOf(name) == Relay
    requires GetTopicUuid(c, name, uuid).Some?
    requires ReportDefined(Relay, targetName, NatToString(channel), report)
    ensures var stored := GetTopicUuid(c, name, uuid).value;
            var r := TopicFromActuatorTopic(c, parse, name, uuid, channel, report, targetName);
            && r.Ok?
            && r.value["status"] == Get(report, "output" + NatToString(channel))
            && r.value["updated_properties"] == JArr(RenameProps(UpdatedProps(report), NatToString(channel)))
            && (IsSingleRelay(targetName) ==>
                  Lookup(r.value, "power") == Lookup(stored, "power") &&
                  Lookup(r.value, "energy") == Lookup(stored, "energy"))
            && (!IsSingleRelay(targetName) ==> r.value["power"] == Get(report, "power" + NatToString(channel)))
  {
  }

  /** The rebuilt `updated_properties` follows the input order: it distributes over concatenation. */
  lemma {:induction false} RenamePropsAppend(a: seq<Json>, b: seq<Json>, ch: string)
    ensures RenameProps(a + b, ch) == RenameProps(a, ch) + RenameProps(b, ch)
  {
    if a == [] {
      assert a + b == b;
    } else {
      assert (a + b)[0] == a[0];
      assert (a + b)[1..] == a[1..] + b;
      RenamePropsAppend(a[1..], b, ch);
    }
  }

  /** The echo of a single property. */
  lemma RenameOne(p: Json, ch: string)
    ensures RenameProps([p], ch) ==
            if p == JStr("power" + ch) then [JStr("power")]
            else if p == JStr("energy" + ch) then [JStr("energy")]
            else []
  {
    assert "power" + ch != "energy" + ch by {
      assert ("power" + ch)[0] == 'p' && ("energy" + ch)[0] == 'e';
    }
    assert [p][1..] == [];
  }

  /**
   * The rebuilt `updated_properties` holds one "power" per "power{N}" and one
   * "energy" per "energy{N}" of the report, and nothing else.
   */
  lemma {:induction false} RenamePropsCounts(props: seq<Json>, ch: string)
    ensures multiset(RenameProps(props, ch))[JStr("power")] == multiset(props)[JStr("power" + ch)]
    ensures multiset(RenameProps(props, ch))[JStr("energy")] == multiset(props)[JStr("energy" + ch)]
    ensures forall x | x in RenameProps(props, ch) :: x == JStr("power") || x == JStr("energy")
  {
    if props != [] {
      var p, rest := props[0], props[1..];
      var head := RenameProps([p], ch);
      var tail := RenameProps(rest, ch);
      RenamePropsAppend([p], rest, ch);
      assert [p] + rest == props;
      assert RenameProps(props, ch) == head + tail;
      RenamePropsCounts(rest, ch);
      RenameOne(p, ch);
      assert multiset(props) == multiset([p]) + multiset(rest);
      assert multiset(head + tail) == multiset(head) + multiset(tail);
    }
  }

  /**
   * A dimmable light fed by an RGBW relay follows the colour component its
   * channel selects (1..4 is r, g, b, w) and keeps its value on other channels;
   * an undecodable `rgbw_status` is an error.
   */
  lemma RgbwDimmableSelection(c: Cache, parse: string -> Option<Json>, name: string, uuid: string,
                              channel: nat, report: Fields)
    requires ClassOf(name) == LightDimmable
    requires GetTopicUuid(c, name, uuid).Some?
    ensures var stored := GetTopicUuid(c, name, uuid).value;
            var r := TopicFromActuatorTopic(c, parse, name, uuid, channel, report, "shelly_rgbw");
            && (r.Err? <==> DecodeRgbw(report, parse).None?)
            && (r.Ok? && 1 <= channel <= 4 ==>
                  r.value == stored["status" := Field(DecodeRgbw(report, parse).value, RgbwComponent(channel))])
            && (r.Ok? && !(1 <= channel <= 4) ==> r.value == stored)
  {
  }

  /** An RGBW light takes all four components of the decoded status. */
  lemma RgbwLightSetsAll(c: Cache, parse: string -> Option<Json>, name: string, uuid: string,
                         channel: nat, report: Fields, targetName: string)
    requires ClassOf(name) == RgbwLight
    requires GetTopicUuid(c, name, uuid).Some?
    ensures var r := TopicFromActuatorTopic(c, parse, name, uuid, channel, report, targetName);
            && (r.Err? <==> DecodeRgbw(report, parse).None?)
            && (r.Ok? ==> forall k | k in {"r", "g", "b", "w"} ::
                            r.value[k] == Field(DecodeRgbw(report, parse).value, k))
  {
  }

  /** The classes that copy one report field: floor valves, shutters and gates, window and door sensors. */
  lemma CopyRules(c: Cache, parse: string -> Option<Json>, name: string, uuid: string,
                  channel: nat, report: Fields, targetName: string)
    requires ClassOf(name) in {FloorValve, Shutter, ContactSensor}
    requires GetTopicUuid(c, name, uuid).Some?
    ensures var r := TopicFromActuatorTopic(c, parse, name, uuid, channel, report, targetName);
            var ch := NatToString(channel);
            && r.Ok?
            && (ClassOf(name) == FloorValve ==> r.value["status"] == Get(report, "output" + ch))
            && (ClassOf(name) == Shutter ==> r.value["shutter_status"] == Get(report, "shutter_status"))
            && (ClassOf(name) == ContactSensor && targetName == "domo_ble_contact" ==>
                  r.value["status"] == Get(report, "status"))
            && (ClassOf(name) == ContactSensor && targetName != "domo_ble_contact" ==>
                  r.value["status"] == Get(report, "input" + ch))
  {
  }

  /** A topic of any other class is returned exactly as stored. */
  lemma UnhandledIsIdentity(c: Cache, parse: string -> Option<Json>, name: string, uuid: string,
                            channel: nat, report: Fields, targetName: string)
    requires ClassOf(name) == Unhandled
    requires GetTopicUuid(c, name, uuid).Some?
    ensures TopicFromActuatorTopic(c, parse, name, uuid, channel, report, targetName) ==
            Ok(GetTopicUuid(c, name, uuid).value)
  {
  }
}
