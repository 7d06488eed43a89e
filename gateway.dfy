/**
 * The gateway's main loop (main.rs): the state the loop owns and one method
 * per arm of its `select!`. Commands sent over the websocket are appended to
 * an outbox; valve signal reports are appended to a sample history, from which
 * the relay choice is made.
 */
module Gateway {
  import opened Wrappers
  import opened JsonValue
  import opened DomoCache
  import Messages
  import opened Dht
  import DhtProperties
  import opened ValveArbiter
  import opened Beacons
  import opened Shelly

  /** A valve's signal report as relayed by one actuator (`update_best_actuator`'s arguments). */
  datatype RssiSample = RssiSample(valve: string, actuator: string, rssi: int)

  /** `BleBeaconMessage`: a beacon heard by a relay. */
  datatype BleBeacon = BleBeacon(macAddress: string, actuator: string, payload: string, rssi: int)

  /**
   * The library decoders the handlers call: `serde_json::from_str`,
   * `base64::decode`, `bleutils::parse_atc(mac, message, token)` and
   * `bleutils::parse_contact_sensor(mac, data, token)`.
   */
  datatype Decoders = Decoders(
    parse: string -> Option<Json>,
    base64: string -> Option<seq<byte>>,
    atc: (string, string, string) -> Option<AtcReading>,
    contact: (string, string, string) -> Option<ContactStatus>)

  // ---------------------------------------------------------------- writes with a cascade

  /** The write, and when `cascade` holds the cascade over the written value, are free of panics. */
  predicate CommitDefined(c: Cache, index: map<string, seq<ConnElem>>, w: Write, cascade: bool)
  {
    cascade ==>
      CascadeDefined(WriteValue(c, w.topicName, w.topicUuid, w.value),
                     Edges(index, IndexKey(w.topicName, w.topicUuid)), w.value, w.topicName)
  }

  /**
   * `write_topic`, followed when `cascade` holds by `update_actuator_connection`
   * with the written value as the actuator's report.
   */
  function Committed(c: Cache, index: map<string, seq<ConnElem>>, parse: string -> Option<Json>,
                     w: Write, cascade: bool): Cache
    requires CommitDefined(c, index, w, cascade)
  {
    var c1 := WriteValue(c, w.topicName, w.topicUuid, w.value);
    if cascade then Cascade(c1, parse, Edges(index, IndexKey(w.topicName, w.topicUuid)), w.value, w.topicName).0
    else c1
  }

  /**
   * A commit is the write followed by the writes of the cascade; without a
   * cascade, only the written topic changes.
   */
  lemma CommittedWrites(c: Cache, index: map<string, seq<ConnElem>>, parse: string -> Option<Json>,
                        w: Write, cascade: bool, n: string, u: string)
    requires CommitDefined(c, index, w, cascade)
    ensures cascade ==>
              var c1 := WriteValue(c, w.topicName, w.topicUuid, w.value);
              var e := Edges(index, IndexKey(w.topicName, w.topicUuid));
              Committed(c, index, parse, w, cascade) == ApplyWrites(c, [w] + Cascade(c1, parse, e, w.value, w.topicName).1)
    ensures !cascade ==>
              GetTopicUuid(Committed(c, index, parse, w, cascade), n, u) ==
              if n == w.topicName && u == w.topicUuid then Some(w.value) else GetTopicUuid(c, n, u)
  {
    var c1 := WriteValue(c, w.topicName, w.topicUuid, w.value);
    if cascade {
      var e := Edges(index, IndexKey(w.topicName, w.topicUuid));
      DhtProperties.CascadeAppliesWrites(c1, parse, e, w.value, w.topicName);
      var ws := [w] + Cascade(c1, parse, e, w.value, w.topicName).1;
      assert ws[0] == w && ws[1..] == Cascade(c1, parse, e, w.value, w.topicName).1;
    } else {
      ReadAfterWrite(c, w.topicName, w.topicUuid, w.value, n, u);
    }
  }

  // ---------------------------------------------------------------- beacons

  /** The unwraps on the stored value of the beacon's topic succeed on the path the beacon takes. */
  predicate BeaconDefined(t: Topic, b: BleBeacon, d: Decoders)
  {
    && (t.name == "domo_ble_thermometer" && d.base64(b.payload).Some? ==> ThermometerStoredDefined(t.value))
    && (t.name == "domo_ble_contact" && d.base64(b.payload).Some? &&
        ContactLongEnough(HexEncode(d.base64(b.payload).value))
        ==> && ContactIdentityDefined(t.value)
            && (d.contact(t.value["mac_address"].s, ContactFrame(HexEncode(d.base64(b.payload).value), b.rssi),
                          t.value["token"].s).Some?
                ==> ContactStatusDefined(t.value)))
    && (t.name == "domo_ble_valve" && IsValveState(b.payload) ==> ValveStoredDefined(t.value))
  }

  /** What one beacon does. */
  datatype BeaconEffect =
    | Ignored
    | Stored(w: Write, cascade: bool)   // a write, followed by a cascade when `cascade` holds
    | Sampled(sample: RssiSample)       // a signal report for the relay choice

  /** `handle_ble_update_message` once the beacon's topic `t` is found. */
  function BeaconOutcome(t: Topic, b: BleBeacon, d: Decoders, now: nat): (e: BeaconEffect)
    requires BeaconDefined(t, b, d)
    ensures e.Stored? ==> e.w.topicName == t.name && e.w.topicUuid == t.uuid
    ensures e.Stored? && e.cascade ==> t.name == "domo_ble_contact"
    ensures e.Sampled? ==> t.name == "domo_ble_valve" && e.sample == RssiSample(b.macAddress, b.actuator, b.rssi)
  {
    if t.name == "domo_ble_thermometer" then
      match d.base64(b.payload)
      case None => Ignored
      case Some(bytes) =>
        match d.atc(t.value["mac_address"].s, HexEncode(bytes), t.value["token"].s)
        case None => Ignored
        case Some(m) => Stored(Write("domo_ble_thermometer", t.uuid, ThermometerValue(t.value, m, now)), false)
    else if t.name == "domo_ble_contact" then
      match d.base64(b.payload)
      case None => Ignored
      case Some(bytes) =>
        var message := HexEncode(bytes);
        if !ContactLongEnough(message) then Ignored
        else
          match d.contact(t.value["mac_address"].s, ContactFrame(message, b.rssi), t.value["token"].s)
          case None => Ignored
          case Some(state) =>
            match ContactWrite(t.value, state, now)
            case None => Ignored
            case Some(v) => Stored(Write("domo_ble_contact", t.uuid, v), true)
    else if t.name == "domo_ble_valve" then
      if IsValveState(b.payload) then Stored(Write("domo_ble_valve", t.uuid, ValveValue(t.value, b.payload, now)), false)
      else Sampled(RssiSample(b.macAddress, b.actuator, b.rssi))
    else Ignored
  }

  predicate BeaconDefinedIn(c: Cache, b: BleBeacon, d: Decoders)
  {
    var t := FindByMacIn(c, ActuatorClasses, b.macAddress);
    t.Some? ==> BeaconDefined(t.value, b, d)
  }

  /** The effect of a beacon: nothing when no topic carries its MAC. */
  function BeaconEffectOf(c: Cache, b: BleBeacon, d: Decoders, now: nat): BeaconEffect
    requires BeaconDefinedIn(c, b, d)
  {
    match FindByMacIn(c, ActuatorClasses, b.macAddress)
    case None => Ignored
    case Some(t) => BeaconOutcome(t, b, d, now)
  }

  /**
   * Valve beacons: "0" and "1" store `status` = (payload == "1") without a
   * cascade; any other payload is a signal report for the relay choice.
   */
  lemma ValveBeaconDispatch(t: Topic, b: BleBeacon, d: Decoders, now: nat)
    requires t.name == "domo_ble_valve" && BeaconDefined(t, b, d)
    ensures var e := BeaconOutcome(t, b, d, now);
            && (IsValveState(b.payload) ==>
                  e.Stored? && !e.cascade && e.w.topicName == "domo_ble_valve" && e.w.topicUuid == t.uuid &&
                  e.w.value["status"] == JBool(b.payload == "1"))
            && (!IsValveState(b.payload) ==> e == Sampled(RssiSample(b.macAddress, b.actuator, b.rssi)))
  {
  }

  /**
   * Contact beacons: nothing happens unless the hex message has at least 58
   * digits (29 bytes); the decoder gets "1d", the message and the RSSI byte;
   * a write, always followed by a cascade, happens exactly when the derived
   * bit differs from the stored status or none is stored.
   */
  lemma ContactBeaconGate(t: Topic, b: BleBeacon, d: Decoders, now: nat)
    requires t.name == "domo_ble_contact" && BeaconDefined(t, b, d)
    ensures var e := BeaconOutcome(t, b, d, now);
            && !e.Sampled?
            && (e.Stored? ==>
                  var bytes := d.base64(b.payload).value;
                  var message := HexEncode(bytes);
                  && |bytes| >= 29
                  && e.cascade
                  && e.w.topicName == "domo_ble_contact" && e.w.topicUuid == t.uuid
                  && var state := d.contact(t.value["mac_address"].s, ContactFrame(message, b.rssi), t.value["token"].s);
                     state.Some? &&
                     !("status" in t.value && t.value["status"] == JInt(ContactBit(state.value))) &&
                     e.w.value["status"] == JInt(ContactBit(state.value)))
            && (d.base64(b.payload).Some? && !ContactLongEnough(HexEncode(d.base64(b.payload).value)) ==> e == Ignored)
  {
    if BeaconOutcome(t, b, d, now).Stored? {
      var bytes := d.base64(b.payload).value;
      ContactGateInBytes(bytes);
      var state := d.contact(t.value["mac_address"].s, ContactFrame(HexEncode(bytes), b.rssi), t.value["token"].s);
      ContactSuppression(t.value, state.value, now);
    }
  }

  /** Thermometer beacons are never suppressed: every decoded reading is written, without a cascade. */
  lemma ThermometerAlwaysWrites(t: Topic, b: BleBeacon, d: Decoders, now: nat)
    requires t.name == "domo_ble_thermometer" && BeaconDefined(t, b, d)
    ensures var e := BeaconOutcome(t, b, d, now);
            && (e.Stored? <==>
                  d.base64(b.payload).Some? &&
                  d.atc(t.value["mac_address"].s, HexEncode(d.base64(b.payload).value), t.value["token"].s).Some?)
            && (e.Stored? ==>
                  var m := d.atc(t.value["mac_address"].s, HexEncode(d.base64(b.payload).value), t.value["token"].s).value;
                  !e.cascade && e.w.value["temperature"] == m.temperature &&
                  e.w.value["humidity"] == m.humidity && e.w.value["battery"] == m.battery)
            && !e.Sampled?
  {
  }

  /** Topics of every other class ignore beacons. */
  lemma OtherClassesIgnoreBeacons(t: Topic, b: BleBeacon, d: Decoders, now: nat)
    requires t.name !in {"domo_ble_thermometer", "domo_ble_contact", "domo_ble_valve"}
    ensures BeaconDefined(t, b, d) && BeaconOutcome(t, b, d, now) == Ignored
  {
  }

  // ---------------------------------------------------------------- commands from the cache

  /** The `mac_address` unwrap of the main loop succeeds for a command. */
  predicate DispatchDefined(r: Option<DhtCommand>)
  {
    r.Some? && FieldOpt(r.value.value, "mac_address").Some? ==> FieldOpt(r.value.value, "mac_address").value.JStr?
  }

  /**
   * The main loop's handling of `wait_dht_messages`' result: an actuator
   * command is forwarded to its MAC, a valve command is submitted, an error is
   * dropped. The result is the new valve table and the commands sent.
   */
  function Dispatched(r: Option<DhtCommand>, commands: map<string, ValveData>, acts: seq<string>,
                      best: string -> Option<string>): (out: (map<string, ValveData>, seq<Messages.Command>))
    requires DispatchDefined(r)
    ensures |out.1| <= 1
    ensures r.None? ==> out == (commands, [])
  {
    match r
    case Some(ActuatorCommand(v)) =>
      (match FieldOpt(v, "mac_address")
       case None => (commands, [])
       case Some(m) => (commands, [Messages.Command(Messages.Actuator, m.s, "", v)]))
    case Some(ValveCommand(v)) => Submitted(commands, acts, v, best)
    case None => (commands, [])
  }

  /**
   * An actuator command with a MAC is forwarded unchanged, once, to that MAC
   * and leaves the valve table alone; one without a MAC and an error send
   * nothing. This holds for the commands the command parser returns as well.
   */
  lemma ActuatorForwarding(r: Option<DhtCommand>, commands: map<string, ValveData>, acts: seq<string>,
                           best: string -> Option<string>)
    requires DispatchDefined(r)
    ensures var out := Dispatched(r, commands, acts, best);
            && (!(r.Some? && r.value.ValveCommand?) ==> out.0 == commands)
            && (r.Some? && r.value.ActuatorCommand? && FieldOpt(r.value.value, "mac_address").Some? ==>
                  out.1 == [Messages.Command(Messages.Actuator, FieldOpt(r.value.value, "mac_address").value.s, "", r.value.value)])
            && (r.Some? && r.value.ActuatorCommand? && FieldOpt(r.value.value, "mac_address").None? ==> out.1 == [])
            && (r.None? ==> out.1 == [])
  {
  }

  /** The gateway's state and the main loop's arms. */
  class Bridge {
    const dht: DhtManager
    const decoders: Decoders
    /** `serde_json::Value::to_string`. */
    const toString: Json -> string
    /** `get_best_actuator_for_valve`, as a function of the signal reports received so far. */
    const bestActuator: seq<RssiSample> -> string -> Option<string>
    /** The command parser the manager hands the delegated command types to. */
    const commandParser: CommandParser
    const wifiSsid: string
    const wifiPassword: string

    /** The MACs of the connected shelly-plus relays. */
    var shellyPlusActs: seq<string>
    /** `valve_command_manager.valve_commands`. */
    var valveCommands: map<string, ValveData>
    /** The signal reports handed to `update_best_actuator`, oldest first. */
    var rssiSamples: seq<RssiSample>
    /** The commands sent over the websocket, oldest first. */
    var outbox: seq<Messages.Command>

    /** Start-up: the manager over the cache, and a first index build. */
    constructor (cache: Cache, decoders: Decoders, toString: Json -> string,
                 bestActuator: seq<RssiSample> -> string -> Option<string>, commandParser: CommandParser,
                 wifiSsid: string, wifiPassword: string)
      requires ConnectionsWellTyped(Records(cache, ConnectionTopic))
      ensures fresh(dht)
      ensures dht.cache == cache && dht.actuatorsIndex == BuildIndex(Records(cache, ConnectionTopic))
      ensures this.decoders == decoders && this.toString == toString && this.bestActuator == bestActuator
      ensures this.commandParser == commandParser
      ensures this.wifiSsid == wifiSsid && this.wifiPassword == wifiPassword
      ensures shellyPlusActs == [] && valveCommands == map[] && rssiSamples == [] && outbox == []
    {
      var m := new DhtManager(cache);
      m.BuildActuatorsIndex();
      dht := m;
      this.decoders := decoders;
      this.toString := toString;
      this.bestActuator := bestActuator;
      this.commandParser := commandParser;
      this.wifiSsid := wifiSsid;
      this.wifiPassword := wifiPassword;
      shellyPlusActs := [];
      valveCommands := map[];
      rssiSamples := [];
      outbox := [];
    }

    /**
     * `handle_cred_message` and its arm: the credentials are looked up and the
     * answer returned; a `shelly_1plus` relay that logs in is registered.
     */
    method HandleCredMessage(user: string, password: string) returns (r: Option<Cred>)
      requires CredSearchDefined(dht.cache, CredClasses, user, password)
      modifies this
      ensures r == FindCredIn(dht.cache, CredClasses, user, password)
      ensures shellyPlusActs ==
              old(shellyPlusActs) + (if r.Some? && r.value.topic == "shelly_1plus" then [r.value.macAddress] else [])
      ensures valveCommands == old(valveCommands) && rssiSamples == old(rssiSamples) && outbox == old(outbox)
    {
      r := dht.GetAuthCred(user, password);
      if r.Some? && r.value.topic == "shelly_1plus" {
        shellyPlusActs := shellyPlusActs + [r.value.macAddress];
      }
    }

    /**
     * `handle_shelly_message`: a relay's status report is merged into its
     * topic, found by class and colon-formatted MAC, and cascaded to the
     * logical topics the relay feeds.
     */
    method HandleShellyMessage(message: Json, now: nat)
      requires ShellyMessageDefined(dht.cache, message, decoders.parse)
      requires var w := ShellyWrite(dht.cache, message, decoders.parse, now);
               w.Some? ==> CommitDefined(dht.cache, dht.actuatorsIndex, w.value, true)
      modifies dht
      ensures dht.actuatorsIndex == old(dht.actuatorsIndex)
      ensures var w := ShellyWrite(old(dht.cache), message, decoders.parse, now);
              dht.cache == if w.None? then old(dht.cache)
                           else Committed(old(dht.cache), old(dht.actuatorsIndex), decoders.parse, w.value, true)
    {
      var report := StatusReport(message, decoders.parse);
      if report.Some? {
        var fields := report.value.fields;
        var mac := MacWithColons(fields["mac_address"].s);
        var topicName := fields["topic_name"].s;
        var topic := dht.GetTopic(topicName, mac);
        if topic.Some? {
          var merged := MergedStatus(fields, topic.value.value, now);
          if merged.Some? {
            dht.WriteTopic(topicName, topic.value.uuid, merged.value);
            var writes := dht.UpdateActuatorConnections(decoders.parse, topicName, topic.value.uuid, merged.value);
          }
        }
      }
    }

    /**
     * `handle_ble_update_message`: the beacon's topic is found by MAC over the
     * device classes; thermometer and contact beacons are decoded and written,
     * a valve beacon is a state write or a signal report.
     */
    method HandleBleUpdate(b: BleBeacon, now: nat)
      requires BeaconDefinedIn(dht.cache, b, decoders)
      requires var e := BeaconEffectOf(dht.cache, b, decoders, now);
               e.Stored? ==> CommitDefined(dht.cache, dht.actuatorsIndex, e.w, e.cascade)
      modifies this, dht
      ensures dht.actuatorsIndex == old(dht.actuatorsIndex)
      ensures var e := BeaconEffectOf(old(dht.cache), b, decoders, now);
              && dht.cache == (if e.Stored? then Committed(old(dht.cache), old(dht.actuatorsIndex), decoders.parse, e.w, e.cascade)
                               else old(dht.cache))
              && rssiSamples == old(rssiSamples) + (if e.Sampled? then [e.sample] else [])
      ensures shellyPlusActs == old(shellyPlusActs) && valveCommands == old(valveCommands) && outbox == old(outbox)
    {
      var topic := dht.GetActuatorFromMacAddress(b.macAddress);
      if topic.Some? {
        var t := topic.value;
        if t.name == "domo_ble_thermometer" {
          var bytes := decoders.base64(b.payload);
          if bytes.Some? {
            var reading := decoders.atc(t.value["mac_address"].s, HexEncode(bytes.value), t.value["token"].s);
            if reading.Some? {
              dht.WriteTopic("domo_ble_thermometer", t.uuid, ThermometerValue(t.value, reading.value, now));
            }
          }
        }
        if t.name == "domo_ble_contact" {
          var bytes := decoders.base64(b.payload);
          if bytes.Some? {
            var message := HexEncode(bytes.value);
            if |message| >= 58 {
              var data := ContactFrame(message, b.rssi);
              var state := decoders.contact(t.value["mac_address"].s, data, t.value["token"].s);
              if state.Some? {
                var value := ContactWrite(t.value, state.value, now);
                if value.Some? {
                  dht.WriteTopic("domo_ble_contact", t.uuid, value.value);
                  var writes := dht.UpdateActuatorConnections(decoders.parse, "domo_ble_contact", t.uuid, value.value);
                }
              }
            }
          }
        }
        if t.name == "domo_ble_valve" {
          if b.payload == "0" || b.payload == "1" {
            dht.WriteTopic("domo_ble_valve", t.uuid, ValveValue(t.value, b.payload, now));
          } else {
            rssiSamples := rssiSamples + [RssiSample(b.macAddress, b.actuator, b.rssi)];
          }
        }
      }
    }

    /** The valve timer arm: one reconciliation round over the pending valve commands. */
    method ValveTimer()
      requires RoundRuns(valveCommands, shellyPlusActs) ==> TableDefined(valveCommands, Records(dht.cache, ValveTopic))
      modifies this
      ensures shellyPlusActs == old(shellyPlusActs) && rssiSamples == old(rssiSamples)
      ensures valveCommands ==
              Reconciled(old(valveCommands), shellyPlusActs, Records(dht.cache, ValveTopic), bestActuator(rssiSamples))
      ensures !RoundRuns(old(valveCommands), shellyPlusActs) ==> outbox == old(outbox)
      ensures |outbox| >= |old(outbox)| && outbox[..|old(outbox)|] == old(outbox)
      ensures RoundRuns(old(valveCommands), shellyPlusActs) ==>
              SentExactly(outbox[|old(outbox)|..],
                          RetriedKeys(old(valveCommands), shellyPlusActs, Records(dht.cache, ValveTopic), bestActuator(rssiSamples)),
                          old(valveCommands), Records(dht.cache, ValveTopic), bestActuator(rssiSamples))
    {
      var updated, sent := ReconcileValves(valveCommands, shellyPlusActs, Records(dht.cache, ValveTopic),
                                           bestActuator(rssiSamples));
      valveCommands := updated;
      assert (outbox + sent)[|outbox|..] == sent && (outbox + sent)[..|outbox|] == outbox;
      outbox := outbox + sent;
    }

    /** The ping timer arm: a ping to every connected board. */
    method PingTimer()
      modifies this
      ensures outbox == old(outbox) + [Messages.Command(Messages.Ping, "", "", JObj(map[]))]
      ensures shellyPlusActs == old(shellyPlusActs) && valveCommands == old(valveCommands) && rssiSamples == old(rssiSamples)
    {
      outbox := outbox + [Messages.Command(Messages.Ping, "", "", JObj(map[]))];
    }

    /**
     * `check_shelly_esp32_wifi`: every registered relay whose topic reports
     * another network is told to join the configured one and is dropped from
     * the list. The indices are collected as in the source; they are then
     * applied all at once (the evidently intended removal), not one by one.
     */
    method CheckShellyWifi()
      requires WifiDefined(dht.cache, shellyPlusActs)
      modifies this
      ensures var flags := WifiFlags(dht.cache, old(shellyPlusActs), wifiSsid);
              && outbox == old(outbox) + WifiCommands(old(shellyPlusActs), flags, wifiSsid, wifiPassword, toString)
              && shellyPlusActs == KeepUnflagged(old(shellyPlusActs), flags)
      ensures valveCommands == old(valveCommands) && rssiSamples == old(rssiSamples)
    {
      var acts := shellyPlusActs;
      var sent, toRemove := CollectWifiMismatches(acts);
      outbox := outbox + sent;
      shellyPlusActs := RetainUnflagged(acts, toRemove, WifiFlags(dht.cache, acts, wifiSsid));
    }

    /**
     * The loop of `check_shelly_esp32_wifi`: the change-network command of
     * every mismatching relay, in list order, and the indices of those relays.
     */
    method CollectWifiMismatches(acts: seq<string>) returns (sent: seq<Messages.Command>, toRemove: seq<nat>)
      requires WifiDefined(dht.cache, acts)
      ensures var flags := WifiFlags(dht.cache, acts, wifiSsid);
              && sent == WifiCommands(acts, flags, wifiSsid, wifiPassword, toString)
              && toRemove == FlaggedIndices(flags, 0)
    {
      ghost var flags := WifiFlags(dht.cache, acts, wifiSsid);
      sent := [];
      toRemove := [];
      var count := 0;
      while count < |acts|
        invariant 0 <= count <= |acts|
        invariant sent == WifiCommands(acts[..count], flags[..count], wifiSsid, wifiPassword, toString)
        invariant toRemove == FlaggedIndices(flags[..count], 0)
      {
        var cmd := CheckWifi(acts[count]);
        if cmd.Some? {
          sent := sent + [cmd.value];
          toRemove := toRemove + [count];
        }
        WifiCommandsSnoc(acts, flags, count, wifiSsid, wifiPassword, toString);
        assert flags[..count + 1][..count] == flags[..count];
        FlaggedIndicesSnoc(flags[..count + 1], 0);
        count := count + 1;
      }
      assert acts[..count] == acts && flags[..count] == flags;
    }

    /** One turn of the loop: the relay's topic is looked up and its network compared. */
    method CheckWifi(act: string) returns (cmd: Option<Messages.Command>)
      requires var t := FindByMacIn(dht.cache, ActuatorClasses, act);
               t.Some? && "wifi_ssid" in t.value.value ==> t.value.value["wifi_ssid"].JStr?
      ensures cmd.Some? <==> WifiMismatch(dht.cache, act, wifiSsid)
      ensures cmd.Some? ==> cmd.value == ChangeWifiCommand(act, wifiSsid, wifiPassword, toString)
    {
      cmd := None;
      var topic := dht.GetActuatorFromMacAddress(act);
      if topic.Some? && "wifi_ssid" in topic.value.value {
        var ssid := topic.value.value["wifi_ssid"].s;
        if ssid != wifiSsid {
          cmd := Some(ChangeWifiCommand(act, wifiSsid, wifiPassword, toString));
        }
      }
    }

    /**
     * The cache-event arm: `wait_dht_messages`, then an actuator command is
     * forwarded and a valve command submitted.
     */
    method CacheEvent(event: DomoEvent)
      requires event.PersistentData? && event.topicName == ConnectionTopic ==>
                 ConnectionsWellTyped(Records(dht.cache, ConnectionTopic))
      requires event.VolatileData? ==> DispatchDefined(VolatileCommand(event.message, dht.cache, commandParser))
      modifies this, dht
      ensures dht.cache == old(dht.cache)
      ensures event.PersistentData? && event.topicName == ConnectionTopic ==>
                dht.actuatorsIndex == BuildIndex(Records(dht.cache, ConnectionTopic))
      ensures !(event.PersistentData? && event.topicName == ConnectionTopic) ==>
                dht.actuatorsIndex == old(dht.actuatorsIndex)
      ensures var r := if event.VolatileData? then VolatileCommand(event.message, old(dht.cache), commandParser) else None;
              var out := Dispatched(r, old(valveCommands), shellyPlusActs, bestActuator(rssiSamples));
              valveCommands == out.0 && outbox == old(outbox) + out.1
      ensures shellyPlusActs == old(shellyPlusActs) && rssiSamples == old(rssiSamples)
    {
      var r := dht.WaitDhtMessages(event, commandParser);
      match r
      case Some(ActuatorCommand(v)) =>
        var mac := FieldOpt(v, "mac_address");
        if mac.Some? {
          outbox := outbox + [Messages.Command(Messages.Actuator, mac.value.s, "", v)];
        }
      case Some(ValveCommand(v)) =>
        var out := Submitted(valveCommands, shellyPlusActs, v, bestActuator(rssiSamples));
        valveCommands := out.0;
        outbox := outbox + out.1;
      case None =>
    }
  }
}
