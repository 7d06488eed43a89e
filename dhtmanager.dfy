/**
 * The DHT manager of dhtmanager.rs: it owns the cache handle and the actuator
 * index, a table from `target_topic_name-target_topic_uuid` (a physical
 * actuator topic) to the connection edges that name the logical topics it feeds.
 */
module Dht {
  import opened Wrappers
  import opened JsonValue
  import opened DomoCache
  import opened Transformer

  /** One edge of the index: the logical topic fed, and the actuator channel feeding it. */
  datatype ConnElem = ConnElem(sourceTopicName: string, sourceTopicUuid: string, targetChannelNumber: nat)

  /** The class of the connection-declaration records. */
  const ConnectionTopic: string := "domo_actuator_connection"

  /** The index key of a physical topic. */
  function IndexKey(name: string, uuid: string): string
  {
    name + "-" + uuid
  }

  // ---------------------------------------------------------------- connection index

  /** The four fields `build_actuators_index` requires before it indexes a record. */
  predicate Complete(t: Topic)
  {
    && "target_topic_name" in t.value
    && "target_topic_uuid" in t.value
    && "target_channel_number" in t.value
    && "source_topic_name" in t.value
  }

  /** The `as_str().unwrap()` / `as_u64().unwrap()` calls on a complete record succeed. */
  predicate ConnectionWellTyped(t: Topic)
  {
    Complete(t) ==>
      && t.value["target_topic_name"].JStr?
      && t.value["target_topic_uuid"].JStr?
      && IsU64(t.value["target_channel_number"])
      && t.value["source_topic_name"].JStr?
  }

  predicate ConnectionsWellTyped(rs: seq<Topic>)
  {
    forall i | 0 <= i < |rs| :: ConnectionWellTyped(rs[i])
  }

  /** The key a complete record is filed under. */
  function KeyOf(t: Topic): string
    requires Complete(t) && ConnectionWellTyped(t)
  {
    IndexKey(t.value["target_topic_name"].s, t.value["target_topic_uuid"].s)
  }

  /** The edge of a complete record; its source uuid is the record's own uuid. */
  function EdgeOf(t: Topic): ConnElem
    requires Complete(t) && ConnectionWellTyped(t)
  {
    ConnElem(t.value["source_topic_name"].s, t.uuid, t.value["target_channel_number"].i)
  }

  /** The edges filed under `k`, none when the key is absent. */
  function Edges(index: map<string, seq<ConnElem>>, k: string): seq<ConnElem>
  {
    if k in index then index[k] else []
  }

  /** One turn of the indexing loop: append the record's edge under its key, or skip it. */
  function AddConnection(index: map<string, seq<ConnElem>>, t: Topic): map<string, seq<ConnElem>>
    requires ConnectionWellTyped(t)
  {
    if Complete(t) then index[KeyOf(t) := Edges(index, KeyOf(t)) + [EdgeOf(t)]] else index
  }

  /** The index built from scratch out of the records, in record order. */
  function BuildIndex(rs: seq<Topic>): (index: map<string, seq<ConnElem>>)
    requires ConnectionsWellTyped(rs)
    ensures forall k | k in index :: 0 < |index[k]| <= |rs|
    decreases |rs|
  {
    if rs == [] then map[]
    else AddConnection(BuildIndex(rs[..|rs| - 1]), rs[|rs| - 1])
  }

  /**
   * The reference: the edges of the complete records filed under `k`, in
   * record order.
   */
  function EdgesUnder(rs: seq<Topic>, k: string): seq<ConnElem>
    requires ConnectionsWellTyped(rs)
    decreases |rs|
  {
    if rs == [] then []
    else (if Complete(rs[0]) && KeyOf(rs[0]) == k then [EdgeOf(rs[0])] else []) + EdgesUnder(rs[1..], k)
  }

  lemma {:induction false} EdgesUnderAppend(a: seq<Topic>, b: seq<Topic>, k: string)
    requires ConnectionsWellTyped(a) && ConnectionsWellTyped(b)
    ensures ConnectionsWellTyped(a + b)
    ensures EdgesUnder(a + b, k) == EdgesUnder(a, k) + EdgesUnder(b, k)
    decreases |a|
  {
    assert forall i | 0 <= i < |a + b| :: (a + b)[i] == if i < |a| then a[i] else b[i - |a|];
    if a == [] {
      assert a + b == b;
    } else {
      assert (a + b)[1..] == a[1..] + b;
      EdgesUnderAppend(a[1..], b, k);
    }
  }

  /**
   * The rebuilt index holds exactly the edges of the complete records, filed
   * under their keys in record order, and no key without an edge.
   */
  lemma {:induction false} IndexExact(rs: seq<Topic>, k: string)
    requires ConnectionsWellTyped(rs)
    ensures Edges(BuildIndex(rs), k) == EdgesUnder(rs, k)
    ensures k in BuildIndex(rs) <==> EdgesUnder(rs, k) != []
    decreases |rs|
  {
    if rs != [] {
      var init, last := rs[..|rs| - 1], rs[|rs| - 1];
      assert init + [last] == rs;
      IndexExact(init, k);
      EdgesUnderAppend(init, [last], k);
      assert [last][1..] == [];
    }
  }

  // ---------------------------------------------------------------- cascading writes

  /** Every transform of the cascade is free of panics. */
  predicate CascadeDefined(c: Cache, edges: seq<ConnElem>, report: Fields, topicName: string)
  {
    forall i | 0 <= i < |edges| ::
      GetTopicUuid(c, edges[i].sourceTopicName, edges[i].sourceTopicUuid).Some? ==>
        ReportDefined(ClassOf(edges[i].sourceTopicName), topicName, NatToString(edges[i].targetChannelNumber), report)
  }

  lemma CascadeDefinedAfterWrite(c: Cache, name: string, uuid: string, v: Fields,
                                 edges: seq<ConnElem>, report: Fields, topicName: string)
    requires GetTopicUuid(c, name, uuid).Some?
    requires CascadeDefined(c, edges, report, topicName)
    ensures CascadeDefined(WriteValue(c, name, uuid, v), edges, report, topicName)
  {
    forall i | 0 <= i < |edges|
      ensures GetTopicUuid(WriteValue(c, name, uuid, v), edges[i].sourceTopicName, edges[i].sourceTopicUuid).Some? ==
              GetTopicUuid(c, edges[i].sourceTopicName, edges[i].sourceTopicUuid).Some?
    {
      WriteKeepsPresence(c, name, uuid, v, edges[i].sourceTopicName, edges[i].sourceTopicUuid);
    }
  }

  /** The transform of one edge against the cache as it stands. */
  function TransformEdge(c: Cache, parse: string -> Option<Json>, e: ConnElem, report: Fields, topicName: string)
    : Result<Fields, TransformError>
    requires GetTopicUuid(c, e.sourceTopicName, e.sourceTopicUuid).Some? ==>
               ReportDefined(ClassOf(e.sourceTopicName), topicName, NatToString(e.targetChannelNumber), report)
  {
    TopicFromActuatorTopic(c, parse, e.sourceTopicName, e.sourceTopicUuid, e.targetChannelNumber, report, topicName)
  }

  /**
   * `update_actuator_connections` over a list of edges: each edge in turn is
   * transformed against the cache as the earlier writes left it, and written
   * back when the transform succeeds. Gives the final cache and the writes.
   */
  function Cascade(c: Cache, parse: string -> Option<Json>, edges: seq<ConnElem>, report: Fields, topicName: string)
    : (r: (Cache, seq<Write>))
    requires CascadeDefined(c, edges, report, topicName)
    ensures |r.1| <= |edges|
    ensures r.1 == [] ==> r.0 == c
    decreases |edges|
  {
    if edges == [] then (c, [])
    else
      var e := edges[0];
      match TransformEdge(c, parse, e, report, topicName)
      case Ok(v) =>
        CascadeDefinedAfterWrite(c, e.sourceTopicName, e.sourceTopicUuid, v, edges[1..], report, topicName);
        var rest := Cascade(WriteValue(c, e.sourceTopicName, e.sourceTopicUuid, v), parse, edges[1..], report, topicName);
        (rest.0, [Write(e.sourceTopicName, e.sourceTopicUuid, v)] + rest.1)
      case Err(_) =>
        Cascade(c, parse, edges[1..], report, topicName)
  }

  /** One step of the cascade, unfolded. */
  lemma CascadeCons(c: Cache, parse: string -> Option<Json>, edges: seq<ConnElem>, report: Fields, topicName: string)
    requires edges != [] && CascadeDefined(c, edges, report, topicName)
    ensures CascadeDefined(c, edges[1..], report, topicName)
    ensures var e := edges[0];
            var t := TransformEdge(c, parse, e, report, topicName);
            if t.Ok? then
              var c' := WriteValue(c, e.sourceTopicName, e.sourceTopicUuid, t.value);
              && CascadeDefined(c', edges[1..], report, topicName)
              && Cascade(c, parse, edges, report, topicName).0 == Cascade(c', parse, edges[1..], report, topicName).0
              && Cascade(c, parse, edges, report, topicName).1 ==
                 [Write(e.sourceTopicName, e.sourceTopicUuid, t.value)] + Cascade(c', parse, edges[1..], report, topicName).1
            else
              Cascade(c, parse, edges, report, topicName) == Cascade(c, parse, edges[1..], report, topicName)
  {
    var e := edges[0];
    var t := TransformEdge(c, parse, e, report, topicName);
    if t.Ok? {
      CascadeDefinedAfterWrite(c, e.sourceTopicName, e.sourceTopicUuid, t.value, edges[1..], report, topicName);
    }
  }

  /**
   * The loop of `update_actuator_connections` part way through: going on
   * from cache `c` with the edges `rest` still to do completes `total`,
   * after the writes already issued.
   */
  ghost predicate CascadeRemains(c: Cache, parse: string -> Option<Json>, rest: seq<ConnElem>, report: Fields,
                                 topicName: string, writes: seq<Write>, total: (Cache, seq<Write>))
  {
    && CascadeDefined(c, rest, report, topicName)
    && Cascade(c, parse, rest, report, topicName).0 == total.0
    && writes + Cascade(c, parse, rest, report, topicName).1 == total.1
  }

  /**
   * One turn of the cascade loop: after edge `i` is transformed and, on
   * success, written back, the rest of the cascade still completes the same
   * final cache and writes.
   */
  lemma CascadeStep(c: Cache, parse: string -> Option<Json>, conns: seq<ConnElem>, i: nat, report: Fields,
                    topicName: string, writes: seq<Write>, total: (Cache, seq<Write>))
    requires i < |conns| && CascadeRemains(c, parse, conns[i..], report, topicName, writes, total)
    ensures CascadeDefined(c, [conns[i]], report, topicName)
    ensures var e := conns[i];
            var t := TransformEdge(c, parse, e, report, topicName);
            CascadeRemains(if t.Ok? then WriteValue(c, e.sourceTopicName, e.sourceTopicUuid, t.value) else c,
                           parse, conns[i + 1..], report, topicName,
                           if t.Ok? then writes + [Write(e.sourceTopicName, e.sourceTopicUuid, t.value)] else writes,
                           total)
  {
    var e := conns[i];
    assert conns[i..][0] == e && conns[i..][1..] == conns[i + 1..];
    CascadeCons(c, parse, conns[i..], report, topicName);
    var t := TransformEdge(c, parse, e, report, topicName);
    if t.Ok? {
      var w := Write(e.sourceTopicName, e.sourceTopicUuid, t.value);
      var c' := WriteValue(c, e.sourceTopicName, e.sourceTopicUuid, t.value);
      var rest := Cascade(c', parse, conns[i + 1..], report, topicName).1;
      assert writes + ([w] + rest) == (writes + [w]) + rest;
    }
  }

  // ---------------------------------------------------------------- lookups

  /** The classes `get_auth_cred` searches, in order. */
  const CredClasses: seq<string> := ["shelly_1plus", "shelly_1pm_plus", "shelly_2pm_plus"]

  /** The relay classes `get_actuator_from_mac_address` searches first, in order. */
  const RelayClasses: seq<string> := [
    "shelly_1", "shelly_1pm", "shelly_1plus", "shelly_em", "shelly_1pm_plus", "shelly_2pm_plus",
    "shelly_25", "shelly_dimmer", "shelly_rgbw"
  ]

  /** The beacon classes it searches after them. */
  const BeaconClasses: seq<string> := ["domo_ble_thermometer", "domo_ble_valve", "domo_ble_contact"]

  /** The classes `get_actuator_from_mac_address` searches, in order. */
  const ActuatorClasses: seq<string> := RelayClasses + BeaconClasses

  /** The reply of a successful credential lookup: `{mac_address, topic}`. */
  datatype Cred = Cred(macAddress: string, topic: string)

  predicate HasCredentials(t: Topic)
  {
    "user_login" in t.value && "user_password" in t.value
  }

  predicate CredMatches(t: Topic, user: string, password: string)
  {
    HasCredentials(t) && t.value["user_login"] == JStr(user) && t.value["user_password"] == JStr(password)
  }

  /** The unwraps on one scanned record succeed (and a matching record has a string MAC). */
  predicate CredRecordDefined(t: Topic, user: string, password: string)
  {
    && (HasCredentials(t) ==> t.value["user_login"].JStr? && t.value["user_password"].JStr?)
    && (CredMatches(t, user, password) ==> "mac_address" in t.value && t.value["mac_address"].JStr?)
  }

  /** Every record the scan reaches, up to the first match, is free of panics. */
  predicate CredScanDefined(ts: seq<Topic>, user: string, password: string)
    decreases |ts|
  {
    ts == [] ||
    (CredRecordDefined(ts[0], user, password) &&
     (CredMatches(ts[0], user, password) || CredScanDefined(ts[1..], user, password)))
  }

  function CredOf(t: Topic): Cred
    requires "mac_address" in t.value && t.value["mac_address"].JStr?
  {
    Cred(t.value["mac_address"].s, t.name)
  }

  /** The first record of one class whose login and password match. */
  function FindCred(ts: seq<Topic>, user: string, password: string): Option<Cred>
    requires CredScanDefined(ts, user, password)
    decreases |ts|
  {
    if ts == [] then None
    else if CredMatches(ts[0], user, password) then Some(CredOf(ts[0]))
    else FindCred(ts[1..], user, password)
  }

  predicate CredSearchDefined(c: Cache, classes: seq<string>, user: string, password: string)
    decreases |classes|
  {
    classes == [] ||
    (CredScanDefined(Records(c, classes[0]), user, password) &&
     (FindCred(Records(c, classes[0]), user, password).Some? || CredSearchDefined(c, classes[1..], user, password)))
  }

  /** The first matching record over the classes, taken in order. */
  function FindCredIn(c: Cache, classes: seq<string>, user: string, password: string): Option<Cred>
    requires CredSearchDefined(c, classes, user, password)
    decreases |classes|
  {
    if classes == [] then None
    else
      var r := FindCred(Records(c, classes[0]), user, password);
      if r.Some? then r else FindCredIn(c, classes[1..], user, password)
  }

  /** `value.mac_address == mac`: a non-string MAC never matches. */
  predicate MacMatches(t: Topic, mac: string)
  {
    Lookup(t.value, "mac_address") == Some(JStr(mac))
  }

  /** The first record of one class with that MAC. */
  function FindByMac(ts: seq<Topic>, mac: string): Option<Topic>
    decreases |ts|
  {
    if ts == [] then None
    else if MacMatches(ts[0], mac) then Some(ts[0])
    else FindByMac(ts[1..], mac)
  }

  /** The first record with that MAC over the classes, taken in order. */
  function FindByMacIn(c: Cache, classes: seq<string>, mac: string): Option<Topic>
    decreases |classes|
  {
    if classes == [] then None
    else
      var r := FindByMac(Records(c, classes[0]), mac);
      if r.Some? then r else FindByMacIn(c, classes[1..], mac)
  }

  // ---------------------------------------------------------------- cache events

  datatype DhtCommand = ActuatorCommand(value: Json) | ValveCommand(value: Json)

  /**
   * What `handle_volatile_command` makes of a message: a command for the main
   * loop, a command handed to the command parser, or an error.
   */
  datatype Classified =
    | Command(cmd: DhtCommand)
    | Delegated(commandType: string, command: Json)
    | NotParsed

  /** The command types handed to the command parser. */
  const DelegatedTypes: set<string> := {"turn_command", "valve_command", "dim_command", "rgbw_command", "shutter_command"}

  /** `handle_volatile_command`: classification by the message's `command.command_type`. */
  function HandleVolatileCommand(message: Json): (r: Classified)
    ensures var inner := FieldOpt(message, "command");
            var ty := if inner.Some? then FieldOpt(inner.value, "command_type") else None;
            var val := if inner.Some? then FieldOpt(inner.value, "value") else None;
            && (r.Command? && r.cmd.ActuatorCommand? <==> ty == Some(JStr("shelly_actuator_command")) && val.Some?)
            && (r.Command? && r.cmd.ValveCommand? <==> ty == Some(JStr("radiator_valve_command")) && val.Some?)
            && (r.Command? ==> val == Some(r.cmd.value))
            && (r.Delegated? <==> ty.Some? && ty.value.JStr? && ty.value.s in DelegatedTypes)
            && (r.Delegated? ==> inner == Some(r.command) && ty == Some(JStr(r.commandType)))
  {
    match FieldOpt(message, "command")
    case None => NotParsed
    case Some(command) =>
      match FieldOpt(command, "command_type")
      case None => NotParsed
      case Some(commandType) =>
        var value := FieldOpt(command, "value");
        if commandType == JStr("shelly_actuator_command") && value.Some? then Command(ActuatorCommand(value.value))
        else if commandType == JStr("radiator_valve_command") && value.Some? then Command(ValveCommand(value.value))
        else if commandType.JStr? && commandType.s in DelegatedTypes then Delegated(commandType.s, command)
        else NotParsed
  }

  /**
   * `command_parser::handle_*_command`, which the bridge does not define: from
   * the cache, the command type and the message's `command` object to a
   * command, or to an error.
   */
  type CommandParser = (Cache, string, Json) -> Option<DhtCommand>

  /**
   * `handle_volatile_command`'s result: the command the classification
   * yields, with the delegated types resolved by the command parser.
   */
  function VolatileCommand(message: Json, c: Cache, parser: CommandParser): (r: Option<DhtCommand>)
    ensures var inner := FieldOpt(message, "command");
            var ty := if inner.Some? then FieldOpt(inner.value, "command_type") else None;
            var val := if inner.Some? then FieldOpt(inner.value, "value") else None;
            && (ty == Some(JStr("shelly_actuator_command")) && val.Some? ==> r == Some(ActuatorCommand(val.value)))
            && (ty == Some(JStr("radiator_valve_command")) && val.Some? ==> r == Some(ValveCommand(val.value)))
            && (ty.Some? && ty.value.JStr? && ty.value.s in DelegatedTypes ==> r == parser(c, ty.value.s, inner.value))
            && (r.Some? ==> ty.Some? && ty.value.JStr? &&
                              (ty.value.s in DelegatedTypes ||
                               (ty.value.s in {"shelly_actuator_command", "radiator_valve_command"} && val.Some?)))
  {
    match HandleVolatileCommand(message)
    case Command(cmd) => Some(cmd)
    case Delegated(commandType, command) => parser(c, commandType, command)
    case NotParsed => None
  }

  /** An event the cache reports: a volatile message, or a change of a persistent topic. */
  datatype DomoEvent =
    | VolatileData(message: Json)
    | PersistentData(topicName: string, topicUuid: string, value: Fields)

  // ---------------------------------------------------------------- the manager

  class DhtManager {
    var cache: Cache
    var actuatorsIndex: map<string, seq<ConnElem>>

    constructor (cache: Cache)
      ensures this.cache == cache && actuatorsIndex == map[]
    {
      this.cache := cache;
      actuatorsIndex := map[];
    }

    /**
     * `build_actuators_index`: clear the index, then file every complete
     * connection record; the result does not depend on the previous index.
     */
    method BuildActuatorsIndex()
      requires ConnectionsWellTyped(Records(cache, ConnectionTopic))
      modifies this
      ensures cache == old(cache)
      ensures actuatorsIndex == BuildIndex(Records(cache, ConnectionTopic))
    {
      actuatorsIndex := map[];
      var connections := Records(cache, ConnectionTopic);
      var i := 0;
      while i < |connections|
        invariant 0 <= i <= |connections|
        invariant cache == old(cache)
        invariant ConnectionsWellTyped(connections[..i])
        invariant actuatorsIndex == BuildIndex(connections[..i])
      {
        var conn := connections[i];
        if Complete(conn) {
          var k := IndexKey(conn.value["target_topic_name"].s, conn.value["target_topic_uuid"].s);
          var c := ConnElem(conn.value["source_topic_name"].s, conn.uuid, conn.value["target_channel_number"].i);
          assert k == KeyOf(conn) && c == EdgeOf(conn);
          if k in actuatorsIndex {
            actuatorsIndex := actuatorsIndex[k := actuatorsIndex[k] + [c]];
          } else {
            assert Edges(actuatorsIndex, k) + [c] == [c];
            actuatorsIndex := actuatorsIndex[k := [c]];
          }
        }
        assert connections[..i + 1][..i] == connections[..i];
        assert BuildIndex(connections[..i + 1]) == AddConnection(BuildIndex(connections[..i]), conn);
        i := i + 1;
      }
      assert connections[..i] == connections;
    }

    /**
     * `update_actuator_connections(topic_name, topic_uuid, actuator_topic)`:
     * transform and write back every logical topic the updated actuator feeds.
     */
    method UpdateActuatorConnections(parse: string -> Option<Json>, topicName: string, topicUuid: string,
                                     report: Fields) returns (writes: seq<Write>)
      requires CascadeDefined(cache, Edges(actuatorsIndex, IndexKey(topicName, topicUuid)), report, topicName)
      modifies this
      ensures actuatorsIndex == old(actuatorsIndex)
      ensures (cache, writes) ==
              Cascade(old(cache), parse, Edges(old(actuatorsIndex), IndexKey(topicName, topicUuid)), report, topicName)
    {
      var k := IndexKey(topicName, topicUuid);
      writes := [];
      if k in actuatorsIndex {
        var c;
        c, writes := TransformAll(cache, parse, actuatorsIndex[k], report, topicName);
        cache := c;
      }
    }

    /** The loop of `update_actuator_connections` over the edges of one key, on a cache value. */
    static method TransformAll(c0: Cache, parse: string -> Option<Json>, conns: seq<ConnElem>, report: Fields,
                               topicName: string) returns (c: Cache, writes: seq<Write>)
      requires CascadeDefined(c0, conns, report, topicName)
      ensures (c, writes) == Cascade(c0, parse, conns, report, topicName)
    {
      c, writes := c0, [];
      ghost var total := Cascade(c0, parse, conns, report, topicName);
      var i := 0;
      while i < |conns|
        invariant 0 <= i <= |conns|
        invariant CascadeRemains(c, parse, conns[i..], report, topicName, writes, total)
      {
        CascadeStep(c, parse, conns, i, report, topicName, writes, total);
        var e := conns[i];
        var t := TransformEdge(c, parse, e, report, topicName);
        c, writes :=
          (if t.Ok? then WriteValue(c, e.sourceTopicName, e.sourceTopicUuid, t.value) else c),
          (if t.Ok? then writes + [Write(e.sourceTopicName, e.sourceTopicUuid, t.value)] else writes);
        i := i + 1;
      }
      assert conns[i..] == [];
      assert writes + [] == writes;
    }

    /** `write_topic`: overwrite one topic's value. */
    method WriteTopic(topicName: string, topicUuid: string, value: Fields)
      modifies this
      ensures actuatorsIndex == old(actuatorsIndex)
      ensures cache == WriteValue(old(cache), topicName, topicUuid, value)
    {
      cache := WriteValue(cache, topicName, topicUuid, value);
    }

    /** `get_auth_cred`: the first shelly-plus record holding these credentials. */
    method GetAuthCred(user: string, password: string) returns (r: Option<Cred>)
      requires CredSearchDefined(cache, CredClasses, user, password)
      ensures r == FindCredIn(cache, CredClasses, user, password)
    {
      var classes := CredClasses;
      var n := 0;
      while n < |classes|
        invariant 0 <= n <= |classes|
        invariant CredSearchDefined(cache, classes[n..], user, password)
        invariant FindCredIn(cache, classes[n..], user, password) == FindCredIn(cache, classes, user, password)
      {
        assert classes[n..][1..] == classes[n + 1..];
        var topics := Records(cache, classes[n]);
        var i := 0;
        while i < |topics|
          invariant 0 <= i <= |topics|
          invariant CredScanDefined(topics[i..], user, password)
          invariant FindCred(topics[i..], user, password) == FindCred(topics, user, password)
        {
          assert topics[i..][1..] == topics[i + 1..];
          var t := topics[i];
          if HasCredentials(t) {
            var login := t.value["user_login"].s;
            var pass := t.value["user_password"].s;
            if login == user && pass == password {
              r := Some(Cred(t.value["mac_address"].s, t.name));
              return;
            }
          }
          i := i + 1;
        }
        n := n + 1;
      }
      r := None;
    }

    /** `get_topic(topic_name, mac_address)`: the first record of a class with that MAC. */
    method GetTopic(topicName: string, macAddress: string) returns (r: Option<Topic>)
      ensures r == FindByMac(Records(cache, topicName), macAddress)
    {
      var actuators := Records(cache, topicName);
      var i := 0;
      while i < |actuators|
        invariant 0 <= i <= |actuators|
        invariant FindByMac(actuators[i..], macAddress) == FindByMac(actuators, macAddress)
      {
        assert actuators[i..][1..] == actuators[i + 1..];
        if "mac_address" in actuators[i].value && actuators[i].value["mac_address"] == JStr(macAddress) {
          return Some(actuators[i]);
        }
        i := i + 1;
      }
      r := None;
    }

    /** `get_actuator_from_mac_address`: the first record with that MAC over the twelve device classes. */
    method GetActuatorFromMacAddress(macAddress: string) returns (r: Option<Topic>)
      ensures r == FindByMacIn(cache, ActuatorClasses, macAddress)
    {
      r := FirstWithMac(ActuatorClasses, macAddress);
    }

    /** The search loop of `get_actuator_from_mac_address`, over a list of classes. */
    method FirstWithMac(classes: seq<string>, macAddress: string) returns (r: Option<Topic>)
      ensures r == FindByMacIn(cache, classes, macAddress)
    {
      var n := 0;
      while n < |classes|
        invariant 0 <= n <= |classes|
        invariant FindByMacIn(cache, classes[n..], macAddress) == FindByMacIn(cache, classes, macAddress)
      {
        assert classes[n..][1..] == classes[n + 1..];
        var actuators := Records(cache, classes[n]);
        var i := 0;
        while i < |actuators|
          invariant 0 <= i <= |actuators|
          invariant FindByMac(actuators[i..], macAddress) == FindByMac(actuators, macAddress)
        {
          assert actuators[i..][1..] == actuators[i + 1..];
          if "mac_address" in actuators[i].value && actuators[i].value["mac_address"] == JStr(macAddress) {
            return Some(actuators[i]);
          }
          i := i + 1;
        }
        n := n + 1;
      }
      r := None;
    }

    /**
     * `wait_dht_messages` for one cache event: a volatile message yields its
     * command, if any; a persistent change on the connection class rebuilds the
     * index; every persistent event ends in an error.
     */
    method WaitDhtMessages(event: DomoEvent, parser: CommandParser) returns (r: Option<DhtCommand>)
      requires event.PersistentData? && event.topicName == ConnectionTopic ==>
                 ConnectionsWellTyped(Records(cache, ConnectionTopic))
      modifies this
      ensures cache == old(cache)
      ensures event.VolatileData? ==> r == VolatileCommand(event.message, cache, parser) && actuatorsIndex == old(actuatorsIndex)
      ensures event.PersistentData? ==> r.None?
      ensures event.PersistentData? && event.topicName == ConnectionTopic ==>
                actuatorsIndex == BuildIndex(Records(cache, ConnectionTopic))
      ensures event.PersistentData? && event.topicName != ConnectionTopic ==> actuatorsIndex == old(actuatorsIndex)
    {
      match event
      case VolatileData(m) =>
        r := VolatileCommand(m, cache, parser);
      case PersistentData(name, _, _) =>
        if name == ConnectionTopic {
          BuildActuatorsIndex();
        }
        r := None;
    }
  }
}
