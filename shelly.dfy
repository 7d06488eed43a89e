/**
 * The shelly handlers of main.rs: the status report of a shelly relay
 * (`handle_shelly_message`), and the periodic wifi check of the connected
 * shelly-plus relays (`check_shelly_esp32_wifi`).
 */
module Shelly {
  import opened Wrappers
  import opened JsonValue
  import opened DomoCache
  import opened Messages
  import opened Dht

  // ---------------------------------------------------------------- MAC formatting

  /** A 12-digit MAC (the first 12 characters) as six pairs joined by ':'. */
  function MacWithColons(mac: string): (r: string)
    requires |mac| >= 12
    ensures |r| == 17
  {
    mac[0..2] + ":" + mac[2..4] + ":" + mac[4..6] + ":" + mac[6..8] + ":" + mac[8..10] + ":" + mac[10..12]
  }

  /** The text with every ':' deleted. */
  function StripColons(s: string): (r: string)
    ensures |r| <= |s|
  {
    if s == [] then []
    else (if s[0] == ':' then [] else [s[0]]) + StripColons(s[1..])
  }

  lemma {:induction false} StripColonsAppend(a: string, b: string)
    ensures StripColons(a + b) == StripColons(a) + StripColons(b)
    decreases |a|
  {
    if a == [] {
      assert a + b == b;
    } else {
      assert (a + b)[0] == a[0];
      assert (a + b)[1..] == a[1..] + b;
      StripColonsAppend(a[1..], b);
    }
  }

  lemma {:induction false} StripColonsNone(s: string)
    requires ':' !in s
    ensures StripColons(s) == s
    decreases |s|
  {
    if s != [] {
      StripColonsNone(s[1..]);
    }
  }

  /** One separator and the colon-free pair after it. */
  lemma StripSeparator(x: string, p: string)
    requires ':' !in p
    ensures StripColons(x + ":" + p) == StripColons(x) + p
  {
    var xc := x + ":";
    assert StripColons(":") == [] by {
      assert ":"[1..] == [];
    }
    calc {
      StripColons(xc + p);
    == { StripColonsAppend(xc, p); }
      StripColons(xc) + StripColons(p);
    == { StripColonsAppend(x, ":"); StripColonsNone(p); }
      StripColons(x) + [] + p;
    == { assert StripColons(x) + [] == StripColons(x); }
      StripColons(x) + p;
    }
  }

  /**
   * The layout of the formatted MAC: pair `i` of the MAC sits at position
   * 3i, a ':' at position 3i + 2 for the five separators.
   */
  lemma MacLayout(mac: string)
    requires |mac| >= 12
    ensures var r := MacWithColons(mac);
            && (forall i | 0 <= i < 5 :: r[3 * i + 2] == ':')
            && (forall i | 0 <= i < 6 :: r[3 * i..3 * i + 2] == mac[2 * i..2 * i + 2])
  {
  }

  /** Deleting the colons gives back the first 12 characters of a colon-free MAC. */
  lemma MacRoundTrip(mac: string)
    requires |mac| >= 12 && ':' !in mac[..12]
    ensures StripColons(MacWithColons(mac)) == mac[..12]
  {
    var p0, p1, p2, p3, p4, p5 := mac[0..2], mac[2..4], mac[4..6], mac[6..8], mac[8..10], mac[10..12];
    assert ':' !in p0 && ':' !in p1 && ':' !in p2 && ':' !in p3 && ':' !in p4 && ':' !in p5 by {
      assert forall i | 0 <= i < 12 :: mac[..12][i] == mac[i];
    }
    var s1 := p0 + ":" + p1;
    var s2 := s1 + ":" + p2;
    var s3 := s2 + ":" + p3;
    var s4 := s3 + ":" + p4;
    var s5 := s4 + ":" + p5;
    assert s5 == MacWithColons(mac);
    StripColonsNone(p0);
    StripSeparator(p0, p1);
    StripSeparator(s1, p2);
    StripSeparator(s2, p3);
    StripSeparator(s3, p4);
    StripSeparator(s4, p5);
    assert mac[..12] == p0 + p1 + p2 + p3 + p4 + p5;
  }

  // ---------------------------------------------------------------- status reports

  /** The report inside a `propertyStatus` message, when there is one and it parses. */
  function StatusReport(message: Json, parse: string -> Option<Json>): Option<Json>
  {
    match FieldOpt(message, "messageType")
    case Some(JStr(t)) =>
      if t != "propertyStatus" then None
      else
        (match FieldOpt(message, "data")
         case Some(data) =>
           (match FieldOpt(data, "status")
            case Some(JStr(status)) => parse(status)
            case _ => None)
         case None => None)
    case _ => None
  }

  /**
   * The unwraps of `handle_shelly_message` before the cache lookup succeed:
   * `messageType` and `data.status` are strings, and a parsed report is an
   * object with a string `mac_address` of at least 12 characters and a
   * string `topic_name`.
   */
  predicate StatusMessageDefined(message: Json, parse: string -> Option<Json>)
  {
    && (FieldOpt(message, "messageType").Some? ==> FieldOpt(message, "messageType").value.JStr?)
    && (FieldOpt(message, "messageType") == Some(JStr("propertyStatus")) && FieldOpt(message, "data").Some? ==>
          (FieldOpt(FieldOpt(message, "data").value, "status").Some? ==>
             FieldOpt(FieldOpt(message, "data").value, "status").value.JStr?))
    && (StatusReport(message, parse).Some? ==>
          var r := StatusReport(message, parse).value;
          && r.JObj?
          && "mac_address" in r.fields && r.fields["mac_address"].JStr? && |r.fields["mac_address"].s| >= 12
          && "topic_name" in r.fields && r.fields["topic_name"].JStr?)
  }

  /** The unwraps on the stored value of the relay's topic succeed. */
  predicate StoredStatusDefined(stored: Fields)
  {
    && ("user_login" in stored ==> stored["user_login"].JStr?)
    && ("user_login" in stored && "user_password" in stored ==>
          && stored["user_password"].JStr?
          && ("mac_address" in stored ==>
                && stored["mac_address"].JStr?
                && ("id" in stored ==>
                      && ("area_name" in stored ==> stored["area_name"].JStr?)
                      && ("note" in stored ==> stored["note"].JStr?))))
  }

  /** The stored value holds what the merge needs: login, password, MAC and id. */
  predicate HasIdentity(stored: Fields)
  {
    "user_login" in stored && "user_password" in stored && "mac_address" in stored && "id" in stored
  }

  /**
   * The new value of the relay's topic: the report, with the stored area,
   * note, credentials, MAC and id carried over and a fresh timestamp; nothing
   * when the stored value lacks its identity.
   */
  function MergedStatus(report: Fields, stored: Fields, now: nat): (r: Option<Fields>)
    requires StoredStatusDefined(stored)
    ensures r.None? <==> !HasIdentity(stored)
    ensures r.Some? ==> report.Keys <= r.value.Keys && Get(r.value, "last_update_timestamp") == JInt(now)
  {
    if !HasIdentity(stored) then None
    else
      var withArea := if "area_name" in stored then report["area_name" := stored["area_name"]] else report;
      var withNote := if "note" in stored then withArea["note" := stored["note"]] else withArea;
      Some(withNote["user_login" := stored["user_login"]]["user_password" := stored["user_password"]]
                   ["mac_address" := stored["mac_address"]]["id" := stored["id"]]
                   ["last_update_timestamp" := JInt(now)])
  }

  /** The fields the merge sets from the stored value. */
  const CarriedFields: set<string> := {"area_name", "note", "user_login", "user_password", "mac_address", "id"}

  /**
   * The merge keeps every reported field it does not set, carries the stored
   * identity (and area and note when stored), and stamps the time; it fails
   * exactly when the stored identity is incomplete.
   */
  lemma MergeKeepsReport(report: Fields, stored: Fields, now: nat)
    requires StoredStatusDefined(stored)
    ensures MergedStatus(report, stored, now).None? <==> !HasIdentity(stored)
    ensures MergedStatus(report, stored, now).Some? ==>
              var v := MergedStatus(report, stored, now).value;
              && v.Keys == report.Keys + (CarriedFields * stored.Keys) + {"last_update_timestamp"}
              && (forall k | k in report && k !in CarriedFields && k != "last_update_timestamp" :: v[k] == report[k])
              && (forall k | k in CarriedFields && k in stored :: v[k] == stored[k])
              && v["last_update_timestamp"] == JInt(now)
  {
  }

  /** Everything `handle_shelly_message` reads from the cache is free of panics. */
  predicate ShellyMessageDefined(c: Cache, message: Json, parse: string -> Option<Json>)
  {
    && StatusMessageDefined(message, parse)
    && (StatusReport(message, parse).Some? ==>
          var r := StatusReport(message, parse).value.fields;
          var t := FindByMac(Records(c, r["topic_name"].s), MacWithColons(r["mac_address"].s));
          t.Some? ==> StoredStatusDefined(t.value.value))
  }

  /**
   * The write a status message leads to: the relay's topic is found by class
   * (`topic_name`) and colon-formatted MAC, and gets the merged value.
   */
  function ShellyWrite(c: Cache, message: Json, parse: string -> Option<Json>, now: nat): (w: Option<Write>)
    requires ShellyMessageDefined(c, message, parse)
    ensures StatusReport(message, parse).None? ==> w.None?
    ensures w.Some? ==>
              var r := StatusReport(message, parse).value.fields;
              var t := FindByMac(Records(c, r["topic_name"].s), MacWithColons(r["mac_address"].s));
              && t.Some?
              && w.value.topicName == r["topic_name"].s
              && w.value.topicUuid == t.value.uuid
              && MergedStatus(r, t.value.value, now) == Some(w.value.value)
  {
    match StatusReport(message, parse)
    case None => None
    case Some(report) =>
      var r := report.fields;
      var topicName := r["topic_name"].s;
      match FindByMac(Records(c, topicName), MacWithColons(r["mac_address"].s))
      case None => None
      case Some(t) =>
        match MergedStatus(r, t.value, now)
        case None => None
        case Some(v) => Some(Write(topicName, t.uuid, v))
  }

  // ---------------------------------------------------------------- the wifi check

  /** The `as_str().unwrap()` on a found relay's `wifi_ssid` succeeds. */
  predicate WifiDefined(c: Cache, acts: seq<string>)
  {
    forall i | 0 <= i < |acts| ::
      var t := FindByMacIn(c, ActuatorClasses, acts[i]);
      t.Some? && "wifi_ssid" in t.value.value ==> t.value.value["wifi_ssid"].JStr?
  }

  /** A found relay reports a `wifi_ssid` other than the configured one. */
  function WifiMismatch(c: Cache, act: string, ssid: string): bool
    requires var t := FindByMacIn(c, ActuatorClasses, act);
             t.Some? && "wifi_ssid" in t.value.value ==> t.value.value["wifi_ssid"].JStr?
  {
    var t := FindByMacIn(c, ActuatorClasses, act);
    t.Some? && "wifi_ssid" in t.value.value && t.value.value["wifi_ssid"].s != ssid
  }

  /** The mismatch flag of every relay of the list. */
  function WifiFlags(c: Cache, acts: seq<string>, ssid: string): (flags: seq<bool>)
    requires WifiDefined(c, acts)
    ensures |flags| == |acts|
    ensures forall i | 0 <= i < |acts| :: flags[i] == WifiMismatch(c, acts[i], ssid)
  {
    seq(|acts|, i requires 0 <= i < |acts| && WifiDefined(c, acts) => WifiMismatch(c, acts[i], ssid))
  }

  /** The `change_wifi` action sent to a mismatching relay; `toString` is `serde_json::to_string`. */
  function ChangeWifiCommand(act: string, ssid: string, password: string, toString: Json -> string): (cmd: Command)
    ensures cmd.commandType == Actuator && cmd.macAddress == act && cmd.actuatorMacAddress == ""
    ensures var action := Field(Field(Field(cmd.payload, "shelly_action"), "input"), "action");
            && Field(action, "action_name") == JStr("change_wifi")
            && Field(action, "action_payload") ==
               JStr(toString(JObj(map["wifi_ssid" := JStr(ssid), "wifi_password" := JStr(password)])))
  {
    var actionPayload := JObj(map["wifi_ssid" := JStr(ssid), "wifi_password" := JStr(password)]);
    var action := JObj(map["action_name" := JStr("change_wifi"), "action_payload" := JStr(toString(actionPayload))]);
    Command.Command(Actuator, act, "", JObj(map["shelly_action" := JObj(map["input" := JObj(map["action" := action])])]))
  }

  /** The commands of one check: one per flagged relay, in list order. */
  function WifiCommands(acts: seq<string>, flags: seq<bool>, ssid: string, password: string,
                        toString: Json -> string): seq<Command>
    requires |flags| == |acts|
    decreases |acts|
  {
    if acts == [] then []
    else
      var n := |acts| - 1;
      WifiCommands(acts[..n], flags[..n], ssid, password, toString)
      + (if flags[n] then [ChangeWifiCommand(acts[n], ssid, password, toString)] else [])
  }

  /** The commands for a prefix one entry longer. */
  lemma WifiCommandsSnoc(acts: seq<string>, flags: seq<bool>, k: nat, ssid: string, password: string,
                         toString: Json -> string)
    requires |flags| == |acts| && k < |acts|
    ensures WifiCommands(acts[..k + 1], flags[..k + 1], ssid, password, toString) ==
            WifiCommands(acts[..k], flags[..k], ssid, password, toString)
            + (if flags[k] then [ChangeWifiCommand(acts[k], ssid, password, toString)] else [])
  {
    assert acts[..k + 1][..k] == acts[..k] && flags[..k + 1][..k] == flags[..k];
  }

  /** Each command of a check goes to a flagged relay and asks it to join the configured network. */
  lemma {:induction false} WifiCommandsTargets(acts: seq<string>, flags: seq<bool>, ssid: string, password: string,
                                               toString: Json -> string)
    requires |flags| == |acts|
    ensures var cs := WifiCommands(acts, flags, ssid, password, toString);
            && |cs| == |FlaggedIndices(flags, 0)|
            && forall j | 0 <= j < |cs| :: cs[j] == ChangeWifiCommand(acts[FlaggedIndices(flags, 0)[j]], ssid, password, toString)
    decreases |acts|
  {
    if acts != [] {
      var n := |acts| - 1;
      WifiCommandsTargets(acts[..n], flags[..n], ssid, password, toString);
      FlaggedIndicesSnoc(flags, 0);
    }
  }

  /** The ascending indices of the flagged entries, from `from` on (`to_remove`). */
  function FlaggedIndices(flags: seq<bool>, from: nat): (r: seq<nat>)
    ensures forall i | 0 <= i < |r| :: from <= r[i] < |flags| && flags[r[i]]
    decreases |flags| - from
  {
    if from >= |flags| then []
    else (if flags[from] then [from] else []) + FlaggedIndices(flags, from + 1)
  }

  /** An index is collected exactly when its entry is flagged. */
  lemma {:induction false} FlaggedIndicesMembers(flags: seq<bool>, from: nat, j: int)
    ensures j in FlaggedIndices(flags, from) <==> from <= j < |flags| && flags[j]
    decreases |flags| - from
  {
    if from < |flags| {
      FlaggedIndicesMembers(flags, from + 1, j);
    }
  }

  /** `Vec::remove(i)`. */
  function RemoveAt(xs: seq<string>, i: nat): (r: seq<string>)
    requires i < |xs|
    ensures |r| == |xs| - 1
  {
    xs[..i] + xs[i + 1..]
  }

  /** Each `remove` of the sequence finds its index in range when its turn comes. */
  predicate RemovalInBounds(xs: seq<string>, idxs: seq<nat>)
    decreases |idxs|
  {
    idxs == [] || (idxs[0] < |xs| && RemovalInBounds(RemoveAt(xs, idxs[0]), idxs[1..]))
  }

  /** The removal loop as written: each index is removed from the list the earlier removals left. */
  function RemoveSequentially(xs: seq<string>, idxs: seq<nat>): seq<string>
    requires RemovalInBounds(xs, idxs)
    decreases |idxs|
  {
    if idxs == [] then xs else RemoveSequentially(RemoveAt(xs, idxs[0]), idxs[1..])
  }

  /** The evidently intended result: the list without the flagged relays, in list order. */
  function KeepUnflagged(xs: seq<string>, flags: seq<bool>): seq<string>
    requires |flags| == |xs|
    decreases |xs|
  {
    if xs == [] then []
    else
      var n := |xs| - 1;
      KeepUnflagged(xs[..n], flags[..n]) + (if flags[n] then [] else [xs[n]])
  }

  /** A relay stays listed exactly when some unflagged entry holds it. */
  lemma {:induction false} KeepUnflaggedMembers(xs: seq<string>, flags: seq<bool>, x: string)
    requires |flags| == |xs|
    ensures x in KeepUnflagged(xs, flags) <==> exists i :: 0 <= i < |xs| && xs[i] == x && !flags[i]
    decreases |xs|
  {
    if xs != [] {
      var n := |xs| - 1;
      KeepUnflaggedMembers(xs[..n], flags[..n], x);
      if x in KeepUnflagged(xs[..n], flags[..n]) {
        var i :| 0 <= i < n && xs[..n][i] == x && !flags[..n][i];
        assert xs[i] == x && !flags[i];
      }
      if exists i :: 0 <= i < |xs| && xs[i] == x && !flags[i] {
        var i :| 0 <= i < |xs| && xs[i] == x && !flags[i];
        if i < n {
          assert xs[..n][i] == x && !flags[..n][i];
        }
      }
    }
  }

  /** The kept relays are as many as the unflagged entries. */
  lemma {:induction false} KeepUnflaggedLength(xs: seq<string>, flags: seq<bool>)
    requires |flags| == |xs|
    ensures |KeepUnflagged(xs, flags)| + |FlaggedIndices(flags, 0)| == |xs|
    decreases |xs|
  {
    if xs != [] {
      var n := |xs| - 1;
      KeepUnflaggedLength(xs[..n], flags[..n]);
      FlaggedIndicesSnoc(flags, 0);
    }
  }

  /** The flagged indices of a list are those of its prefix, then possibly the last index. */
  lemma {:induction false} FlaggedIndicesSnoc(flags: seq<bool>, from: nat)
    requires from < |flags|
    ensures FlaggedIndices(flags, from) ==
            FlaggedIndices(flags[..|flags| - 1], from) + (if flags[|flags| - 1] then [|flags| - 1] else [])
    decreases |flags| - from
  {
    var n := |flags| - 1;
    if from < n {
      FlaggedIndicesSnoc(flags, from + 1);
      assert flags[..n][from] == flags[from];
    }
  }

  /**
   * The evidently intended removal: the relays whose index was collected
   * leave the list together, so no index goes stale.
   */
  method RetainUnflagged(acts: seq<string>, toRemove: seq<nat>, ghost flags: seq<bool>) returns (kept: seq<string>)
    requires |flags| == |acts| && toRemove == FlaggedIndices(flags, 0)
    ensures kept == KeepUnflagged(acts, flags)
  {
    kept := [];
    var i := 0;
    while i < |acts|
      invariant 0 <= i <= |acts|
      invariant kept == KeepUnflagged(acts[..i], flags[..i])
    {
      FlaggedIndicesMembers(flags, 0, i);
      if i !in toRemove {
        kept := kept + [acts[i]];
      }
      assert acts[..i + 1][..i] == acts[..i];
      assert flags[..i + 1][..i] == flags[..i];
      i := i + 1;
    }
    assert acts[..i] == acts && flags[..i] == flags;
  }

  /**
   * The removal loop as written (`for act in to_remove { remove(act) }`):
   * it panics unless every index is in range when its turn comes.
   */
  method RemoveInOrder(xs: seq<string>, idxs: seq<nat>) returns (ys: seq<string>)
    requires RemovalInBounds(xs, idxs)
    ensures ys == RemoveSequentially(xs, idxs)
  {
    ys := xs;
    var i := 0;
    while i < |idxs|
      invariant 0 <= i <= |idxs|
      invariant RemovalInBounds(ys, idxs[i..])
      invariant RemoveSequentially(ys, idxs[i..]) == RemoveSequentially(xs, idxs)
    {
      assert idxs[i..][0] == idxs[i] && idxs[i..][1..] == idxs[i + 1..];
      ys := ys[..idxs[i]] + ys[idxs[i] + 1..];
      i := i + 1;
    }
  }

  /**
   * Three relays of which the first two mismatch: the loop as written removes
   * index 0, then index 1 of the shortened list, which is the third relay; the
   * second relay stays although it was just told to change network.
   */
  lemma StaleIndexRemovesWrongRelay()
    ensures FlaggedIndices([true, true, false], 0) == [0, 1]
    ensures RemovalInBounds(["A", "B", "C"], [0, 1])
    ensures RemoveSequentially(["A", "B", "C"], [0, 1]) == ["B"]
    ensures KeepUnflagged(["A", "B", "C"], [true, true, false]) == ["C"]
  {
    assert RemoveAt(["A", "B", "C"], 0) == ["B", "C"];
    assert RemoveAt(["B", "C"], 1) == ["B"];
    assert FlaggedIndices([true, true, false], 2) == [];
    assert FlaggedIndices([true, true, false], 1) == [1];
    var xs, flags := ["A", "B", "C"], [true, true, false];
    assert xs[..2] == ["A", "B"] && flags[..2] == [true, true];
    assert ["A", "B"][..1] == ["A"] && [true, true][..1] == [true];
    assert ["A"][..0] == [] && [true][..0] == [];
    assert KeepUnflagged(["A"], [true]) == [];
    assert KeepUnflagged(["A", "B"], [true, true]) == [];
  }

  /** Two relays that both mismatch: the second `remove` is out of range (a panic). */
  lemma StaleIndexOutOfRange()
    ensures FlaggedIndices([true, true], 0) == [0, 1]
    ensures !RemovalInBounds(["A", "B"], [0, 1])
    ensures KeepUnflagged(["A", "B"], [true, true]) == []
  {
    assert RemoveAt(["A", "B"], 0) == ["B"];
    assert ["A", "B"][..1] == ["A"] && [true, true][..1] == [true];
    assert ["A"][..0] == [] && [true][..0] == [];
    assert KeepUnflagged(["A"], [true]) == [];
    assert FlaggedIndices([true, true], 1) == [1];
  }
}
