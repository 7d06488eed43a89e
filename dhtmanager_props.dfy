/** What the connection index, the write cascade and the lookups promise. */
module DhtProperties {
  import opened Wrappers
  import opened JsonValue
  import opened DomoCache
  import opened Transformer
  import opened TransformerProperties
  import opened Dht

  // ---------------------------------------------------------------- keys

  /** The first '-' of a key ends the topic name. */
  lemma DashPosition(n: string, u: string)
    requires '-' !in n
    ensures IndexKey(n, u)[|n|] == '-'
    ensures forall i | 0 <= i < |n| :: IndexKey(n, u)[i] != '-'
  {
    assert forall i | 0 <= i < |n| :: IndexKey(n, u)[i] == n[i];
  }

  /** Keys identify topics as long as topic names hold no '-' (device class names do not). */
  lemma IndexKeyInjective(n1: string, u1: string, n2: string, u2: string)
    requires '-' !in n1 && '-' !in n2
    ensures IndexKey(n1, u1) == IndexKey(n2, u2) <==> n1 == n2 && u1 == u2
  {
    if IndexKey(n1, u1) == IndexKey(n2, u2) {
      var k := IndexKey(n1, u1);
      assert |n1| == |n2| by {
        DashPosition(n1, u1);
        DashPosition(n2, u2);
      }
      assert n1 == k[..|n1|] == n2;
      assert u1 == k[|n1| + 1..] == u2;
    }
  }

  // ---------------------------------------------------------------- the rebuilt index

  /** An edge is under key `k` exactly when some complete record filed under `k` yields it. */
  lemma {:induction false} EdgesUnderMembership(rs: seq<Topic>, k: string, e: ConnElem)
    requires ConnectionsWellTyped(rs)
    ensures e in EdgesUnder(rs, k) <==>
            exists i :: 0 <= i < |rs| && Complete(rs[i]) && KeyOf(rs[i]) == k && EdgeOf(rs[i]) == e
    decreases |rs|
  {
    if rs != [] {
      EdgesUnderMembership(rs[1..], k, e);
      assert forall i :: 1 <= i < |rs| ==> rs[i] == rs[1..][i - 1];
      if e in EdgesUnder(rs[1..], k) {
        var j :| 0 <= j < |rs[1..]| && Complete(rs[1..][j]) && KeyOf(rs[1..][j]) == k && EdgeOf(rs[1..][j]) == e;
        assert rs[j + 1] == rs[1..][j];
      }
    }
  }

  /**
   * After a rebuild the index holds exactly the edges of the complete
   * records: an edge is filed under `k` iff a complete record with key `k`
   * yields it, whatever the index held before.
   */
  lemma IndexMembership(rs: seq<Topic>, k: string, e: ConnElem)
    requires ConnectionsWellTyped(rs)
    ensures e in Edges(BuildIndex(rs), k) <==>
            exists i :: 0 <= i < |rs| && Complete(rs[i]) && KeyOf(rs[i]) == k && EdgeOf(rs[i]) == e
  {
    IndexExact(rs, k);
    EdgesUnderMembership(rs, k, e);
  }

  /** A record missing one of the four fields is skipped; the others are indexed as without it. */
  lemma SkipIncomplete(a: seq<Topic>, t: Topic, b: seq<Topic>)
    requires ConnectionsWellTyped(a) && ConnectionsWellTyped(b) && !Complete(t)
    ensures ConnectionsWellTyped(a + [t] + b) && ConnectionsWellTyped(a + b)
    ensures BuildIndex(a + [t] + b) == BuildIndex(a + b)
  {
    assert ConnectionsWellTyped([t]);
    EdgesUnderAppend(a, [t], "");
    EdgesUnderAppend(a + [t], b, "");
    EdgesUnderAppend(a, b, "");
    var m1, m2 := BuildIndex(a + [t] + b), BuildIndex(a + b);
    forall k
      ensures (k in m1 <==> k in m2) && Edges(m1, k) == Edges(m2, k)
    {
      IndexExact(a + [t] + b, k);
      IndexExact(a + b, k);
      EdgesUnderAppend(a, [t], k);
      EdgesUnderAppend(a + [t], b, k);
      EdgesUnderAppend(a, b, k);
      assert [t][1..] == [];
      assert EdgesUnder([t], k) == [];
    }
    assert m1.Keys == m2.Keys;
  }

  /** Two identical complete records give the same edge twice, appended in record order. */
  lemma DuplicateRecords(rs: seq<Topic>, t: Topic)
    requires ConnectionsWellTyped(rs) && Complete(t) && ConnectionWellTyped(t)
    ensures ConnectionsWellTyped(rs + [t, t])
    ensures Edges(BuildIndex(rs + [t, t]), KeyOf(t)) == Edges(BuildIndex(rs), KeyOf(t)) + [EdgeOf(t), EdgeOf(t)]
  {
    var once := rs + [t];
    assert ConnectionsWellTyped(once);
    assert (rs + [t, t])[..|rs + [t, t]| - 1] == once;
    assert once[..|once| - 1] == rs;
  }

  // ---------------------------------------------------------------- the cascade

  /** The final cache of the cascade is the original cache with its writes applied in order. */
  lemma {:induction false} CascadeAppliesWrites(c: Cache, parse: string -> Option<Json>, edges: seq<ConnElem>,
                                                report: Fields, topicName: string)
    requires CascadeDefined(c, edges, report, topicName)
    ensures Cascade(c, parse, edges, report, topicName).0 ==
            ApplyWrites(c, Cascade(c, parse, edges, report, topicName).1)
    decreases |edges|
  {
    if edges != [] {
      var e := edges[0];
      CascadeCons(c, parse, edges, report, topicName);
      var t := TransformEdge(c, parse, e, report, topicName);
      if t.Ok? {
        var c' := WriteValue(c, e.sourceTopicName, e.sourceTopicUuid, t.value);
        CascadeAppliesWrites(c', parse, edges[1..], report, topicName);
        var ws := Cascade(c, parse, edges, report, topicName).1;
        assert ws[0] == Write(e.sourceTopicName, e.sourceTopicUuid, t.value);
        assert ws[1..] == Cascade(c', parse, edges[1..], report, topicName).1;
      } else {
        CascadeAppliesWrites(c, parse, edges[1..], report, topicName);
      }
    }
  }

  /** An absent key has no edges, so the cascade writes nothing. */
  lemma AbsentKeyNoWrites(c: Cache, parse: string -> Option<Json>, index: map<string, seq<ConnElem>>,
                          topicName: string, topicUuid: string, report: Fields)
    requires IndexKey(topicName, topicUuid) !in index
    ensures CascadeDefined(c, Edges(index, IndexKey(topicName, topicUuid)), report, topicName)
    ensures Cascade(c, parse, Edges(index, IndexKey(topicName, topicUuid)), report, topicName) == (c, [])
  {
  }

  function Address(w: Write): (string, string)
  {
    (w.topicName, w.topicUuid)
  }

  function Source(e: ConnElem): (string, string)
  {
    (e.sourceTopicName, e.sourceTopicUuid)
  }

  /** The topics the writes go to, in order. */
  function Addresses(ws: seq<Write>): (r: seq<(string, string)>)
    ensures |r| == |ws|
  {
    if ws == [] then [] else [Address(ws[0])] + Addresses(ws[1..])
  }

  /** The logical topics the edges feed, in order. */
  function Sources(edges: seq<ConnElem>): (r: seq<(string, string)>)
    ensures |r| == |edges|
  {
    if edges == [] then [] else [Source(edges[0])] + Sources(edges[1..])
  }

  /** `a` is `b` with some elements left out, order kept. */
  predicate IsSubsequence<T(==)>(a: seq<T>, b: seq<T>)
    decreases |b|
  {
    if a == [] then true
    else if b == [] then false
    else (a[0] == b[0] && IsSubsequence(a[1..], b[1..])) || IsSubsequence(a, b[1..])
  }

  /**
   * Every write of the cascade goes to the logical topic of one edge, and
   * the writes follow the edge order: their addresses are a subsequence of
   * the edges' sources.
   */
  lemma {:induction false} CascadeFollowsEdges(c: Cache, parse: string -> Option<Json>, edges: seq<ConnElem>,
                                               report: Fields, topicName: string)
    requires CascadeDefined(c, edges, report, topicName)
    ensures IsSubsequence(Addresses(Cascade(c, parse, edges, report, topicName).1), Sources(edges))
    decreases |edges|
  {
    if edges != [] {
      var e := edges[0];
      CascadeCons(c, parse, edges, report, topicName);
      var t := TransformEdge(c, parse, e, report, topicName);
      var ws := Cascade(c, parse, edges, report, topicName).1;
      if t.Ok? {
        var c' := WriteValue(c, e.sourceTopicName, e.sourceTopicUuid, t.value);
        CascadeFollowsEdges(c', parse, edges[1..], report, topicName);
        var rest := Cascade(c', parse, edges[1..], report, topicName).1;
        assert ws[1..] == rest;
        assert Addresses(ws)[0] == Sources(edges)[0];
      } else {
        CascadeFollowsEdges(c, parse, edges[1..], report, topicName);
      }
    }
  }

  /** The writes each edge would produce against the original cache, taken independently. */
  function IndependentWrites(c: Cache, parse: string -> Option<Json>, edges: seq<ConnElem>,
                             report: Fields, topicName: string): seq<Write>
    requires CascadeDefined(c, edges, report, topicName)
    decreases |edges|
  {
    if edges == [] then []
    else
      var e := edges[0];
      (match TransformEdge(c, parse, e, report, topicName)
       case Ok(v) => [Write(e.sourceTopicName, e.sourceTopicUuid, v)]
       case Err(_) => [])
      + IndependentWrites(c, parse, edges[1..], report, topicName)
  }

  predicate DistinctSources(edges: seq<ConnElem>)
  {
    forall i, j | 0 <= i < j < |edges| :: Source(edges[i]) != Source(edges[j])
  }

  /** Independent transforms only see the stored values of their own sources. */
  lemma {:induction false} IndependentFrame(c1: Cache, c2: Cache, parse: string -> Option<Json>,
                                            edges: seq<ConnElem>, report: Fields, topicName: string)
    requires CascadeDefined(c1, edges, report, topicName)
    requires forall i | 0 <= i < |edges| ::
               GetTopicUuid(c1, edges[i].sourceTopicName, edges[i].sourceTopicUuid) ==
               GetTopicUuid(c2, edges[i].sourceTopicName, edges[i].sourceTopicUuid)
    ensures CascadeDefined(c2, edges, report, topicName)
    ensures IndependentWrites(c1, parse, edges, report, topicName) == IndependentWrites(c2, parse, edges, report, topicName)
    decreases |edges|
  {
    if edges != [] {
      IndependentFrame(c1, c2, parse, edges[1..], report, topicName);
    }
  }

  /**
   * When no two edges feed the same logical topic, the order of the cascade
   * does not matter: each write is what its edge's transform gives against
   * the cache as it stood before the update.
   */
  lemma {:induction false} CascadeDistinctSources(c: Cache, parse: string -> Option<Json>, edges: seq<ConnElem>,
                                                  report: Fields, topicName: string)
    requires CascadeDefined(c, edges, report, topicName)
    requires DistinctSources(edges)
    ensures Cascade(c, parse, edges, report, topicName).1 == IndependentWrites(c, parse, edges, report, topicName)
    decreases |edges|
  {
    if edges != [] {
      var e := edges[0];
      CascadeCons(c, parse, edges, report, topicName);
      var t := TransformEdge(c, parse, e, report, topicName);
      var rest := edges[1..];
      assert DistinctSources(rest) by {
        forall i, j | 0 <= i < j < |rest| ensures Source(rest[i]) != Source(rest[j]) {
          assert rest[i] == edges[i + 1] && rest[j] == edges[j + 1];
        }
      }
      if t.Ok? {
        var c' := WriteValue(c, e.sourceTopicName, e.sourceTopicUuid, t.value);
        CascadeDistinctSources(c', parse, rest, report, topicName);
        forall i | 0 <= i < |rest|
          ensures GetTopicUuid(c', rest[i].sourceTopicName, rest[i].sourceTopicUuid) ==
                  GetTopicUuid(c, rest[i].sourceTopicName, rest[i].sourceTopicUuid)
        {
          assert rest[i] == edges[i + 1];
          assert Source(edges[0]) != Source(edges[i + 1]);
          ReadAfterWrite(c, e.sourceTopicName, e.sourceTopicUuid, t.value, rest[i].sourceTopicName, rest[i].sourceTopicUuid);
        }
        IndependentFrame(c', c, parse, rest, report, topicName);
      } else {
        CascadeDistinctSources(c, parse, rest, report, topicName);
      }
    }
  }

  /**
   * Duplicate edges count energy twice: two identical edges into an
   * energy-accumulating topic add the reported delta two times.
   */
  lemma DuplicateEdgeCountsTwice(c: Cache, parse: string -> Option<Json>, e: ConnElem,
                                 report: Fields, topicName: string)
    requires AccumulatesEnergy(ClassOf(e.sourceTopicName), topicName)
    requires ReportDefined(ClassOf(e.sourceTopicName), topicName, NatToString(e.targetChannelNumber), report)
    requires TransformEdge(c, parse, e, report, topicName).Ok?
    ensures CascadeDefined(c, [e, e], report, topicName)
    ensures var ws := Cascade(c, parse, [e, e], report, topicName).1;
            var d := AsF64(EnergyField(ClassOf(e.sourceTopicName), e.targetChannelNumber, report)).value;
            && |ws| == 2
            && Lookup(ws[1].value, "energy") ==
               Some(JFloat(EnergyOf(GetTopicUuid(c, e.sourceTopicName, e.sourceTopicUuid).value) + d + d))
  {
    TransformTwice(c, parse, e, report, topicName);
    CascadeOfTwin(c, parse, e, report, topicName);
  }

  /** Two copies of one edge: both transforms succeed, so the cascade writes twice, the second against the first write. */
  lemma CascadeOfTwin(c: Cache, parse: string -> Option<Json>, e: ConnElem, report: Fields, topicName: string)
    requires ReportDefined(ClassOf(e.sourceTopicName), topicName, NatToString(e.targetChannelNumber), report)
    requires TransformEdge(c, parse, e, report, topicName).Ok?
    requires TransformEdge(WriteValue(c, e.sourceTopicName, e.sourceTopicUuid, TransformEdge(c, parse, e, report, topicName).value),
                           parse, e, report, topicName).Ok?
    ensures CascadeDefined(c, [e, e], report, topicName)
    ensures var c1 := WriteValue(c, e.sourceTopicName, e.sourceTopicUuid, TransformEdge(c, parse, e, report, topicName).value);
            Cascade(c, parse, [e, e], report, topicName).1 ==
            [Write(e.sourceTopicName, e.sourceTopicUuid, TransformEdge(c, parse, e, report, topicName).value),
             Write(e.sourceTopicName, e.sourceTopicUuid, TransformEdge(c1, parse, e, report, topicName).value)]
  {
    var name, uuid := e.sourceTopicName, e.sourceTopicUuid;
    var v1 := TransformEdge(c, parse, e, report, topicName).value;
    var c1 := WriteValue(c, name, uuid, v1);
    assert Cascade(c, parse, [e, e], report, topicName).1 ==
           [Write(name, uuid, v1)] + Cascade(c1, parse, [e], report, topicName).1 by {
      CascadeCons(c, parse, [e, e], report, topicName);
      assert [e, e][1..] == [e];
    }
    assert Cascade(c1, parse, [e], report, topicName).1 ==
           [Write(name, uuid, TransformEdge(c1, parse, e, report, topicName).value)] by {
      CascadeCons(c1, parse, [e], report, topicName);
      assert [e][1..] == [];
    }
  }

  /** The same edge transformed again after its first result is written back adds the delta again. */
  lemma TransformTwice(c: Cache, parse: string -> Option<Json>, e: ConnElem, report: Fields, topicName: string)
    requires AccumulatesEnergy(ClassOf(e.sourceTopicName), topicName)
    requires ReportDefined(ClassOf(e.sourceTopicName), topicName, NatToString(e.targetChannelNumber), report)
    requires TransformEdge(c, parse, e, report, topicName).Ok?
    ensures var c1 := WriteValue(c, e.sourceTopicName, e.sourceTopicUuid, TransformEdge(c, parse, e, report, topicName).value);
            var t2 := TransformEdge(c1, parse, e, report, topicName);
            var d := AsF64(EnergyField(ClassOf(e.sourceTopicName), e.targetChannelNumber, report)).value;
            && t2.Ok?
            && "energy" in t2.value
            && t2.value["energy"] == JFloat(EnergyOf(GetTopicUuid(c, e.sourceTopicName, e.sourceTopicUuid).value) + d + d)
  {
    var name, uuid, ch := e.sourceTopicName, e.sourceTopicUuid, e.targetChannelNumber;
    var stored := GetTopicUuid(c, name, uuid).value;
    var d := AsF64(EnergyField(ClassOf(name), ch, report)).value;
    var v1 := TransformEdge(c, parse, e, report, topicName).value;
    assert EnergyOf(v1) == EnergyOf(stored) + d by {
      EnergyIsAdditive(c, parse, name, uuid, ch, report, topicName);
    }
    var c1 := WriteValue(c, name, uuid, v1);
    assert GetTopicUuid(c1, name, uuid) == Some(v1) by {
      ReadAfterWrite(c, name, uuid, v1, name, uuid);
    }
    OutcomeIgnoresStored(ClassOf(name), stored, v1, report, ch, topicName, parse);
    EnergyIsAdditive(c1, parse, name, uuid, ch, report, topicName);
    assert "energy" in WrittenFields(ClassOf(name), topicName, ch);
  }

  /**
   * The scenario of a light fed by a single relay: one connection record
   * declares that channel 1 of shelly_1 "U1" feeds the domo_light topic
   * carrying the record's uuid; a report with `output1: true` writes
   * `status: true` to that light and nothing else.
   */
  lemma LightFedByRelay(c: Cache, parse: string -> Option<Json>, light: string, stored: Fields)
    requires Records(c, ConnectionTopic) ==
             [Topic(ConnectionTopic, light, map[
               "source_topic_name" := JStr("domo_light"), "target_topic_name" := JStr("shelly_1"),
               "target_topic_uuid" := JStr("U1"), "target_channel_number" := JInt(1)])]
    requires GetTopicUuid(c, "domo_light", light) == Some(stored)
    ensures var report := map["output1" := JBool(true), "updated_properties" := JArr([JStr("output1")])];
            var edges := Edges(BuildIndex(Records(c, ConnectionTopic)), IndexKey("shelly_1", "U1"));
            && CascadeDefined(c, edges, report, "shelly_1")
            && Cascade(c, parse, edges, report, "shelly_1").1 ==
               [Write("domo_light", light, stored["status" := JBool(true)]["updated_properties" := JArr([])])]
  {
    var report := map["output1" := JBool(true), "updated_properties" := JArr([JStr("output1")])];
    var e := ConnElem("domo_light", light, 1);
    SingleConnectionIndex(Records(c, ConnectionTopic), light);
    SingleRelayReport(c, parse, light, stored, report);
    CascadeCons(c, parse, [e], report, "shelly_1");
    assert [e][1..] == [];
  }

  /** The index built from the single connection record of the scenario. */
  lemma SingleConnectionIndex(rs: seq<Topic>, light: string)
    requires rs == [Topic(ConnectionTopic, light, map[
               "source_topic_name" := JStr("domo_light"), "target_topic_name" := JStr("shelly_1"),
               "target_topic_uuid" := JStr("U1"), "target_channel_number" := JInt(1)])]
    ensures ConnectionsWellTyped(rs)
    ensures Edges(BuildIndex(rs), IndexKey("shelly_1", "U1")) == [ConnElem("domo_light", light, 1)]
  {
    var t := rs[0];
    assert rs[..0] == [];
    assert IsU64(JInt(1));
    assert ConnectionWellTyped(t) && Complete(t);
    assert KeyOf(t) == IndexKey("shelly_1", "U1") && EdgeOf(t) == ConnElem("domo_light", light, 1);
    assert BuildIndex(rs) == AddConnection(BuildIndex([]), t);
  }

  /** The relay rule on the scenario's report. */
  lemma SingleRelayReport(c: Cache, parse: string -> Option<Json>, light: string, stored: Fields, report: Fields)
    requires GetTopicUuid(c, "domo_light", light) == Some(stored)
    requires report == map["output1" := JBool(true), "updated_properties" := JArr([JStr("output1")])]
    ensures ReportDefined(Relay, "shelly_1", NatToString(1), report)
    ensures TransformEdge(c, parse, ConnElem("domo_light", light, 1), report, "shelly_1") ==
            Ok(stored["status" := JBool(true)]["updated_properties" := JArr([])])
  {
    assert NatToString(1) == "1";
    assert ClassOf("domo_light") == Relay;
    assert UpdatedProps(report) == [JStr("output1")];
    assert "output" + NatToString(1) == "output1";
    assert Get(report, "output1") == JBool(true);
    assert TransformEdge(c, parse, ConnElem("domo_light", light, 1), report, "shelly_1") ==
           ApplyRule(Relay, stored, report, 1, "shelly_1", parse);
    assert RenameProps([JStr("output1")], "1") == [] by {
      assert JStr("output1") != JStr("power1") && JStr("output1") != JStr("energy1");
      assert [JStr("output1")][1..] == [];
    }
  }

  // ---------------------------------------------------------------- lookups

  /** The MAC lookup in one class gives the first record with that MAC, and misses only when none has it. */
  lemma {:induction false} FindByMacFirst(ts: seq<Topic>, mac: string)
    ensures FindByMac(ts, mac).None? <==> forall i | 0 <= i < |ts| :: !MacMatches(ts[i], mac)
    ensures FindByMac(ts, mac).Some? ==>
              exists i :: 0 <= i < |ts| && FindByMac(ts, mac) == Some(ts[i]) && MacMatches(ts[i], mac) &&
                          forall j | 0 <= j < i :: !MacMatches(ts[j], mac)
    decreases |ts|
  {
    if ts != [] {
      FindByMacFirst(ts[1..], mac);
      assert forall i :: 1 <= i < |ts| ==> ts[i] == ts[1..][i - 1];
      if !MacMatches(ts[0], mac) && FindByMac(ts[1..], mac).Some? {
        var i :| 0 <= i < |ts[1..]| && FindByMac(ts[1..], mac) == Some(ts[1..][i]) && MacMatches(ts[1..][i], mac) &&
                 forall j | 0 <= j < i :: !MacMatches(ts[1..][j], mac);
        assert FindByMac(ts, mac) == Some(ts[i + 1]);
        assert forall j | 0 <= j < i + 1 :: !MacMatches(ts[j], mac) by {
          forall j | 0 <= j < i + 1 ensures !MacMatches(ts[j], mac) {
            if j > 0 { assert ts[j] == ts[1..][j - 1]; }
          }
        }
      }
    }
  }

  /**
   * The search over classes takes the classes in order: it answers with the
   * first class that holds the MAC, and misses only when no class does.
   */
  lemma {:induction false} FindByMacInFirst(c: Cache, classes: seq<string>, mac: string)
    ensures FindByMacIn(c, classes, mac).None? <==>
            forall n | 0 <= n < |classes| :: FindByMac(Records(c, classes[n]), mac).None?
    ensures FindByMacIn(c, classes, mac).Some? ==>
              exists n :: 0 <= n < |classes| && FindByMacIn(c, classes, mac) == FindByMac(Records(c, classes[n]), mac) &&
                          forall m | 0 <= m < n :: FindByMac(Records(c, classes[m]), mac).None?
    decreases |classes|
  {
    if classes != [] {
      FindByMacInFirst(c, classes[1..], mac);
      assert forall n :: 1 <= n < |classes| ==> classes[n] == classes[1..][n - 1];
      if FindByMac(Records(c, classes[0]), mac).None? && FindByMacIn(c, classes[1..], mac).Some? {
        var n :| 0 <= n < |classes[1..]| &&
                 FindByMacIn(c, classes[1..], mac) == FindByMac(Records(c, classes[1..][n]), mac) &&
                 forall m | 0 <= m < n :: FindByMac(Records(c, classes[1..][m]), mac).None?;
        assert classes[n + 1] == classes[1..][n];
        forall m | 0 <= m < n + 1 ensures FindByMac(Records(c, classes[m]), mac).None? {
          if m > 0 { assert classes[m] == classes[1..][m - 1]; }
        }
      }
    }
  }

  /**
   * The credential lookup in one class gives the MAC and topic of the first
   * record whose login and password both match, and misses only when none does.
   */
  lemma {:induction false} FindCredFirst(ts: seq<Topic>, user: string, password: string)
    requires CredScanDefined(ts, user, password)
    ensures FindCred(ts, user, password).None? <==> forall i | 0 <= i < |ts| :: !CredMatches(ts[i], user, password)
    ensures FindCred(ts, user, password).Some? ==>
              exists i :: 0 <= i < |ts| && CredMatches(ts[i], user, password) &&
                          "mac_address" in ts[i].value && ts[i].value["mac_address"].JStr? &&
                          FindCred(ts, user, password) == Some(CredOf(ts[i])) &&
                          forall j | 0 <= j < i :: !CredMatches(ts[j], user, password)
    decreases |ts|
  {
    if ts != [] && !CredMatches(ts[0], user, password) {
      FindCredFirst(ts[1..], user, password);
      assert forall i :: 1 <= i < |ts| ==> ts[i] == ts[1..][i - 1];
      if FindCred(ts[1..], user, password).Some? {
        var i :| 0 <= i < |ts[1..]| && CredMatches(ts[1..][i], user, password) &&
                 "mac_address" in ts[1..][i].value && ts[1..][i].value["mac_address"].JStr? &&
                 FindCred(ts[1..], user, password) == Some(CredOf(ts[1..][i])) &&
                 forall j | 0 <= j < i :: !CredMatches(ts[1..][j], user, password);
        assert ts[i + 1] == ts[1..][i];
        forall j | 0 <= j < i + 1 ensures !CredMatches(ts[j], user, password) {
          if j > 0 { assert ts[j] == ts[1..][j - 1]; }
        }
      }
    }
  }

  /** Credentials stored under any other class are never found. */
  lemma {:induction false} CredOnlyInClasses(c: Cache, classes: seq<string>, user: string, password: string)
    requires CredSearchDefined(c, classes, user, password)
    ensures FindCredIn(c, classes, user, password).Some? ==>
              exists n :: 0 <= n < |classes| && CredScanDefined(Records(c, classes[n]), user, password) &&
                          FindCredIn(c, classes, user, password) == FindCred(Records(c, classes[n]), user, password)
    decreases |classes|
  {
    if classes != [] && FindCred(Records(c, classes[0]), user, password).None? {
      CredOnlyInClasses(c, classes[1..], user, password);
      if FindCredIn(c, classes, user, password).Some? {
        var n :| 0 <= n < |classes[1..]| && CredScanDefined(Records(c, classes[1..][n]), user, password) &&
                 FindCredIn(c, classes[1..], user, password) == FindCred(Records(c, classes[1..][n]), user, password);
        assert classes[n + 1] == classes[1..][n];
      }
    }
  }
}
