/**
 * The distributed cache as the gateway sees it: for each topic name (device
 * class) an ordered sequence of records, each identified by its uuid and holding
 * a field map. Only the three operations the gateway calls are modelled:
 * listing a class, reading one record by identity, and overwriting a value.
 */
module DomoCache {
  import opened Wrappers
  import opened JsonValue

  datatype Topic = Topic(name: string, uuid: string, value: Fields)

  datatype Cache = Cache(classes: map<string, seq<Topic>>)

  /** One `write_value(name, uuid, value)` issued to the cache. */
  datatype Write = Write(topicName: string, topicUuid: string, value: Fields)

  /** `get_topic_name(name)`: every record of a class, in the cache's order. */
  function Records(c: Cache, name: string): seq<Topic>
  {
    if name in c.classes then c.classes[name] else []
  }

  /** The value of the first record carrying `uuid`. */
  function FindUuid(ts: seq<Topic>, uuid: string): (r: Option<Fields>)
    ensures r.Some? <==> exists i :: 0 <= i < |ts| && ts[i].uuid == uuid
  {
    if ts == [] then None
    else if ts[0].uuid == uuid then Some(ts[0].value)
    else
      var rest := FindUuid(ts[1..], uuid);
      assert forall i :: 1 <= i < |ts| ==> ts[i] == ts[1..][i - 1];
      rest
  }

  /** `get_topic_uuid(name, uuid)`: one record's value, or a miss. */
  function GetTopicUuid(c: Cache, name: string, uuid: string): Option<Fields>
  {
    FindUuid(Records(c, name), uuid)
  }

  /** Every record carrying `uuid` gets value `v`; the others are kept. */
  function ReplaceValue(ts: seq<Topic>, uuid: string, v: Fields): (r: seq<Topic>)
    ensures |r| == |ts|
  {
    if ts == [] then []
    else [if ts[0].uuid == uuid then ts[0].(value := v) else ts[0]] + ReplaceValue(ts[1..], uuid, v)
  }

  /** `write_value(name, uuid, v)`: overwrite the record, or add it when absent. */
  function WriteValue(c: Cache, name: string, uuid: string, v: Fields): Cache
  {
    var ts := Records(c, name);
    if FindUuid(ts, uuid).Some? then Cache(c.classes[name := ReplaceValue(ts, uuid, v)])
    else Cache(c.classes[name := ts + [Topic(name, uuid, v)]])
  }

  /** The cache after a sequence of writes, applied in order. */
  function ApplyWrites(c: Cache, ws: seq<Write>): Cache
    decreases |ws|
  {
    if ws == [] then c
    else ApplyWrites(WriteValue(c, ws[0].topicName, ws[0].topicUuid, ws[0].value), ws[1..])
  }

  lemma {:induction false} FindAfterReplace(ts: seq<Topic>, uuid: string, v: Fields, u: string)
    requires FindUuid(ts, uuid).Some?
    ensures FindUuid(ReplaceValue(ts, uuid, v), u) == if u == uuid then Some(v) else FindUuid(ts, u)
  {
    if ts[0].uuid != uuid {
      FindAfterReplace(ts[1..], uuid, v, u);
    } else if u != uuid {
      FindUnaffected(ts[1..], uuid, v, u);
    }
  }

  lemma {:induction false} FindUnaffected(ts: seq<Topic>, uuid: string, v: Fields, u: string)
    requires u != uuid
    ensures FindUuid(ReplaceValue(ts, uuid, v), u) == FindUuid(ts, u)
    decreases |ts|
  {
    if ts != [] {
      FindUnaffected(ts[1..], uuid, v, u);
    }
  }

  lemma {:induction false} FindAfterAppend(ts: seq<Topic>, t: Topic, u: string)
    requires FindUuid(ts, t.uuid).None?
    ensures FindUuid(ts + [t], u) == if u == t.uuid then Some(t.value) else FindUuid(ts, u)
    decreases |ts|
  {
    if ts == [] {
      assert ts + [t] == [t];
    } else {
      assert (ts + [t])[1..] == ts[1..] + [t];
      FindAfterAppend(ts[1..], t, u);
    }
  }

  /**
   * A write is seen by the next read of the same topic and by no read of any
   * other topic.
   */
  lemma ReadAfterWrite(c: Cache, name: string, uuid: string, v: Fields, n: string, u: string)
    ensures GetTopicUuid(WriteValue(c, name, uuid, v), n, u) ==
            if n == name && u == uuid then Some(v) else GetTopicUuid(c, n, u)
  {
    var ts := Records(c, name);
    if n == name {
      if FindUuid(ts, uuid).Some? {
        FindAfterReplace(ts, uuid, v, u);
      } else {
        FindAfterAppend(ts, Topic(name, uuid, v), u);
      }
    }
  }

  /** Writing to a topic that exists adds and removes no topic. */
  lemma WriteKeepsPresence(c: Cache, name: string, uuid: string, v: Fields, n: string, u: string)
    requires GetTopicUuid(c, name, uuid).Some?
    ensures GetTopicUuid(WriteValue(c, name, uuid, v), n, u).Some? == GetTopicUuid(c, n, u).Some?
  {
    ReadAfterWrite(c, name, uuid, v, n, u);
  }

  /** A write leaves the record lists of every other class as they were. */
  lemma WriteOtherClass(c: Cache, name: string, uuid: string, v: Fields, n: string)
    requires n != name
    ensures Records(WriteValue(c, name, uuid, v), n) == Records(c, n)
  {
  }
}
