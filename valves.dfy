/**
 * Valve arbitration (main.rs): battery valves cannot be reached directly, so a
 * valve command is kept in a table keyed by the valve's MAC and re-sent through
 * the relay with the best signal until the cache shows the valve in the
 * desired state, or until 100 attempts have been made.
 *
 * The relay choice (`get_best_actuator_for_valve`) is a parameter `best`.
 */
module ValveArbiter {
  import opened Wrappers
  import opened JsonValue
  import opened DomoCache
  import opened Messages

  /** A pending valve command: the command value (holding `desired_state`) and the attempts made. */
  datatype ValveData = ValveData(desiredState: Json, attempts: nat)

  /** The cap on attempts: an entry with this many attempts is dropped. */
  const MaxAttempts: nat := 100

  /** The class of the valve records in the cache. */
  const ValveTopic: string := "domo_ble_valve"

  predicate MacIs(t: Topic, key: string)
  {
    Lookup(t.value, "mac_address") == Some(JStr(key))
  }

  /** The `as_str().unwrap()` / `as_bool().unwrap()` calls on one scanned valve record succeed. */
  predicate ValveRecordDefined(t: Topic, key: string, desired: Json)
  {
    && ("mac_address" in t.value ==> t.value["mac_address"].JStr?)
    && (MacIs(t, key) && "status" in t.value ==>
          t.value["status"].JBool? &&
          (FieldOpt(desired, "desired_state").Some? ==> FieldOpt(desired, "desired_state").value.JBool?))
  }

  /** The record is the valve's and shows the desired state. */
  predicate RecordConverges(t: Topic, key: string, desired: Json)
    requires ValveRecordDefined(t, key, desired)
  {
    && MacIs(t, key)
    && "status" in t.value
    && FieldOpt(desired, "desired_state").Some?
    && t.value["status"].b == FieldOpt(desired, "desired_state").value.b
  }

  /** Every record the scan reaches, up to the first converging one, is free of panics. */
  predicate ValveScanDefined(ts: seq<Topic>, key: string, desired: Json)
    decreases |ts|
  {
    ts == [] ||
    (ValveRecordDefined(ts[0], key, desired) &&
     (RecordConverges(ts[0], key, desired) || ValveScanDefined(ts[1..], key, desired)))
  }

  /** Some valve record with this MAC shows the desired state. */
  predicate ValveConverged(ts: seq<Topic>, key: string, desired: Json)
    requires ValveScanDefined(ts, key, desired)
    decreases |ts|
  {
    ts != [] && (RecordConverges(ts[0], key, desired) || ValveConverged(ts[1..], key, desired))
  }

  predicate TableDefined(commands: map<string, ValveData>, valves: seq<Topic>)
  {
    forall k | k in commands :: ValveScanDefined(valves, k, commands[k].desiredState)
  }

  /** What one reconciliation round does with one entry. */
  datatype Step =
    | Converged           // the cache shows the desired state: dropped
    | Retried(via: string) // resent through this relay, one more attempt
    | Waiting             // no relay known yet: kept as is
    | Abandoned           // out of attempts: dropped

  function StepOf(key: string, v: ValveData, valves: seq<Topic>, best: string -> Option<string>): (s: Step)
    requires ValveScanDefined(valves, key, v.desiredState)
    ensures s.Converged? <==> ValveConverged(valves, key, v.desiredState)
    ensures s.Retried? ==> v.attempts < MaxAttempts && best(key) == Some(s.via)
    ensures s.Waiting? ==> v.attempts < MaxAttempts && best(key).None?
    ensures s.Abandoned? ==> v.attempts >= MaxAttempts
  {
    if ValveConverged(valves, key, v.desiredState) then Converged
    else if v.attempts < MaxAttempts then
      match best(key)
      case Some(a) => Retried(a)
      case None => Waiting
    else Abandoned
  }

  /** The valve command sent for `key` through relay `via`. */
  function ValveCommandFor(key: string, v: ValveData, via: string): Command
  {
    Command(Valve, key, via, v.desiredState)
  }

  /** The round is skipped when there is nothing pending or no shelly-plus relay is connected. */
  predicate RoundRuns(commands: map<string, ValveData>, acts: seq<string>)
  {
    |commands| > 0 && |acts| > 0
  }

  /** The table after one reconciliation round. */
  function Reconciled(commands: map<string, ValveData>, acts: seq<string>, valves: seq<Topic>,
                      best: string -> Option<string>): (next: map<string, ValveData>)
    requires RoundRuns(commands, acts) ==> TableDefined(commands, valves)
    ensures next.Keys <= commands.Keys
  {
    if !RoundRuns(commands, acts) then commands
    else
      map k | k in commands && StepOf(k, commands[k], valves, best) !in {Converged, Abandoned} ::
        if StepOf(k, commands[k], valves, best).Retried? then commands[k].(attempts := commands[k].attempts + 1)
        else commands[k]
  }

  /** The keys resent in one round. */
  function RetriedKeys(commands: map<string, ValveData>, acts: seq<string>, valves: seq<Topic>,
                       best: string -> Option<string>): set<string>
    requires RoundRuns(commands, acts) ==> TableDefined(commands, valves)
  {
    if !RoundRuns(commands, acts) then {}
    else set k | k in commands && StepOf(k, commands[k], valves, best).Retried?
  }

  /** `sent` holds one valve command for every key of `keys` and nothing else. */
  predicate SentExactly(sent: seq<Command>, keys: set<string>, commands: map<string, ValveData>,
                        valves: seq<Topic>, best: string -> Option<string>)
    requires TableDefined(commands, valves)
  {
    && |sent| == |keys|
    && (forall i | 0 <= i < |sent| ::
          && sent[i].macAddress in keys
          && sent[i].macAddress in commands
          && StepOf(sent[i].macAddress, commands[sent[i].macAddress], valves, best).Retried?
          && sent[i] == ValveCommandFor(sent[i].macAddress, commands[sent[i].macAddress],
                                        StepOf(sent[i].macAddress, commands[sent[i].macAddress], valves, best).via))
    && (forall i, j | 0 <= i < j < |sent| :: sent[i].macAddress != sent[j].macAddress)
  }

  /** The scan of the valve records for one pending command: stops at the first converging record. */
  method ValveStatusMatches(valves: seq<Topic>, key: string, desired: Json) returns (ok: bool)
    requires ValveScanDefined(valves, key, desired)
    ensures ok == ValveConverged(valves, key, desired)
  {
    ok := false;
    var i := 0;
    while i < |valves|
      invariant 0 <= i <= |valves|
      invariant ValveScanDefined(valves[i..], key, desired)
      invariant ValveConverged(valves, key, desired) == ValveConverged(valves[i..], key, desired)
    {
      assert valves[i..][1..] == valves[i + 1..];
      var value := valves[i].value;
      if "mac_address" in value {
        var mac := value["mac_address"].s;
        if mac == key && "status" in value {
          var status := value["status"].b;
          var desiredState := FieldOpt(desired, "desired_state");
          if desiredState.Some? && status == desiredState.value.b {
            ok := true;
            return;
          }
        }
      }
      i := i + 1;
    }
  }

  /** The entry after its step, when it is kept. */
  function Advanced(key: string, v: ValveData, valves: seq<Topic>, best: string -> Option<string>): ValveData
    requires ValveScanDefined(valves, key, v.desiredState)
  {
    if StepOf(key, v, valves, best).Retried? then v.(attempts := v.attempts + 1) else v
  }

  predicate Dropped(s: Step)
  {
    s.Converged? || s.Abandoned?
  }

  function RetriedAmong(keys: set<string>, commands: map<string, ValveData>, valves: seq<Topic>,
                        best: string -> Option<string>): set<string>
    requires TableDefined(commands, valves)
  {
    set k | k in keys && k in commands && StepOf(k, commands[k], valves, best).Retried?
  }

  /** Visiting one more entry keeps `sent` in step with the entries visited. */
  lemma SentStep(sent: seq<Command>, done: set<string>, key: string, cmd: Option<Command>,
                 commands: map<string, ValveData>, valves: seq<Topic>, best: string -> Option<string>)
    requires TableDefined(commands, valves)
    requires key in commands && key !in done
    requires SentExactly(sent, RetriedAmong(done, commands, valves, best), commands, valves, best)
    requires cmd.Some? <==> StepOf(key, commands[key], valves, best).Retried?
    requires cmd.Some? ==> cmd.value == ValveCommandFor(key, commands[key], StepOf(key, commands[key], valves, best).via)
    ensures SentExactly(if cmd.Some? then sent + [cmd.value] else sent,
                        RetriedAmong(done + {key}, commands, valves, best), commands, valves, best)
  {
    var before := RetriedAmong(done, commands, valves, best);
    assert RetriedAmong(done + {key}, commands, valves, best) == before + (if cmd.Some? then {key} else {});
    if cmd.Some? {
      assert key !in before;
      assert forall i | 0 <= i < |sent| :: sent[i].macAddress in before;
    }
  }

  /**
   * One reconciliation round (the valve timer arm of the main loop): every
   * pending entry is visited once; a converged or exhausted entry is marked
   * for removal, a resendable one is resent and its attempts increased; the
   * marked entries are removed at the end.
   */
  method ReconcileValves(commands: map<string, ValveData>, acts: seq<string>, valves: seq<Topic>,
                         best: string -> Option<string>) returns (updated: map<string, ValveData>, sent: seq<Command>)
    requires RoundRuns(commands, acts) ==> TableDefined(commands, valves)
    ensures updated == Reconciled(commands, acts, valves, best)
    ensures !RoundRuns(commands, acts) ==> sent == []
    ensures RoundRuns(commands, acts) ==>
              SentExactly(sent, RetriedKeys(commands, acts, valves, best), commands, valves, best)
  {
    updated := commands;
    sent := [];
    if |commands| > 0 && |acts| > 0 {
      var toRemove;
      updated, toRemove, sent := VisitPending(commands, valves, best);
      assert RetriedAmong(commands.Keys, commands, valves, best) == RetriedKeys(commands, acts, valves, best);
      updated := RemoveAll(updated, toRemove);
    }
  }

  /** The loop over the pending entries, before the marked ones are removed. */
  method VisitPending(commands: map<string, ValveData>, valves: seq<Topic>, best: string -> Option<string>)
    returns (updated: map<string, ValveData>, toRemove: seq<string>, sent: seq<Command>)
    requires TableDefined(commands, valves)
    ensures updated.Keys == commands.Keys
    ensures forall k | k in commands :: updated[k] == Advanced(k, commands[k], valves, best)
    ensures forall k :: k in toRemove <==> k in commands && Dropped(StepOf(k, commands[k], valves, best))
    ensures SentExactly(sent, RetriedAmong(commands.Keys, commands, valves, best), commands, valves, best)
  {
    updated := commands;
    toRemove := [];
    sent := [];
    var pending := commands.Keys;
    ghost var done: set<string> := {};
    VisitedNone(commands, valves, best);
    while pending != {}
      invariant done <= commands.Keys && pending == commands.Keys - done
      invariant Visited(commands, valves, best, done, updated, toRemove, sent)
      decreases |pending|
    {
      var key :| key in pending;
      var val := commands[key];
      var remove, cmd := VisitOne(key, val, valves, best);
      VisitStep(commands, valves, best, done, updated, toRemove, sent, key, remove, cmd);
      toRemove := if remove then toRemove + [key] else toRemove;
      sent := if cmd.Some? then sent + [cmd.value] else sent;
      updated := if cmd.Some? then updated[key := val.(attempts := val.attempts + 1)] else updated;
      pending := pending - {key};
      done := done + {key};
    }
    VisitedAll(commands, valves, best, done, updated, toRemove, sent);
  }

  /**
   * What the round has established once the entries in `done` are visited:
   * those entries are advanced, the others untouched, and the removal list
   * and the commands sent account for exactly the visited entries.
   */
  ghost predicate Visited(commands: map<string, ValveData>, valves: seq<Topic>, best: string -> Option<string>,
                          done: set<string>, updated: map<string, ValveData>, toRemove: seq<string>, sent: seq<Command>)
    requires TableDefined(commands, valves)
  {
    && done <= commands.Keys
    && updated.Keys == commands.Keys
    && (forall k | k in commands && k !in done :: updated[k] == commands[k])
    && (forall k | k in done :: updated[k] == Advanced(k, commands[k], valves, best))
    && (forall k :: k in toRemove <==> k in done && Dropped(StepOf(k, commands[k], valves, best)))
    && SentExactly(sent, RetriedAmong(done, commands, valves, best), commands, valves, best)
  }

  /** Before the first entry nothing is visited, changed, marked or sent. */
  lemma VisitedNone(commands: map<string, ValveData>, valves: seq<Topic>, best: string -> Option<string>)
    requires TableDefined(commands, valves)
    ensures Visited(commands, valves, best, {}, commands, [], [])
  {
    assert RetriedAmong({}, commands, valves, best) == {};
  }

  /** Once every entry is visited, `Visited` is the round's postcondition. */
  lemma VisitedAll(commands: map<string, ValveData>, valves: seq<Topic>, best: string -> Option<string>,
                   done: set<string>, updated: map<string, ValveData>, toRemove: seq<string>, sent: seq<Command>)
    requires TableDefined(commands, valves)
    requires Visited(commands, valves, best, done, updated, toRemove, sent) && done == commands.Keys
    ensures updated.Keys == commands.Keys
    ensures forall k | k in commands :: updated[k] == Advanced(k, commands[k], valves, best)
    ensures forall k :: k in toRemove <==> k in commands && Dropped(StepOf(k, commands[k], valves, best))
    ensures SentExactly(sent, RetriedAmong(commands.Keys, commands, valves, best), commands, valves, best)
  {
  }

  /** Visiting one more entry, with the outcome `VisitOne` reports, keeps `Visited`. */
  lemma VisitStep(commands: map<string, ValveData>, valves: seq<Topic>, best: string -> Option<string>,
                  done: set<string>, updated: map<string, ValveData>, toRemove: seq<string>, sent: seq<Command>,
                  key: string, remove: bool, cmd: Option<Command>)
    requires TableDefined(commands, valves)
    requires Visited(commands, valves, best, done, updated, toRemove, sent)
    requires key in commands && key !in done
    requires remove == Dropped(StepOf(key, commands[key], valves, best))
    requires cmd.Some? <==> StepOf(key, commands[key], valves, best).Retried?
    requires cmd.Some? ==> cmd.value == ValveCommandFor(key, commands[key], StepOf(key, commands[key], valves, best).via)
    requires Advanced(key, commands[key], valves, best) ==
             if cmd.Some? then commands[key].(attempts := commands[key].attempts + 1) else commands[key]
    ensures Visited(commands, valves, best, done + {key},
                    if cmd.Some? then updated[key := commands[key].(attempts := commands[key].attempts + 1)] else updated,
                    if remove then toRemove + [key] else toRemove,
                    if cmd.Some? then sent + [cmd.value] else sent)
  {
    SentStep(sent, done, key, cmd, commands, valves, best);
    UpdatedStep(commands, valves, best, updated, done, key, cmd.Some?);
    RemovedStep(commands, valves, best, toRemove, done, key, remove);
  }

  /** Visiting one more entry keeps the table in step with the entries visited. */
  lemma UpdatedStep(commands: map<string, ValveData>, valves: seq<Topic>, best: string -> Option<string>,
                    updated: map<string, ValveData>, done: set<string>, key: string, resent: bool)
    requires TableDefined(commands, valves)
    requires key in commands && key !in done && done <= commands.Keys && updated.Keys == commands.Keys
    requires forall k | k in commands && k !in done :: updated[k] == commands[k]
    requires forall k | k in done :: updated[k] == Advanced(k, commands[k], valves, best)
    requires Advanced(key, commands[key], valves, best) ==
             if resent then commands[key].(attempts := commands[key].attempts + 1) else commands[key]
    ensures var u := if resent then updated[key := commands[key].(attempts := commands[key].attempts + 1)] else updated;
            && u.Keys == commands.Keys
            && (forall k | k in commands && k !in done + {key} :: u[k] == commands[k])
            && (forall k | k in done + {key} :: u[k] == Advanced(k, commands[k], valves, best))
  {
  }

  /** Visiting one more entry keeps the removal list in step with the entries visited. */
  lemma RemovedStep(commands: map<string, ValveData>, valves: seq<Topic>, best: string -> Option<string>,
                    toRemove: seq<string>, done: set<string>, key: string, remove: bool)
    requires TableDefined(commands, valves)
    requires key in commands && done <= commands.Keys
    requires forall k :: k in toRemove <==> k in done && Dropped(StepOf(k, commands[k], valves, best))
    requires remove == Dropped(StepOf(key, commands[key], valves, best))
    ensures forall k :: k in (if remove then toRemove + [key] else toRemove) <==>
                        k in done + {key} && Dropped(StepOf(k, commands[k], valves, best))
  {
  }

  /** The body of the loop for one entry: whether to mark it for removal, and the command to send. */
  method VisitOne(key: string, val: ValveData, valves: seq<Topic>, best: string -> Option<string>)
    returns (remove: bool, cmd: Option<Command>)
    requires ValveScanDefined(valves, key, val.desiredState)
    ensures remove == Dropped(StepOf(key, val, valves, best))
    ensures cmd.Some? <==> StepOf(key, val, valves, best).Retried?
    ensures cmd.Some? ==> cmd.value == ValveCommandFor(key, val, StepOf(key, val, valves, best).via)
    ensures Advanced(key, val, valves, best) == if cmd.Some? then val.(attempts := val.attempts + 1) else val
  {
    remove, cmd := false, None;
    var ok := ValveStatusMatches(valves, key, val.desiredState);
    if ok {
      remove := true;
    } else if val.attempts < MaxAttempts {
      var next := best(key);
      if next.Some? {
        cmd := Some(ValveCommandFor(key, val, next.value));
      }
    } else {
      remove := true;
    }
  }

  /** The final `for r in to_remove { remove(r) }`. */
  method RemoveAll(table: map<string, ValveData>, toRemove: seq<string>) returns (updated: map<string, ValveData>)
    ensures updated == map k | k in table && k !in toRemove :: table[k]
  {
    updated := table;
    var i := 0;
    while i < |toRemove|
      invariant 0 <= i <= |toRemove|
      invariant updated == map k | k in table && k !in toRemove[..i] :: table[k]
    {
      updated := updated - {toRemove[i]};
      assert toRemove[..i + 1] == toRemove[..i] + [toRemove[i]];
      i := i + 1;
    }
    assert toRemove[..i] == toRemove;
  }

  /**
   * A `radiator_valve_command` from the cache (main loop, `ValveCommand`
   * arm): with no shelly-plus relay connected, or no `mac_address` in the
   * command, nothing happens; otherwise the entry for the valve is (re)set,
   * with one attempt and one command sent when a relay is known, with no
   * attempt and no command otherwise.
   */
  function Submitted(commands: map<string, ValveData>, acts: seq<string>, value: Json,
                     best: string -> Option<string>): (r: (map<string, ValveData>, seq<Command>))
    requires FieldOpt(value, "mac_address").Some? ==> FieldOpt(value, "mac_address").value.JStr?
    ensures |r.1| <= 1
    ensures r.0.Keys <= commands.Keys + (if FieldOpt(value, "mac_address").Some? then {FieldOpt(value, "mac_address").value.s} else {})
  {
    if |acts| == 0 then (commands, [])
    else
      match FieldOpt(value, "mac_address")
      case None => (commands, [])
      case Some(m) =>
        var mac := m.s;
        match best(mac)
        case Some(via) => (commands[mac := ValveData(value, 1)], [Command(Valve, mac, via, value)])
        case None => (commands[mac := ValveData(value, 0)], [])
  }
}
