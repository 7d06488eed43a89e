/** What valve arbitration promises over one round, over many rounds, and from submission on. */
module ValveProperties {
  import opened Wrappers
  import opened JsonValue
  import opened DomoCache
  import opened Messages
  import opened ValveArbiter

  /**
   * The scan's meaning: a valve counts as converged iff some record with its
   * MAC shows a `status` equal to the command's `desired_state`.
   */
  lemma {:induction false} ConvergedMeansRecord(ts: seq<Topic>, key: string, desired: Json)
    requires ValveScanDefined(ts, key, desired)
    ensures ValveConverged(ts, key, desired) ==>
              exists i :: 0 <= i < |ts| && ValveRecordDefined(ts[i], key, desired) && RecordConverges(ts[i], key, desired)
    ensures !ValveConverged(ts, key, desired) ==>
              forall i | 0 <= i < |ts| :: ValveRecordDefined(ts[i], key, desired) && !RecordConverges(ts[i], key, desired)
    decreases |ts|
  {
    if ts != [] && !RecordConverges(ts[0], key, desired) {
      ConvergedMeansRecord(ts[1..], key, desired);
      assert forall i :: 1 <= i < |ts| ==> ts[i] == ts[1..][i - 1];
      if ValveConverged(ts, key, desired) {
        var i :| 0 <= i < |ts[1..]| && ValveRecordDefined(ts[1..][i], key, desired) &&
                 RecordConverges(ts[1..][i], key, desired);
        assert ts[i + 1] == ts[1..][i];
      }
    }
  }

  /** A round with no pending command or no connected shelly-plus relay changes nothing and sends nothing. */
  lemma SkippedRound(commands: map<string, ValveData>, acts: seq<string>, valves: seq<Topic>,
                     best: string -> Option<string>)
    requires |commands| == 0 || |acts| == 0
    ensures Reconciled(commands, acts, valves, best) == commands
    ensures RetriedKeys(commands, acts, valves, best) == {}
  {
  }

  /**
   * The fate of one entry in a round that runs: it is removed exactly when
   * the cache shows the desired state or 100 attempts have been made; it is
   * resent, with one more attempt, exactly when neither holds and a relay is
   * known; otherwise it is kept unchanged.
   */
  lemma EntryFate(commands: map<string, ValveData>, acts: seq<string>, valves: seq<Topic>,
                  best: string -> Option<string>, k: string)
    requires TableDefined(commands, valves)
    requires k in commands && |acts| > 0
    ensures var v := commands[k];
            var r := Reconciled(commands, acts, valves, best);
            var converged := ValveConverged(valves, k, v.desiredState);
            && (k !in r <==> converged || v.attempts >= MaxAttempts)
            && (k in RetriedKeys(commands, acts, valves, best) <==>
                  !converged && v.attempts < MaxAttempts && best(k).Some?)
            && (k in r && best(k).Some? ==> r[k] == v.(attempts := v.attempts + 1))
            && (k in r && best(k).None? ==> r[k] == v)
  {
  }

  /** A round adds no entry and keeps every table it starts from well defined. */
  lemma ReconciledDefined(commands: map<string, ValveData>, acts: seq<string>, valves: seq<Topic>,
                          best: string -> Option<string>)
    requires TableDefined(commands, valves)
    ensures Reconciled(commands, acts, valves, best).Keys <= commands.Keys
    ensures forall k | k in Reconciled(commands, acts, valves, best) ::
              Reconciled(commands, acts, valves, best)[k].desiredState == commands[k].desiredState
    ensures TableDefined(Reconciled(commands, acts, valves, best), valves)
  {
  }

  /** The table after `n` rounds with the same relays, valve records and relay choice. */
  function Rounds(commands: map<string, ValveData>, acts: seq<string>, valves: seq<Topic>,
                  best: string -> Option<string>, n: nat): map<string, ValveData>
    requires TableDefined(commands, valves)
    decreases n
  {
    if n == 0 then commands
    else
      ReconciledDefined(commands, acts, valves, best);
      Rounds(Reconciled(commands, acts, valves, best), acts, valves, best, n - 1)
  }

  /** How many of those `n` rounds send a command for `k`. */
  function Resends(commands: map<string, ValveData>, acts: seq<string>, valves: seq<Topic>,
                   best: string -> Option<string>, k: string, n: nat): nat
    requires TableDefined(commands, valves)
    decreases n
  {
    if n == 0 then 0
    else
      ReconciledDefined(commands, acts, valves, best);
      (if k in RetriedKeys(commands, acts, valves, best) then 1 else 0)
      + Resends(Reconciled(commands, acts, valves, best), acts, valves, best, k, n - 1)
  }

  function Min(a: nat, b: nat): nat
  {
    if a <= b then a else b
  }

  lemma MinStep(n: nat, m: nat)
    requires n > 0 && m > 0
    ensures Min(n, m) == 1 + Min(n - 1, m - 1)
  {
  }

  /** An entry that is gone stays gone, and nothing more is sent for it. */
  lemma {:induction false} AbsentStaysAbsent(commands: map<string, ValveData>, acts: seq<string>, valves: seq<Topic>,
                                             best: string -> Option<string>, k: string, n: nat)
    requires TableDefined(commands, valves)
    requires k !in commands
    ensures k !in Rounds(commands, acts, valves, best, n)
    ensures Resends(commands, acts, valves, best, k, n) == 0
    decreases n
  {
    if n > 0 {
      ReconciledDefined(commands, acts, valves, best);
      AbsentStaysAbsent(Reconciled(commands, acts, valves, best), acts, valves, best, k, n - 1);
    }
  }

  /** One round for a resendable valve with a relay known: one more attempt, or gone when out of attempts. */
  lemma RoundNext(commands: map<string, ValveData>, acts: seq<string>, valves: seq<Topic>,
                  best: string -> Option<string>, k: string)
    requires TableDefined(commands, valves)
    requires k in commands && |acts| > 0 && best(k).Some?
    requires !ValveConverged(valves, k, commands[k].desiredState)
    ensures TableDefined(Reconciled(commands, acts, valves, best), valves)
    ensures k in RetriedKeys(commands, acts, valves, best) <==> commands[k].attempts < MaxAttempts
    ensures k in Reconciled(commands, acts, valves, best) <==> commands[k].attempts < MaxAttempts
    ensures commands[k].attempts < MaxAttempts ==>
              var next := Reconciled(commands, acts, valves, best);
              && k in next
              && !ValveConverged(valves, k, next[k].desiredState)
              && next[k].attempts <= MaxAttempts
              && next[k] == commands[k].(attempts := commands[k].attempts + 1)
  {
    ReconciledDefined(commands, acts, valves, best);
    EntryFate(commands, acts, valves, best, k);
  }

  /** `Rounds` after a first round. */
  lemma RoundsUnfold(commands: map<string, ValveData>, acts: seq<string>, valves: seq<Topic>,
                     best: string -> Option<string>, n: nat)
    requires TableDefined(commands, valves) && n > 0
    ensures TableDefined(Reconciled(commands, acts, valves, best), valves)
    ensures Rounds(commands, acts, valves, best, n) == Rounds(Reconciled(commands, acts, valves, best), acts, valves, best, n - 1)
  {
    ReconciledDefined(commands, acts, valves, best);
  }

  /** `Resends` after a first round. */
  lemma ResendsUnfold(commands: map<string, ValveData>, acts: seq<string>, valves: seq<Topic>,
                      best: string -> Option<string>, k: string, n: nat)
    requires TableDefined(commands, valves) && n > 0
    ensures TableDefined(Reconciled(commands, acts, valves, best), valves)
    ensures Resends(commands, acts, valves, best, k, n) ==
            (if k in RetriedKeys(commands, acts, valves, best) then 1 else 0)
            + Resends(Reconciled(commands, acts, valves, best), acts, valves, best, k, n - 1)
  {
    ReconciledDefined(commands, acts, valves, best);
  }

  /**
   * The retry budget: a valve that never reaches its desired state while a
   * relay is known gains one attempt per round and is abandoned in the round
   * after its 100th attempt, never earlier and never later.
   */
  lemma {:induction false} RetryBudget(commands: map<string, ValveData>, acts: seq<string>, valves: seq<Topic>,
                                       best: string -> Option<string>, k: string, n: nat)
    requires TableDefined(commands, valves)
    requires k in commands && |acts| > 0 && best(k).Some?
    requires !ValveConverged(valves, k, commands[k].desiredState)
    requires commands[k].attempts <= MaxAttempts
    ensures k in Rounds(commands, acts, valves, best, n) <==> n <= MaxAttempts - commands[k].attempts
    ensures k in Rounds(commands, acts, valves, best, n) ==>
              Rounds(commands, acts, valves, best, n)[k] == commands[k].(attempts := commands[k].attempts + n)
    decreases n
  {
    if n > 0 {
      if commands[k].attempts < MaxAttempts {
        RoundNext(commands, acts, valves, best, k);
        RoundsUnfold(commands, acts, valves, best, n);
        var next := Reconciled(commands, acts, valves, best);
        RetryBudget(next, acts, valves, best, k, n - 1);
      } else {
        Exhausted(commands, acts, valves, best, k, n);
      }
    }
  }

  /** Over those rounds the valve is resent once per round while attempts remain: min(n, 100 - attempts) times. */
  lemma {:induction false} ResendCount(commands: map<string, ValveData>, acts: seq<string>, valves: seq<Topic>,
                                       best: string -> Option<string>, k: string, n: nat)
    requires TableDefined(commands, valves)
    requires k in commands && |acts| > 0 && best(k).Some?
    requires !ValveConverged(valves, k, commands[k].desiredState)
    requires commands[k].attempts <= MaxAttempts
    ensures Resends(commands, acts, valves, best, k, n) == Min(n, MaxAttempts - commands[k].attempts)
    decreases n
  {
    if n > 0 {
      var left := MaxAttempts - commands[k].attempts;
      if left > 0 {
        RoundNext(commands, acts, valves, best, k);
        ResendsUnfold(commands, acts, valves, best, k, n);
        var next := Reconciled(commands, acts, valves, best);
        ResendCount(next, acts, valves, best, k, n - 1);
        assert MaxAttempts - next[k].attempts == left - 1;
        MinStep(n, left);
        assert Min(n - 1, MaxAttempts - next[k].attempts) == Min(n - 1, left - 1);
        assert Resends(next, acts, valves, best, k, n - 1) == Min(n - 1, left - 1);
        assert Resends(commands, acts, valves, best, k, n) == 1 + Resends(next, acts, valves, best, k, n - 1);
        assert Resends(commands, acts, valves, best, k, n) == Min(n, left);
      } else {
        Exhausted(commands, acts, valves, best, k, n);
      }
    }
  }

  /** An entry out of attempts is dropped in the next round and never resent again. */
  lemma Exhausted(commands: map<string, ValveData>, acts: seq<string>, valves: seq<Topic>,
                  best: string -> Option<string>, k: string, n: nat)
    requires TableDefined(commands, valves)
    requires k in commands && |acts| > 0 && best(k).Some?
    requires !ValveConverged(valves, k, commands[k].desiredState)
    requires commands[k].attempts >= MaxAttempts && n > 0
    ensures k !in Rounds(commands, acts, valves, best, n)
    ensures Resends(commands, acts, valves, best, k, n) == 0
  {
    RoundNext(commands, acts, valves, best, k);
    RoundsUnfold(commands, acts, valves, best, n);
    ResendsUnfold(commands, acts, valves, best, k, n);
    AbsentStaysAbsent(Reconciled(commands, acts, valves, best), acts, valves, best, k, n - 1);
  }

  /**
   * From submission on: when a relay is known, a command that the valve never
   * acknowledges is sent 100 times in all (once on submission, then once per
   * round for 99 rounds) and the entry is gone after the 100th round.
   */
  lemma SubmitThenRetry(commands: map<string, ValveData>, acts: seq<string>, value: Json, valves: seq<Topic>,
                        best: string -> Option<string>, n: nat)
    requires TableDefined(commands, valves)
    requires |acts| > 0
    requires FieldOpt(value, "mac_address").Some? && FieldOpt(value, "mac_address").value.JStr?
    requires var mac := FieldOpt(value, "mac_address").value.s;
             && best(mac).Some?
             && ValveScanDefined(valves, mac, value)
             && !ValveConverged(valves, mac, value)
    ensures var mac := FieldOpt(value, "mac_address").value.s;
            var s := Submitted(commands, acts, value, best);
            && TableDefined(s.0, valves)
            && s.1 == [Command(Valve, mac, best(mac).value, value)]
            && |s.1| + Resends(s.0, acts, valves, best, mac, n) == 1 + Min(n, MaxAttempts - 1)
            && (mac in Rounds(s.0, acts, valves, best, n) <==> n < MaxAttempts)
  {
    var mac := FieldOpt(value, "mac_address").value.s;
    var s := Submitted(commands, acts, value, best);
    assert s.0 == commands[mac := ValveData(value, 1)];
    RetryBudget(s.0, acts, valves, best, mac, n);
    ResendCount(s.0, acts, valves, best, mac, n);
  }

  /**
   * Submission with a shelly-plus relay connected (re)sets the valve's entry
   * whatever it held, with one attempt and one command when a relay is known
   * and with none otherwise; with no relay connected nothing changes.
   */
  lemma SubmitEffect(commands: map<string, ValveData>, acts: seq<string>, value: Json,
                     best: string -> Option<string>)
    requires FieldOpt(value, "mac_address").Some? ==> FieldOpt(value, "mac_address").value.JStr?
    ensures |acts| == 0 || FieldOpt(value, "mac_address").None? ==>
              Submitted(commands, acts, value, best) == (commands, [])
    ensures |acts| > 0 && FieldOpt(value, "mac_address").Some? ==>
              var mac := FieldOpt(value, "mac_address").value.s;
              var s := Submitted(commands, acts, value, best);
              && s.0 == commands[mac := ValveData(value, if best(mac).Some? then 1 else 0)]
              && |s.1| == (if best(mac).Some? then 1 else 0)
              && (forall c | c in s.1 :: c.commandType == Valve && c.macAddress == mac && c.payload == value)
  {
  }
}
