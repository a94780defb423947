/**
 * One monitoring pass, `alert_if_instrument_inactive` in bot.py: every
 * instrument of the registry is checked in order, those whose last update is
 * more than ten minutes old are collected, and if there is any, one alert is
 * sent and the restart script is run once.
 *
 * What the outside world answers during a pass (the ClickHouse query, the
 * wall clock, Telegram, the shell script) is an input, `Replies`.
 */
module Monitor {
  import opened Wrappers
  import opened Registry
  import opened Messages

  /** `pd.Timedelta(minutes=10)`, in seconds. */
  const StalenessWindow: int := 10 * 60

  /** What one iteration of the loop learns about its instrument. */
  datatype Observation =
    /** `max(o_ts_exch)` of the instrument's table, and `datetime.now()` read just after. */
    | Observed(lastUpdate: int, now: int)
    /** `client.query_df` raised. */
    | QueryError

  /** The answers of the outside world during one pass. */
  datatype Replies = Replies(
    observations: seq<Observation>,  // one per registry entry, in registry order
    alertDelivered: bool,            // `bot.send_message` returned (false: it raised)
    scriptSucceeded: bool)           // the restart script exited with status 0

  /** What a pass does that can be seen from outside. */
  datatype Effect =
    | Message(text: string)          // a Telegram message delivered
    | Remediation(succeeded: bool)   // one run of the restart script

  /** An exception that escapes the pass. */
  datatype Fault = QueryFailed(table: string) | SendFailed

  datatype CheckOutcome =
    | Completed(failed: seq<string>, effects: seq<Effect>)
    | Raised(fault: Fault)

  /** `last < now - 10 minutes`: strictly older than the window. */
  predicate IsStale(lastUpdate: int, now: int) {
    lastUpdate < now - StalenessWindow
  }

  predicate Failed(o: Observation) {
    o.Observed? && IsStale(o.lastUpdate, o.now)
  }

  /** Labels of the failed instruments, in registry order. */
  function FailedLabels(reg: seq<Entry>, obs: seq<Observation>): seq<string>
    requires |obs| == |reg|
    decreases |reg|
  {
    if reg == [] then []
    else
      var n := |reg| - 1;
      FailedLabels(reg[..n], obs[..n]) + (if Failed(obs[n]) then [reg[n].name] else [])
  }

  /** The positions of the failed instruments, ascending. */
  function FailedIndices(obs: seq<Observation>): (idx: seq<nat>)
    ensures forall k :: 0 <= k < |idx| ==> idx[k] < |obs| && Failed(obs[idx[k]])
    ensures forall k, l :: 0 <= k < l < |idx| ==> idx[k] < idx[l]
    ensures forall i :: 0 <= i < |obs| && Failed(obs[i]) ==> i in idx
    decreases |obs|
  {
    if obs == [] then []
    else
      var n := |obs| - 1;
      FailedIndices(obs[..n]) + (if Failed(obs[n]) then [n] else [])
  }

  /** Position of the first observation whose query raised, |obs| if none. */
  function FirstQueryError(obs: seq<Observation>): (k: nat)
    ensures k <= |obs|
    ensures k < |obs| ==> obs[k].QueryError?
    ensures forall j :: 0 <= j < k ==> obs[j].Observed?
  {
    if obs == [] then 0
    else if obs[0].QueryError? then 0
    else 1 + FirstQueryError(obs[1..])
  }

  /**
   * The exception a pass raises, if any: the first failing query, or else a
   * failed delivery of the alert when there is something to report.
   */
  function RaisedBy(reg: seq<Entry>, replies: Replies): Option<Fault>
    requires |replies.observations| == |reg|
  {
    var obs := replies.observations;
    var k := FirstQueryError(obs);
    if k < |obs| then Some(QueryFailed(reg[k].table))
    else if FailedLabels(reg, obs) != [] && !replies.alertDelivered then Some(SendFailed)
    else None
  }

  /**
   * What a pass must do: raise as RaisedBy says; otherwise, if any instrument
   * failed, deliver one alert listing them and run the script once (a script
   * failure is caught and only logged).
   */
  function Expected(reg: seq<Entry>, replies: Replies): CheckOutcome
    requires |replies.observations| == |reg|
  {
    match RaisedBy(reg, replies)
    case Some(f) => Raised(f)
    case None =>
      var failed := FailedLabels(reg, replies.observations);
      if failed == [] then Completed([], [])
      else Completed(failed, [Message(AlertText(failed)), Remediation(replies.scriptSucceeded)])
  }

  /** bot.py `alert_if_instrument_inactive`, with its loop over the registry. */
  method AlertIfInstrumentInactive(reg: seq<Entry>, replies: Replies) returns (outcome: CheckOutcome)
    requires |replies.observations| == |reg|
    ensures outcome == Expected(reg, replies)
  {
    var obs := replies.observations;
    var failed: seq<string> := [];
    var i := 0;
    while i < |reg|
      invariant 0 <= i <= |reg|
      invariant forall j :: 0 <= j < i ==> obs[j].Observed?
      invariant failed == FailedLabels(reg[..i], obs[..i])
    {
      match obs[i]
      case QueryError =>
        assert FirstQueryError(obs) == i;
        return Raised(QueryFailed(reg[i].table));
      case Observed(last, now) =>
        assert reg[..i + 1][..i] == reg[..i] && obs[..i + 1][..i] == obs[..i];
        if IsStale(last, now) {
          failed := failed + [reg[i].name];
        }
      i := i + 1;
    }
    assert reg[..i] == reg && obs[..i] == obs;
    if failed == [] {
      return Completed([], []);
    }
    if !replies.alertDelivered {
      return Raised(SendFailed);
    }
    var alert := AlertText(failed);
    outcome := Completed(failed, [Message(alert), Remediation(replies.scriptSucceeded)]);
  }

  // ---------------------------------------------------------------------
  // What the failed list is

  /**
   * The failed list holds the labels of the failed instruments, each once,
   * in registry order: it is the registry read at the failed positions.
   */
  lemma {:induction false} FailedLabelsAtIndices(reg: seq<Entry>, obs: seq<Observation>)
    requires |obs| == |reg|
    ensures |FailedLabels(reg, obs)| == |FailedIndices(obs)|
    ensures forall k :: 0 <= k < |FailedIndices(obs)| ==>
              FailedLabels(reg, obs)[k] == reg[FailedIndices(obs)[k]].name
    decreases |reg|
  {
    if reg != [] {
      var n := |reg| - 1;
      var labels, idx := FailedLabels(reg[..n], obs[..n]), FailedIndices(obs[..n]);
      FailedLabelsAtIndices(reg[..n], obs[..n]);
      if Failed(obs[n]) {
        assert FailedLabels(reg, obs) == labels + [reg[n].name];
        assert FailedIndices(obs) == idx + [n];
      } else {
        assert FailedLabels(reg, obs) == labels;
        assert FailedIndices(obs) == idx;
      }
      forall k | 0 <= k < |idx| ensures labels[k] == reg[idx[k]].name {
        assert reg[..n][idx[k]] == reg[idx[k]];
      }
    }
  }

  /** A label is in the failed list exactly when some entry with it failed. */
  lemma FailedLabelsMembership(reg: seq<Entry>, obs: seq<Observation>, name: string)
    requires |obs| == |reg|
    ensures name in FailedLabels(reg, obs)
            <==> exists i :: 0 <= i < |reg| && reg[i].name == name && Failed(obs[i])
  {
    if name in FailedLabels(reg, obs) {
      var i := FailedLabelSource(reg, obs, name);
    }
    if exists i :: 0 <= i < |reg| && reg[i].name == name && Failed(obs[i]) {
      var i :| 0 <= i < |reg| && reg[i].name == name && Failed(obs[i]);
      FailedEntryListed(reg, obs, i);
    }
  }

  /** Every failed entry's label is in the failed list. */
  lemma {:induction false} FailedEntryListed(reg: seq<Entry>, obs: seq<Observation>, i: nat)
    requires |obs| == |reg|
    requires i < |reg| && Failed(obs[i])
    ensures reg[i].name in FailedLabels(reg, obs)
    decreases |reg|
  {
    var n := |reg| - 1;
    if i < n {
      assert reg[..n][i] == reg[i] && obs[..n][i] == obs[i];
      FailedEntryListed(reg[..n], obs[..n], i);
    }
  }

  /** Every label in the failed list comes from an entry that failed. */
  lemma {:induction false} FailedLabelSource(reg: seq<Entry>, obs: seq<Observation>, name: string)
    returns (i: nat)
    requires |obs| == |reg|
    requires name in FailedLabels(reg, obs)
    ensures i < |reg| && reg[i].name == name && Failed(obs[i])
    decreases |reg|
  {
    var n := |reg| - 1;
    if name in FailedLabels(reg[..n], obs[..n]) {
      i := FailedLabelSource(reg[..n], obs[..n], name);
      assert reg[..n][i] == reg[i] && obs[..n][i] == obs[i];
    } else {
      i := n;
    }
  }

  /**
   * The threshold is strict: an update exactly ten minutes old is not a
   * failure, one a second older is, and a failed query is no stale reading.
   */
  lemma StaleBoundary(now: int)
    ensures !Failed(Observed(now - StalenessWindow, now))
    ensures Failed(Observed(now - StalenessWindow - 1, now))
    ensures !Failed(QueryError)
  {
  }

  /**
   * With unique registry labels, an instrument updated within the last ten
   * minutes (the boundary included) is not reported.
   */
  lemma FreshNotReported(reg: seq<Entry>, obs: seq<Observation>, i: nat)
    requires |obs| == |reg|
    requires UniqueLabels(reg)
    requires i < |reg| && obs[i].Observed? && obs[i].lastUpdate >= obs[i].now - StalenessWindow
    ensures reg[i].name !in FailedLabels(reg, obs)
  {
    FailedLabelsMembership(reg, obs, reg[i].name);
  }

  /** With unique registry labels, no label is reported twice. */
  lemma FailedLabelsDistinct(reg: seq<Entry>, obs: seq<Observation>)
    requires |obs| == |reg|
    requires UniqueLabels(reg)
    ensures Distinct(FailedLabels(reg, obs))
  {
    FailedLabelsAtIndices(reg, obs);
    var f, idx := FailedLabels(reg, obs), FailedIndices(obs);
    forall k, l | 0 <= k < l < |f| ensures f[k] != f[l] {
      assert idx[k] < idx[l];
    }
  }

  /** The list is empty exactly when no instrument failed. */
  lemma FailedLabelsEmpty(reg: seq<Entry>, obs: seq<Observation>)
    requires |obs| == |reg|
    ensures FailedLabels(reg, obs) == [] <==> forall i :: 0 <= i < |obs| ==> !Failed(obs[i])
  {
    FailedLabelsAtIndices(reg, obs);
    if FailedLabels(reg, obs) == [] {
      assert FailedIndices(obs) == [];
    } else {
      assert Failed(obs[FailedIndices(obs)[0]]);
    }
  }

  /**
   * Alerting and remediation: a pass that completes has sent one alert and
   * run the script once when something failed, and done nothing otherwise;
   * the alert reads back as the count and the failed labels.
   */
  lemma CompletedEffects(reg: seq<Entry>, replies: Replies)
    requires |replies.observations| == |reg|
    requires Expected(reg, replies).Completed?
    ensures var o := Expected(reg, replies);
            && o.failed == FailedLabels(reg, replies.observations)
            && (o.failed == [] <==> o.effects == [])
            && (o.failed != [] ==>
                  && |o.effects| == 2
                  && o.effects[1] == Remediation(replies.scriptSucceeded)
                  && o.effects[0].Message?
                  && ParseAlert(o.effects[0].text) == Some((|o.failed|, o.failed)))
  {
    var failed := FailedLabels(reg, replies.observations);
    if failed != [] {
      AlertTextParses(failed);
    }
  }
}
