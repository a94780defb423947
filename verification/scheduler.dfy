/**
 * `main` in bot.py: start the Telegram bot, announce it, then run one
 * monitoring pass every ten minutes until cancelled or until an exception
 * escapes a pass.
 *
 * The event loop's clock is an integer number of seconds: the loop starts at
 * `t0`, the work of cycle k takes `cycles[k].duration` seconds, and a sleep
 * returns `cycles[k].oversleep` seconds after the requested time. The next
 * cycle is timed from that reading, so any lateness carries over. The
 * source's loop never ends on its own; here it also stops when the given
 * cycles run out.
 */
module Scheduler {
  import opened Wrappers
  import opened Registry
  import opened Messages
  import opened Monitor

  /** `seconds = 60 * 10`. */
  const CycleSeconds: int := 60 * 10

  /** `max(0, next_run_time - loop.time())` with `next_run_time = start + 600`. */
  function SleepTime(start: int, now: int): (s: int)
    ensures s >= 0
    ensures s == 0 <==> now >= start + CycleSeconds
    ensures s > 0 ==> now + s == start + CycleSeconds
  {
    var next := start + CycleSeconds;
    if next - now > 0 then next - now else 0
  }

  /**
   * Clock reading when the cycle after `c`, started at `start`, begins: at
   * the end of the pass if there is nothing to sleep, otherwise when the
   * sleep returns, `c.oversleep` after the time asked for.
   */
  function NextStart(start: int, c: CycleInput): int {
    var now := start + c.duration;
    var sleep := SleepTime(start, now);
    if sleep > 0 then now + sleep + c.oversleep else now
  }

  function Max(a: int, b: int): int {
    if a < b then b else a
  }

  /**
   * Drift correction: a cycle shorter than the interval is followed by one
   * one interval after its own start, plus however late the sleep returned;
   * a longer one is followed immediately, without sleeping and without
   * catching up.
   */
  lemma NextStartAnchored(start: int, c: CycleInput)
    ensures c.duration < CycleSeconds ==>
              SleepTime(start, start + c.duration) > 0
              && NextStart(start, c) == start + CycleSeconds + c.oversleep
    ensures c.duration >= CycleSeconds ==>
              SleepTime(start, start + c.duration) == 0 && NextStart(start, c) == start + c.duration
    ensures NextStart(start, c) == start + Max(CycleSeconds, c.duration) + c.Late()
  {
  }

  /** What the outside world does during one cycle. */
  datatype CycleInput = CycleInput(
    replies: Replies,   // answers during the monitoring pass
    duration: nat,      // seconds the pass takes
    oversleep: nat,     // seconds `asyncio.sleep` returns later than asked
    cancelled: bool)    // the task is cancelled while it sleeps before the next cycle
  {
    /** The pass leaves time to wait, so `asyncio.sleep` is awaited. */
    predicate Sleeps() {
      duration < CycleSeconds
    }

    /** The cancellation arrives: only a sleep gives it a chance to. */
    predicate Interrupted() {
      cancelled && Sleeps()
    }

    /** How much later than planned the next cycle starts. */
    function Late(): nat {
      if Sleeps() then oversleep else 0
    }
  }

  /** How `main` ends. */
  datatype Exit =
    | InitFailed             // `get_me` or the startup message raised TelegramError
    | Cancelled              // CancelledError
    | Crashed(fault: Fault)  // any other exception out of a pass
    | Running                // still looping when the given cycles run out

  /** How a cycle whose pass had outcome `o` ends the loop, if it does. */
  function CycleExit(o: CheckOutcome, interrupted: bool): Option<Exit> {
    if o.Raised? then Some(Crashed(o.fault))
    else if interrupted then Some(Cancelled)
    else None
  }

  predicate WellSized(reg: seq<Entry>, cycles: seq<CycleInput>) {
    forall k :: 0 <= k < |cycles| ==> |cycles[k].replies.observations| == |reg|
  }

  /** The outcomes of the passes of the first n cycles. */
  function Outcomes(reg: seq<Entry>, cycles: seq<CycleInput>, n: nat): (os: seq<CheckOutcome>)
    requires WellSized(reg, cycles)
    requires n <= |cycles|
    ensures |os| == n
  {
    if n == 0 then [] else Outcomes(reg, cycles, n - 1) + [Expected(reg, cycles[n - 1].replies)]
  }

  /** Everything passes with these outcomes deliver or run, in order. */
  function Flatten(os: seq<CheckOutcome>): seq<Effect> {
    if os == [] then []
    else
      var o := os[|os| - 1];
      Flatten(os[..|os| - 1]) + (if o.Completed? then o.effects else [])
  }

  /** None of these outcomes, each with its own cycle, ended the loop. */
  predicate Continued(os: seq<CheckOutcome>, cycles: seq<CycleInput>)
    requires |os| <= |cycles|
  {
    os == [] ||
    (Continued(os[..|os| - 1], cycles) && CycleExit(os[|os| - 1], cycles[|os| - 1].Interrupted()).None?)
  }

  /** When cycle k starts: at t0 for the first, then when the one before said. */
  function StartOf(t0: int, cycles: seq<CycleInput>, k: nat): int
    requires k <= |cycles|
  {
    if k == 0 then t0 else NextStart(StartOf(t0, cycles, k - 1), cycles[k - 1])
  }

  /** The starts of the first n cycles. */
  function Schedule(t0: int, cycles: seq<CycleInput>, n: nat): (starts: seq<int>)
    requires n <= |cycles|
    ensures |starts| == n
  {
    if n == 0 then [] else Schedule(t0, cycles, n - 1) + [StartOf(t0, cycles, n - 1)]
  }

  /** How the loop ends, what it delivered or ran, and when each cycle started. */
  datatype LoopResult = LoopResult(exit: Exit, effects: seq<Effect>, starts: seq<int>)

  /**
   * The loop as a reference definition: resumed at cycle k at clock reading
   * `clock`, with `effects` and `starts` recorded so far.
   */
  function RunFrom(reg: seq<Entry>, cycles: seq<CycleInput>, k: nat, clock: int,
                   effects: seq<Effect>, starts: seq<int>): LoopResult
    requires WellSized(reg, cycles) && k <= |cycles|
    decreases |cycles| - k
  {
    if k == |cycles| then LoopResult(Running, effects, starts)
    else
      var o := Expected(reg, cycles[k].replies);
      var starts' := starts + [clock];
      if o.Raised? then LoopResult(Crashed(o.fault), effects, starts')
      else if cycles[k].Interrupted() then LoopResult(Cancelled, effects + o.effects, starts')
      else RunFrom(reg, cycles, k + 1, NextStart(clock, cycles[k]), effects + o.effects, starts')
  }

  /**
   * What a run of the loop means: it stopped after some number n of cycles
   * (all of them if it is still Running); cycle k started at StartOf(k); the
   * effects are those of the n passes, in order; every cycle before the last
   * one let the loop go on, and the last one ended it as `exit` says.
   */
  ghost predicate Ran(reg: seq<Entry>, t0: int, cycles: seq<CycleInput>, r: LoopResult)
    requires WellSized(reg, cycles)
  {
    var n := |r.starts|;
    && n <= |cycles|
    && r.exit != InitFailed
    && r.starts == Schedule(t0, cycles, n)
    && r.effects == Flatten(Outcomes(reg, cycles, n))
    && (r.exit == Running ==> n == |cycles| && Continued(Outcomes(reg, cycles, n), cycles))
    && (r.exit != Running ==>
          && n > 0
          && Continued(Outcomes(reg, cycles, n - 1), cycles)
          && CycleExit(Outcomes(reg, cycles, n)[n - 1], cycles[n - 1].Interrupted()) == Some(r.exit))
  }

  /**
   * The body of the loop: run the pass of cycle c; unless it raised, sleep
   * until one interval after `startTime` (not at all if the pass overran).
   * Returns the pass's outcome, the clock reading once awake, and whether a
   * cancellation arrived during the sleep.
   */
  method RunCycle(reg: seq<Entry>, c: CycleInput, startTime: int)
    returns (outcome: CheckOutcome, clock: int, interrupted: bool)
    requires |c.replies.observations| == |reg|
    ensures outcome == Expected(reg, c.replies)
    ensures outcome.Completed? ==> clock == NextStart(startTime, c) && interrupted == c.Interrupted()
    ensures outcome.Completed? ==> clock >= startTime + CycleSeconds
    ensures outcome.Raised? ==> !interrupted
  {
    outcome := AlertIfInstrumentInactive(reg, c.replies);
    clock := startTime + c.duration;
    interrupted := false;
    if outcome.Raised? {
      return;
    }
    var sleepTime := SleepTime(startTime, clock);
    if sleepTime != 0 {
      interrupted := c.cancelled;
      clock := clock + sleepTime + c.oversleep;
    }
  }

  /**
   * The `while True` loop of `main`, from the first cycle on: each cycle
   * records its start, runs a pass, then sleeps. A pass that raises ends the
   * loop (Crashed), so does a cancellation (Cancelled).
   */
  method MonitorLoop(reg: seq<Entry>, t0: int, cycles: seq<CycleInput>)
    returns (exit: Exit, effects: seq<Effect>, starts: seq<int>)
    requires WellSized(reg, cycles)
    ensures LoopResult(exit, effects, starts) == RunFrom(reg, cycles, 0, t0, [], [])
    ensures Ran(reg, t0, cycles, LoopResult(exit, effects, starts))
  {
    RunMeaning(reg, t0, cycles);
    effects, starts := [], [];
    var clock := t0;
    var k := 0;
    exit := Running;
    while k < |cycles|
      invariant 0 <= k <= |cycles|
      invariant RunFrom(reg, cycles, k, clock, effects, starts) == RunFrom(reg, cycles, 0, t0, [], [])
    {
      var startTime := clock;
      starts := starts + [startTime];
      var outcome, interrupted;
      outcome, clock, interrupted := RunCycle(reg, cycles[k], startTime);
      if outcome.Raised? {
        exit := Crashed(outcome.fault);
        return;
      }
      effects := effects + outcome.effects;
      if interrupted {
        exit := Cancelled;
        return;
      }
      k := k + 1;
    }
  }

  /**
   * bot.py `main`. `identity` is what `get_me` returns (None: it raised),
   * `startupDelivered` whether the startup message went out.
   */
  method RunBot(reg: seq<Entry>, identity: Option<string>, startupDelivered: bool,
                t0: int, cycles: seq<CycleInput>)
    returns (exit: Exit, effects: seq<Effect>, starts: seq<int>)
    requires WellSized(reg, cycles)
    ensures exit == InitFailed <==> identity.None? || !startupDelivered
    ensures exit == InitFailed ==> effects == [] && starts == []
    ensures exit != InitFailed ==>
              && |effects| >= 1
              && effects[0] == Message(StartupText(identity.value))
              && Ran(reg, t0, cycles, LoopResult(exit, effects[1..], starts))
  {
    if identity.None? {
      return InitFailed, [], [];
    }
    var text := StartupText(identity.value);
    if !startupDelivered {
      return InitFailed, [], [];
    }
    var loopEffects;
    exit, loopEffects, starts := MonitorLoop(reg, t0, cycles);
    effects := [Message(text)] + loopEffects;
    assert effects[1..] == loopEffects;
  }

  /** The reference loop resumed after the first k cycles ran as they must. */
  function Resumed(reg: seq<Entry>, t0: int, cycles: seq<CycleInput>, k: nat): LoopResult
    requires WellSized(reg, cycles) && k <= |cycles|
  {
    RunFrom(reg, cycles, k, StartOf(t0, cycles, k), Flatten(Outcomes(reg, cycles, k)), Schedule(t0, cycles, k))
  }

  /** A cycle that lets the loop go on leaves it resumed after one more cycle. */
  lemma ResumedStep(reg: seq<Entry>, t0: int, cycles: seq<CycleInput>, k: nat)
    requires WellSized(reg, cycles) && k < |cycles|
    requires Continued(Outcomes(reg, cycles, k), cycles)
    requires CycleExit(Expected(reg, cycles[k].replies), cycles[k].Interrupted()).None?
    ensures Continued(Outcomes(reg, cycles, k + 1), cycles)
    ensures Resumed(reg, t0, cycles, k) == Resumed(reg, t0, cycles, k + 1)
  {
    var os, o := Outcomes(reg, cycles, k), Expected(reg, cycles[k].replies);
    FlattenAppend(os, o);
    ContinuedAppend(os, o, cycles);
  }

  /** A cycle that ends the loop gives a result with the meaning Ran states. */
  lemma ResumedStop(reg: seq<Entry>, t0: int, cycles: seq<CycleInput>, k: nat)
    requires WellSized(reg, cycles) && k < |cycles|
    requires Continued(Outcomes(reg, cycles, k), cycles)
    requires CycleExit(Expected(reg, cycles[k].replies), cycles[k].Interrupted()).Some?
    ensures |Resumed(reg, t0, cycles, k).starts| == k + 1
    ensures Ran(reg, t0, cycles, Resumed(reg, t0, cycles, k))
  {
    var os, o := Outcomes(reg, cycles, k), Expected(reg, cycles[k].replies);
    FlattenAppend(os, o);
    assert Outcomes(reg, cycles, k + 1) == os + [o];
    assert (os + [o])[k] == o;
    assert (os + [o])[..k] == os;
  }

  /**
   * The reference loop, resumed after k cycles that all let it go on, keeps
   * the meaning Ran states.
   */
  lemma {:induction false} RunFromMeaning(reg: seq<Entry>, t0: int, cycles: seq<CycleInput>, k: nat)
    requires WellSized(reg, cycles) && k <= |cycles|
    requires Continued(Outcomes(reg, cycles, k), cycles)
    ensures k <= |Resumed(reg, t0, cycles, k).starts|
    ensures Ran(reg, t0, cycles, Resumed(reg, t0, cycles, k))
    decreases |cycles| - k
  {
    if k < |cycles| {
      if CycleExit(Expected(reg, cycles[k].replies), cycles[k].Interrupted()).None? {
        ResumedStep(reg, t0, cycles, k);
        RunFromMeaning(reg, t0, cycles, k + 1);
      } else {
        ResumedStop(reg, t0, cycles, k);
      }
    }
  }

  /** The whole loop, from its first cycle, has the meaning Ran states. */
  lemma RunMeaning(reg: seq<Entry>, t0: int, cycles: seq<CycleInput>)
    requires WellSized(reg, cycles)
    ensures Ran(reg, t0, cycles, RunFrom(reg, cycles, 0, t0, [], []))
  {
    RunFromMeaning(reg, t0, cycles, 0);
    assert Resumed(reg, t0, cycles, 0) == RunFrom(reg, cycles, 0, t0, [], []);
  }

  // ---------------------------------------------------------------------
  // What the loop's outcomes are

  /** The k-th recorded outcome is the pass of cycle k. */
  lemma {:induction false} OutcomesAt(reg: seq<Entry>, cycles: seq<CycleInput>, n: nat, k: nat)
    requires WellSized(reg, cycles)
    requires k < n <= |cycles|
    ensures Outcomes(reg, cycles, n)[k] == Expected(reg, cycles[k].replies)
  {
    if k < n - 1 {
      OutcomesAt(reg, cycles, n - 1, k);
    }
  }

  /** A prefix of the outcomes is the outcomes of the prefix of cycles. */
  lemma {:induction false} OutcomesPrefix(reg: seq<Entry>, cycles: seq<CycleInput>, n: nat, m: nat)
    requires WellSized(reg, cycles)
    requires m <= n <= |cycles|
    ensures Outcomes(reg, cycles, n)[..m] == Outcomes(reg, cycles, m)
  {
    if m < n {
      OutcomesPrefix(reg, cycles, n - 1, m);
      assert Outcomes(reg, cycles, n)[..n - 1] == Outcomes(reg, cycles, n - 1);
    }
  }

  /**
   * The loop goes on after a cycle exactly when the pass raised nothing and
   * no cancellation arrived while it slept (a pass that overran does not
   * sleep, so it cannot be cancelled there).
   */
  lemma {:induction false} ContinuedIff(os: seq<CheckOutcome>, cycles: seq<CycleInput>)
    requires |os| <= |cycles|
    ensures Continued(os, cycles) <==>
              forall k :: 0 <= k < |os| ==>
                os[k].Completed? && !(cycles[k].cancelled && cycles[k].duration < CycleSeconds)
  {
    if os != [] {
      var n := |os| - 1;
      ContinuedIff(os[..n], cycles);
      assert forall k :: 0 <= k < n ==> os[..n][k] == os[k];
    }
  }

  /**
   * Why a pass ends the loop: exactly when the pass raises, with the first
   * failing query's table or the failed alert delivery as the fault.
   */
  lemma CycleExitRaised(reg: seq<Entry>, c: CycleInput)
    requires |c.replies.observations| == |reg|
    ensures var e := CycleExit(Expected(reg, c.replies), c.Interrupted());
            && (e.Some? && e.value.Crashed? <==> RaisedBy(reg, c.replies).Some?)
            && (e.Some? && e.value.Crashed? ==> RaisedBy(reg, c.replies) == Some(e.value.fault))
            && (e == Some(Cancelled) <==>
                  RaisedBy(reg, c.replies).None? && c.cancelled && c.duration < CycleSeconds)
  {
  }

  /**
   * A failing restart script is caught inside the pass: whatever the script
   * does, the pass reports the same failures and the loop goes on or stops
   * exactly as it would otherwise.
   */
  lemma ScriptFailureContinues(reg: seq<Entry>, c: CycleInput, succeeded: bool)
    requires |c.replies.observations| == |reg|
    ensures var o, o' := Expected(reg, c.replies), Expected(reg, c.replies.(scriptSucceeded := succeeded));
            && CycleExit(o', c.Interrupted()) == CycleExit(o, c.Interrupted())
            && (o.Completed? <==> o'.Completed?)
            && (o.Completed? ==> o'.failed == o.failed)
  {
  }

  /** The loop goes on past one more cycle exactly when that cycle lets it. */
  lemma ContinuedAppend(os: seq<CheckOutcome>, o: CheckOutcome, cycles: seq<CycleInput>)
    requires |os| < |cycles|
    ensures Continued(os + [o], cycles) <==> Continued(os, cycles) && CycleExit(o, cycles[|os|].Interrupted()).None?
  {
    assert (os + [o])[..|os|] == os;
  }

  /** The effects of the loop are the effects of each completed pass, one after another. */
  lemma {:induction false} FlattenAppend(os: seq<CheckOutcome>, o: CheckOutcome)
    ensures Flatten(os + [o]) == Flatten(os) + (if o.Completed? then o.effects else [])
  {
    assert (os + [o])[..|os|] == os;
  }

  /** A loop in which no instrument ever failed delivers nothing and runs nothing. */
  lemma {:induction false} QuietLoop(reg: seq<Entry>, cycles: seq<CycleInput>, n: nat)
    requires WellSized(reg, cycles)
    requires n <= |cycles|
    requires forall k, i :: 0 <= k < n && 0 <= i < |reg| ==> !Failed(cycles[k].replies.observations[i])
    ensures Flatten(Outcomes(reg, cycles, n)) == []
  {
    if n > 0 {
      var obs := cycles[n - 1].replies.observations;
      QuietLoop(reg, cycles, n - 1);
      FailedLabelsEmpty(reg, obs);
      FlattenAppend(Outcomes(reg, cycles, n - 1), Expected(reg, cycles[n - 1].replies));
    }
  }

  // ---------------------------------------------------------------------
  // The schedule over many cycles

  /** The recorded starts are the cycles' start times. */
  lemma {:induction false} ScheduleAt(t0: int, cycles: seq<CycleInput>, n: nat, k: nat)
    requires k < n <= |cycles|
    ensures Schedule(t0, cycles, n)[k] == StartOf(t0, cycles, k)
  {
    if k < n - 1 {
      ScheduleAt(t0, cycles, n - 1, k);
    }
  }

  /**
   * Time from the first start to the start of cycle k: each cycle takes the
   * longer of the interval and its work, plus how late its sleep returned.
   */
  function Elapsed(cycles: seq<CycleInput>, k: nat): int
    requires k <= |cycles|
  {
    if k == 0 then 0 else Elapsed(cycles, k - 1) + Max(CycleSeconds, cycles[k - 1].duration) + cycles[k - 1].Late()
  }

  /** Total lateness of the sleeps of the first k cycles. */
  function Oversleep(cycles: seq<CycleInput>, k: nat): nat
    requires k <= |cycles|
  {
    if k == 0 then 0 else Oversleep(cycles, k - 1) + cycles[k - 1].oversleep
  }

  /** The start of every cycle, in closed form. */
  lemma {:induction false} StartsClosedForm(t0: int, cycles: seq<CycleInput>, k: nat)
    requires k <= |cycles|
    ensures StartOf(t0, cycles, k) == t0 + Elapsed(cycles, k)
  {
    if k > 0 {
      StartsClosedForm(t0, cycles, k - 1);
      NextStartAnchored(StartOf(t0, cycles, k - 1), cycles[k - 1]);
    }
  }

  /**
   * Lateness is never made up: while every pass takes less than the
   * interval, cycle k starts k intervals after the first one plus every
   * second by which an earlier sleep overran.
   */
  lemma {:induction false} LatenessCarries(t0: int, cycles: seq<CycleInput>, k: nat)
    requires k <= |cycles|
    requires forall j :: 0 <= j < k ==> cycles[j].duration < CycleSeconds
    ensures StartOf(t0, cycles, k) == t0 + k * CycleSeconds + Oversleep(cycles, k)
  {
    if k > 0 {
      LatenessCarries(t0, cycles, k - 1);
      NextStartAnchored(StartOf(t0, cycles, k - 1), cycles[k - 1]);
    }
  }

  /**
   * No cumulative skew of the loop's own making: while every pass takes less
   * than the interval and every sleep returns on time, cycle k starts
   * exactly k intervals after the first one.
   */
  lemma {:induction false} NoDrift(t0: int, cycles: seq<CycleInput>, k: nat)
    requires k <= |cycles|
    requires forall j :: 0 <= j < k ==> cycles[j].duration < CycleSeconds && cycles[j].oversleep == 0
    ensures StartOf(t0, cycles, k) == t0 + k * CycleSeconds
  {
    if k > 0 {
      NoDrift(t0, cycles, k - 1);
      NextStartAnchored(StartOf(t0, cycles, k - 1), cycles[k - 1]);
    }
  }

  /** Cycles never come closer than one interval apart: there is no catching up. */
  lemma {:induction false} NeverEarly(t0: int, cycles: seq<CycleInput>, k: nat)
    requires k <= |cycles|
    ensures StartOf(t0, cycles, k) >= t0 + k * CycleSeconds
  {
    if k > 0 {
      NeverEarly(t0, cycles, k - 1);
      NextStartAnchored(StartOf(t0, cycles, k - 1), cycles[k - 1]);
    }
  }
}
