/** Runner counters, failure streaks and health, as an object and as a function of its call history. */
module Observability {
  import opened Sequences

  // ---- calls and their effect ----------------------------------------------------------------

  datatype Outcome = Filled | Rejected | Skipped

  /** The recording calls; `now` is what the injected clock returns. */
  datatype Event =
    | MarkRunning(now: int)
    | MarkStopped
    | Warmup
    | Poll(now: int)
    | PollSuccess(now: int, gapRewarmed: bool)
    | PollError
    | SignalGenerated(now: int, count: int)
    | SignalConsumed(now: int, outcome: Outcome, count: int)
    | GapRewarmup
    | Processed(now: int, count: int, gapsDetected: int)

  datatype View = View(
    running: bool,
    startedAt: Option<int>, lastPollAt: Option<int>, lastSuccessfulPollAt: Option<int>, lastProgressAt: Option<int>,
    counters: map<string, int>, streaks: map<string, int>)

  function ConsumedCounter(o: Outcome): string {
    match o
    case Filled => "signals_consumed_filled"
    case Rejected => "signals_consumed_rejected"
    case Skipped => "signals_consumed_skipped"
  }

  function Fresh(names: set<string>): View {
    View(false, None, None, None, None,
         map n | n in names :: 0,
         map n | n in names && n in {"poll_errors", "gap_rewarmups"} :: 0)
  }

  function Add(v: View, name: string, count: int): View
    requires name in v.counters
  {
    v.(counters := v.counters[name := v.counters[name] + count])
  }

  /** A counted call that also moves the progress time. */
  function Progress(v: View, name: string, now: int, count: int): (View, bool) {
    if count < 0 then (v, false)
    else if count == 0 then (v, true)
    else if name !in v.counters then (v, false)
    else (Add(v, name, count).(lastProgressAt := Some(now)), true)
  }

  /** A failure: its counter and its streak go up together. */
  function Failure(v: View, name: string): (View, bool) {
    if name !in v.counters then (v, false)
    else if name !in v.streaks then (Add(v, name, 1), false)
    else (Add(v, name, 1).(streaks := v.streaks[name := v.streaks[name] + 1]), true)
  }

  function ProcessedStep(v: View, now: int, count: int, gaps: int): (View, bool) {
    if count < 0 || gaps < 0 || "records_processed" !in v.counters then (v, false) else
      var counted := Add(v, "records_processed", count);
      if "gaps_detected" !in v.counters then (counted, false) else
        var both := Add(counted, "gaps_detected", gaps);
        (if count != 0 then both.(lastProgressAt := Some(now)) else both, true)
  }

  /** The state after a call, and whether the call returned normally. */
  function Step(v: View, e: Event): (View, bool) {
    match e
    case MarkRunning(now) =>
      (v.(running := true, startedAt := Some(now), streaks := map n | n in v.streaks :: 0), true)
    case MarkStopped => (v.(running := false), true)
    case Warmup => if "warmups" in v.counters then (Add(v, "warmups", 1), true) else (v, false)
    case Poll(now) =>
      if "poll_cycles" in v.counters then (Add(v, "poll_cycles", 1).(lastPollAt := Some(now)), true) else (v, false)
    case PollSuccess(now, gapRewarmed) =>
      var s := v.streaks["poll_errors" := 0];
      (v.(lastSuccessfulPollAt := Some(now),
          streaks := if !gapRewarmed && "gap_rewarmups" in s then s["gap_rewarmups" := 0] else s), true)
    case PollError => Failure(v, "poll_errors")
    case SignalGenerated(now, count) => Progress(v, "signals_generated", now, count)
    case SignalConsumed(now, outcome, count) => Progress(v, ConsumedCounter(outcome), now, count)
    case GapRewarmup => Failure(v, "gap_rewarmups")
    case Processed(now, count, gaps) => ProcessedStep(v, now, count, gaps)
  }

  // ---- health --------------------------------------------------------------------------------

  datatype Reason = PollStalled | PollErrors | GapRewarmups

  /** A health snapshot, or the `KeyError` on a poll streak that is not configured. */
  datatype Health = Raised | Reported(healthy: bool, reason: Option<Reason>)

  /** A time within the stale limit. */
  predicate Recent(t: Option<int>, observedAt: int, staleAfter: int) {
    t.Some? && observedAt - t.value <= staleAfter
  }

  /** Started or polled within the limit; a runner that never did either is not stalled. */
  predicate Live(v: View, observedAt: int, staleAfter: int) {
    || (v.startedAt.None? && v.lastPollAt.None?)
    || Recent(v.startedAt, observedAt, staleAfter)
    || Recent(v.lastPollAt, observedAt, staleAfter)
  }

  /** A streak below the threshold; one that is not configured counts as zero. */
  predicate Below(v: View, name: string, threshold: int) {
    name in v.streaks ==> v.streaks[name] < threshold
  }

  predicate Sound(v: View, observedAt: int, staleAfter: int, threshold: int) {
    && v.running && Live(v, observedAt, staleAfter)
    && Below(v, "poll_errors", threshold) && Below(v, "gap_rewarmups", threshold)
  }

  /** The object: each call is one locked update. */
  class Runner {
    var view: View
    const staleAfter: int
    const threshold: int

    constructor (names: set<string>, staleAfter: int, threshold: int)
      requires staleAfter > 0 && threshold > 0 && names != {} && "" !in names
      ensures view == Fresh(names) && this.staleAfter == staleAfter && this.threshold == threshold
      ensures !view.running && view.startedAt == view.lastPollAt == None
      ensures view.lastSuccessfulPollAt == view.lastProgressAt == None
      ensures view.counters.Keys == names && forall n :: n in names ==> view.counters[n] == 0
      ensures forall n :: n in view.streaks <==> n in names && (n == "poll_errors" || n == "gap_rewarmups")
      ensures forall n :: n in view.streaks ==> view.streaks[n] == 0
    {
      view := Fresh(names);
      this.staleAfter := staleAfter;
      this.threshold := threshold;
    }

    method MarkRunning(now: int)
      modifies this`view
      ensures view == Step(old(view), Event.MarkRunning(now)).0
    {
      view := view.(running := true);
      view := view.(startedAt := Some(now));
      var names := view.streaks.Keys;
      ghost var before := view.streaks;
      while names != {}
        invariant names <= view.streaks.Keys == before.Keys
        invariant forall n :: n in before && n !in names ==> view.streaks[n] == 0
        invariant view == old(view).(running := true, startedAt := Some(now), streaks := view.streaks)
        decreases |names|
      {
        var n :| n in names;
        view := view.(streaks := view.streaks[n := 0]);
        names := names - {n};
      }
      assert view.streaks == map n | n in before :: 0;
    }

    method RecordPollSuccess(now: int, gapRewarmed: bool)
      modifies this`view
      ensures view == Step(old(view), PollSuccess(now, gapRewarmed)).0
    {
      view := view.(lastSuccessfulPollAt := Some(now));
      view := view.(streaks := view.streaks["poll_errors" := 0]);
      if !gapRewarmed {
        if "gap_rewarmups" in view.streaks {
          view := view.(streaks := view.streaks["gap_rewarmups" := 0]);
        }
      }
    }

    /** `record_poll_error` and `record_gap_rewarmup`; false stands for the exception. */
    method RecordFailure(gap: bool) returns (ok: bool)
      modifies this`view
      ensures (view, ok) == Step(old(view), if gap then GapRewarmup else PollError)
    {
      var name := if gap then "gap_rewarmups" else "poll_errors";
      if name !in view.counters {
        return false;
      }
      view := view.(counters := view.counters[name := view.counters[name] + 1]);
      if name !in view.streaks {
        return false;
      }
      view := view.(streaks := view.streaks[name := view.streaks[name] + 1]);
      ok := true;
    }

    method MarkStopped()
      modifies this`view
      ensures view == Step(old(view), Event.MarkStopped).0
    {
      view := view.(running := false);
    }

    method RecordWarmup() returns (ok: bool)
      modifies this`view
      ensures (view, ok) == Step(old(view), Warmup)
    {
      if "warmups" !in view.counters {
        return false;
      }
      view := view.(counters := view.counters["warmups" := view.counters["warmups"] + 1]);
      ok := true;
    }

    method RecordPoll(now: int) returns (ok: bool)
      modifies this`view
      ensures (view, ok) == Step(old(view), Poll(now))
    {
      if "poll_cycles" !in view.counters {
        return false;
      }
      view := view.(counters := view.counters["poll_cycles" := view.counters["poll_cycles"] + 1]);
      view := view.(lastPollAt := Some(now));
      ok := true;
    }

    /** Two counters in turn: when the second is not configured, the first has already moved. */
    method RecordProcessed(now: int, count: int, gapsDetected: int) returns (ok: bool)
      modifies this`view
      ensures (view, ok) == Step(old(view), Processed(now, count, gapsDetected))
    {
      if count < 0 || gapsDetected < 0 || "records_processed" !in view.counters {
        return false;
      }
      view := view.(counters := view.counters["records_processed" := view.counters["records_processed"] + count]);
      if "gaps_detected" !in view.counters {
        return false;
      }
      view := view.(counters := view.counters["gaps_detected" := view.counters["gaps_detected"] + gapsDetected]);
      if count != 0 {
        view := view.(lastProgressAt := Some(now));
      }
      ok := true;
    }

    /** `record_signal_generated`, or `record_signal_consumed` for a given outcome. */
    method RecordSignals(now: int, consumed: Option<Outcome>, count: int) returns (ok: bool)
      modifies this`view
      ensures (view, ok) == Step(old(view), if consumed.None? then SignalGenerated(now, count)
                                            else SignalConsumed(now, consumed.value, count))
    {
      var name := if consumed.None? then "signals_generated" else ConsumedCounter(consumed.value);
      if count < 0 {
        return false;
      }
      if count == 0 {
        return true;
      }
      if name !in view.counters {
        return false;
      }
      view := view.(counters := view.counters[name := view.counters[name] + count]);
      view := view.(lastProgressAt := Some(now));
      ok := true;
    }

    /** The health of a snapshot taken at `observedAt`: the branches are those of the program. */
    method HealthSnapshot(observedAt: int) returns (health: Health)
      requires threshold > 0
      ensures health.Raised? <==> view.running && Live(view, observedAt, staleAfter) && "poll_errors" !in view.streaks
      ensures health.Reported? ==> (health.healthy <==> Sound(view, observedAt, staleAfter, threshold))
      ensures health.Reported? ==> (health.reason == None <==> health.healthy || !view.running)
      ensures health == Reported(false, Some(PollStalled)) <==> view.running && !Live(view, observedAt, staleAfter)
      ensures health == Reported(false, Some(PollErrors)) <==>
                view.running && Live(view, observedAt, staleAfter) && !Below(view, "poll_errors", threshold)
    {
      if !view.running {
        return Reported(false, None);
      }
      var reference := view.startedAt;
      if view.lastPollAt.Some? && (reference.None? || view.lastPollAt.value > reference.value) {
        reference := view.lastPollAt;
      }
      if reference.Some? && observedAt - reference.value > staleAfter {
        return Reported(false, Some(PollStalled));
      }
      if "poll_errors" !in view.streaks {
        return Raised;
      }
      if view.streaks["poll_errors"] >= threshold {
        return Reported(false, Some(PollErrors));
      }
      if (if "gap_rewarmups" in view.streaks then view.streaks["gap_rewarmups"] else 0) >= threshold {
        return Reported(false, Some(GapRewarmups));
      }
      health := Reported(true, None);
    }
  }

  // ---- the history ---------------------------------------------------------------------------

  /** The state after a whole sequence of calls. */
  function After(names: set<string>, events: seq<Event>): View {
    if events == [] then Fresh(names) else Step(After(names, events[..|events| - 1]), events[|events| - 1]).0
  }

  predicate ResetsPolls(e: Event) { e.MarkRunning? || e.PollSuccess? }

  predicate ResetsGaps(e: Event) { e.MarkRunning? || (e.PollSuccess? && !e.gapRewarmed) }

  /** The number of poll errors since the last call that resets their streak. */
  function PollErrorsSinceReset(events: seq<Event>): nat {
    if events == [] then 0 else
      var before, e := events[..|events| - 1], events[|events| - 1];
      if ResetsPolls(e) then 0 else PollErrorsSinceReset(before) + if e.PollError? then 1 else 0
  }

  function GapsSinceReset(events: seq<Event>): nat {
    if events == [] then 0 else
      var before, e := events[..|events| - 1], events[|events| - 1];
      if ResetsGaps(e) then 0 else GapsSinceReset(before) + if e.GapRewarmup? then 1 else 0
  }

  function CountErrors(events: seq<Event>): nat {
    if events == [] then 0 else CountErrors(events[..|events| - 1]) + if events[|events| - 1].PollError? then 1 else 0
  }

  function CountGaps(events: seq<Event>): nat {
    if events == [] then 0 else CountGaps(events[..|events| - 1]) + if events[|events| - 1].GapRewarmup? then 1 else 0
  }

  /** The last mark says running. */
  predicate RunningAfter(events: seq<Event>) {
    if events == [] then false else
      var e := events[|events| - 1];
      e.MarkRunning? || (!e.MarkStopped? && RunningAfter(events[..|events| - 1]))
  }

  /** The time of the last start, and of the last poll; polls are refused unless their counter is configured. */
  function LastStart(events: seq<Event>): Option<int> {
    if events == [] then None else
      var e := events[|events| - 1];
      if e.MarkRunning? then Some(e.now) else LastStart(events[..|events| - 1])
  }

  function LastPoll(counted: bool, events: seq<Event>): Option<int> {
    if events == [] then None else
      var e := events[|events| - 1];
      if counted && e.Poll? then Some(e.now) else LastPoll(counted, events[..|events| - 1])
  }

  function LastSuccess(events: seq<Event>): Option<int> {
    if events == [] then None else
      var e := events[|events| - 1];
      if e.PollSuccess? then Some(e.now) else LastSuccess(events[..|events| - 1])
  }

  ghost predicate Configured(names: set<string>) { {"poll_errors", "gap_rewarmups"} <= names }

  /** What the whole history determines. */
  ghost predicate Summarizes(v: View, names: set<string>, events: seq<Event>) {
    && v.counters.Keys == names
    && v.streaks.Keys == {"poll_errors", "gap_rewarmups"}
    && "poll_errors" in v.counters && "gap_rewarmups" in v.counters
    && v.streaks["poll_errors"] == PollErrorsSinceReset(events)
    && v.streaks["gap_rewarmups"] == GapsSinceReset(events)
    && v.counters["poll_errors"] == CountErrors(events)
    && v.counters["gap_rewarmups"] == CountGaps(events)
    && v.running == RunningAfter(events)
    && v.startedAt == LastStart(events)
    && v.lastPollAt == LastPoll("poll_cycles" in names, events)
    && v.lastSuccessfulPollAt == LastSuccess(events)
    && (v.running ==> v.startedAt.Some?)
  }

  predicate Quiet(e: Event) {
    e.Warmup? || e.SignalGenerated? || e.SignalConsumed? || e.Processed?
  }

  /** Every counter but those of the failures. */
  predicate Harmless(name: string) { name !in {"poll_errors", "gap_rewarmups"} }

  lemma QuietNames(o: Outcome)
    ensures Harmless("warmups") && Harmless("signals_generated") && Harmless(ConsumedCounter(o))
    ensures Harmless("records_processed") && Harmless("gaps_detected")
  {
    assert "warmups"[0] == 'w' && "signals_generated"[0] == 's';
    assert ConsumedCounter(o)[0] == 's' && "records_processed"[0] == 'r';
    assert "gaps_detected"[3] == 's' && "gap_rewarmups"[3] == '_' && "gaps_detected"[0] == 'g';
  }

  /** The failure counters, streaks and liveness stay as they are. */
  ghost predicate SameFailures(v: View, t: View) {
    && t.streaks == v.streaks && t.running == v.running
    && t.startedAt == v.startedAt && t.lastPollAt == v.lastPollAt
    && t.lastSuccessfulPollAt == v.lastSuccessfulPollAt
    && t.counters.Keys == v.counters.Keys
    && forall n :: n in {"poll_errors", "gap_rewarmups"} && n in v.counters ==> t.counters[n] == v.counters[n]
  }

  lemma QuietAdd(v: View, name: string, count: int)
    requires name in v.counters && Harmless(name)
    ensures SameFailures(v, Add(v, name, count))
  {
  }

  /** Calls that only count. */
  lemma QuietStep(v: View, e: Event)
    requires Quiet(e)
    ensures SameFailures(v, Step(v, e).0)
  {
    QuietNames(if e.SignalConsumed? then e.outcome else Filled);
    hide Harmless, ConsumedCounter, Add;
    match e
    case Warmup =>
      if "warmups" in v.counters { QuietAdd(v, "warmups", 1); }
    case SignalGenerated(_, count) =>
      if "signals_generated" in v.counters { QuietAdd(v, "signals_generated", count); }
    case SignalConsumed(_, outcome, count) =>
      if ConsumedCounter(outcome) in v.counters { QuietAdd(v, ConsumedCounter(outcome), count); }
    case Processed(_, count, gaps) =>
      if "records_processed" in v.counters {
        QuietAdd(v, "records_processed", count);
        var counted := Add(v, "records_processed", count);
        if "gaps_detected" in v.counters { QuietAdd(counted, "gaps_detected", gaps); }
      }
  }

  /** How each summary moves with one more call. */
  lemma Extend(counted: bool, events: seq<Event>, e: Event)
    ensures var next := events + [e];
            && PollErrorsSinceReset(next)
                 == (if ResetsPolls(e) then 0 else PollErrorsSinceReset(events) + if e.PollError? then 1 else 0)
            && GapsSinceReset(next)
                 == (if ResetsGaps(e) then 0 else GapsSinceReset(events) + if e.GapRewarmup? then 1 else 0)
            && CountErrors(next) == CountErrors(events) + (if e.PollError? then 1 else 0)
            && CountGaps(next) == CountGaps(events) + (if e.GapRewarmup? then 1 else 0)
            && RunningAfter(next) == (e.MarkRunning? || (!e.MarkStopped? && RunningAfter(events)))
            && LastStart(next) == (if e.MarkRunning? then Some(e.now) else LastStart(events))
            && LastSuccess(next) == (if e.PollSuccess? then Some(e.now) else LastSuccess(events))
            && LastPoll(counted, next) == (if counted && e.Poll? then Some(e.now) else LastPoll(counted, events))
  {
    var next := events + [e];
    assert next[..|next| - 1] == events && next[|next| - 1] == e;
  }

  lemma SummaryStep(v: View, names: set<string>, events: seq<Event>, e: Event)
    requires Configured(names) && Summarizes(v, names, events)
    ensures Summarizes(Step(v, e).0, names, events + [e])
  {
    hide PollErrorsSinceReset, GapsSinceReset, CountErrors, CountGaps, RunningAfter, LastStart, LastPoll, LastSuccess;
    Extend("poll_cycles" in names, events, e);
    if Quiet(e) {
      QuietStep(v, e);
      hide Step;
    } else {
      LoudStep(v, names, events, e);
    }
  }

  lemma LoudStep(v: View, names: set<string>, events: seq<Event>, e: Event)
    requires Configured(names) && Summarizes(v, names, events) && !Quiet(e)
    ensures Summarizes(Step(v, e).0, names, events + [e])
  {
    hide PollErrorsSinceReset, GapsSinceReset, CountErrors, CountGaps, RunningAfter, LastStart, LastPoll, LastSuccess;
    Extend("poll_cycles" in names, events, e);
    assert "poll_errors"[0] != "gap_rewarmups"[0];
    assert |"poll_cycles"| == |"poll_errors"| && "poll_cycles"[5] != "poll_errors"[5];
  }

  /** Streaks, counters and liveness are functions of the call history. */
  lemma {:induction false} HistoryDetermines(names: set<string>, events: seq<Event>)
    requires Configured(names)
    ensures Summarizes(After(names, events), names, events)
    decreases |events|
  {
    if events != [] {
      var m := |events| - 1;
      HistoryDetermines(names, events[..m]);
      SummaryStep(After(names, events[..m]), names, events[..m], events[m]);
      assert events == events[..m] + [events[m]];
    }
  }

  // ---- all counters and the progress time ----------------------------------------------------

  /** What one call adds to the counter of this name. */
  function Adds(names: set<string>, e: Event, name: string): int {
    match e
    case Warmup => if name == "warmups" then 1 else 0
    case Poll(_) => if name == "poll_cycles" then 1 else 0
    case PollError => if name == "poll_errors" then 1 else 0
    case GapRewarmup => if name == "gap_rewarmups" then 1 else 0
    case SignalGenerated(_, count) => if name == "signals_generated" && count > 0 then count else 0
    case SignalConsumed(_, outcome, count) =>
      if count <= 0 then 0
      else if name == "signals_consumed_filled" && outcome == Filled then count
      else if name == "signals_consumed_rejected" && outcome == Rejected then count
      else if name == "signals_consumed_skipped" && outcome == Skipped then count
      else 0
    case Processed(_, count, gaps) =>
      if count < 0 || gaps < 0 || "records_processed" !in names then 0
      else if name == "records_processed" then count
      else if name == "gaps_detected" then gaps
      else 0
    case _ => 0
  }

  function Total(names: set<string>, events: seq<Event>, name: string): int {
    if events == [] then 0 else
      Total(names, events[..|events| - 1], name) + Adds(names, events[|events| - 1], name)
  }

  /** The call counts as progress: signals or records, and their counters are configured. */
  predicate MakesProgress(names: set<string>, e: Event) {
    match e
    case SignalGenerated(_, count) => count > 0 && "signals_generated" in names
    case SignalConsumed(_, outcome, count) => count > 0 && exists n :: n in names && Adds(names, e, n) > 0
    case Processed(_, count, gaps) => count > 0 && gaps >= 0 && {"records_processed", "gaps_detected"} <= names
    case _ => false
  }

  function LastProgress(names: set<string>, events: seq<Event>): Option<int> {
    if events == [] then None else
      var e := events[|events| - 1];
      if MakesProgress(names, e) then Some(e.now) else LastProgress(names, events[..|events| - 1])
  }

  lemma ProcessedAdds(v: View, e: Event, name: string)
    requires e.Processed? && name in v.counters
    ensures Step(v, e).0.counters.Keys == v.counters.Keys
    ensures Step(v, e).0.counters[name] == v.counters[name] + Adds(v.counters.Keys, e, name)
    ensures Step(v, e).0.lastProgressAt == if MakesProgress(v.counters.Keys, e) then Some(e.now) else v.lastProgressAt
  {
    assert "records_processed"[0] != "gaps_detected"[0];
  }

  lemma ConsumedAdds(v: View, e: Event, name: string)
    requires e.SignalConsumed? && name in v.counters
    ensures Step(v, e).0.counters.Keys == v.counters.Keys
    ensures Step(v, e).0.counters[name] == v.counters[name] + Adds(v.counters.Keys, e, name)
    ensures Step(v, e).0.lastProgressAt == if MakesProgress(v.counters.Keys, e) then Some(e.now) else v.lastProgressAt
  {
    var names := v.counters.Keys;
    if e.count > 0 && ConsumedCounter(e.outcome) in names { assert Adds(names, e, ConsumedCounter(e.outcome)) > 0; }
  }

  /** One call adds to the counters what its kind and outcome say, and moves the progress time on progress. */
  lemma StepAdds(v: View, e: Event, name: string)
    requires name in v.counters
    ensures Step(v, e).0.counters.Keys == v.counters.Keys
    ensures Step(v, e).0.counters[name] == v.counters[name] + Adds(v.counters.Keys, e, name)
    ensures Step(v, e).0.lastProgressAt == if MakesProgress(v.counters.Keys, e) then Some(e.now) else v.lastProgressAt
  {
    if e.Processed? {
      ProcessedAdds(v, e, name);
    } else if e.SignalConsumed? {
      ConsumedAdds(v, e, name);
    }
  }

  /** Every counter is the sum over the whole history, and the progress time that of the last progress. */
  lemma {:induction false} CountersAreTotals(names: set<string>, events: seq<Event>, name: string)
    requires name in names
    ensures After(names, events).counters.Keys == names
    ensures After(names, events).counters[name] == Total(names, events, name)
    ensures After(names, events).lastProgressAt == LastProgress(names, events)
    decreases |events|
  {
    if events != [] {
      var m := |events| - 1;
      CountersAreTotals(names, events[..m], name);
      hide Step, Adds, MakesProgress;
      StepAdds(After(names, events[..m]), events[m], name);
    }
  }

  /** A streak never exceeds its counter. */
  lemma {:induction false} StreaksBounded(events: seq<Event>)
    ensures PollErrorsSinceReset(events) <= CountErrors(events)
    ensures GapsSinceReset(events) <= CountGaps(events)
    decreases |events|
  {
    if events != [] { StreaksBounded(events[..|events| - 1]); }
  }

  /**
   * Health over a whole history: with both streaks configured the snapshot never raises, it reports a
   * stall exactly when neither the last start nor the last poll is recent, and it is healthy exactly
   * when moreover fewer failures than the threshold followed the last reset of each streak.
   */
  lemma HealthIsHistory(names: set<string>, events: seq<Event>, observedAt: int, staleAfter: int, threshold: int)
    requires Configured(names)
    ensures var v := After(names, events);
            var recent := Recent(LastStart(events), observedAt, staleAfter)
                          || Recent(LastPoll("poll_cycles" in names, events), observedAt, staleAfter);
            && "poll_errors" in v.streaks
            && (v.running && !Live(v, observedAt, staleAfter) <==> RunningAfter(events) && !recent)
            && (Sound(v, observedAt, staleAfter, threshold) <==>
                  && RunningAfter(events) && recent
                  && PollErrorsSinceReset(events) < threshold && GapsSinceReset(events) < threshold)
  {
    HistoryDetermines(names, events);
  }
}
