/** Jobs whose success could not be announced, and the FAILED that may follow. */
module LateFailures {
  import opened JobRegistry
  import opened JobProtocol

  function Final(run: seq<State>): State { if run == [] then Init() else run[|run| - 1] }

  // ---- a status after a final one ------------------------------------------------------------

  /** Step `l` is a raising wakeup of the job's success. */
  ghost predicate RaisesAt(run: seq<State>, actions: seq<Action>, l: nat, j: JobId)
    requires l < |actions| && l < |run|
  {
    actions[l] == ScheduleRaises(j) && j in run[l].workers && run[l].workers[j] == NotifySucceeded
  }

  /** Before step `i`, scheduling the wakeup of the job's SUCCEEDED raised. */
  ghost predicate SuccessRaised(run: seq<State>, actions: seq<Action>, i: nat, j: JobId)
    requires i <= |actions| <= |run|
  {
    exists l :: 0 <= l < i && RaisesAt(run, actions, l, j)
  }

  /** Step `l` is a handler's FAILED that finds the job's entry. */
  ghost predicate HandlesAt(run: seq<State>, actions: seq<Action>, l: nat, j: JobId)
    requires l < |actions| && l < |run|
  {
    actions[l].StoreFailed? && actions[l].id == j && j in run[l].states
  }

  /** Before step `i`, the job's handler stored FAILED. */
  ghost predicate HandlerStored(run: seq<State>, actions: seq<Action>, i: nat, j: JobId)
    requires i <= |actions| <= |run|
  {
    exists l :: 0 <= l < i && HandlesAt(run, actions, l, j)
  }

  /** A final status that another status follows. */
  ghost predicate Overwritten(h: seq<JobState>) {
    exists a :: 0 <= a < |h| - 1 && Terminal(h[a].status)
  }

  /** What the two facts about the past show in the job's worker and history. */
  ghost predicate Shows(s: State, j: JobId, raised: bool, handled: bool) {
    if j !in s.history || j !in s.workers then !raised && !handled else
      var h := s.history[j];
      && (|h| == 4 ==> raised && handled)
      && (Successful(h) && s.workers[j] in {Handling, Missed} ==> raised)
      && (raised ==> |h| == 4 || Successful(h))
      && (handled ==> Unsuccessful(h))
  }

  lemma ShowsStep(s: State, a: Action, j: JobId, raised: bool, handled: bool)
    requires Enabled(s, a) && (j in s.history ==> JobOk(s, j)) && (j in s.workers <==> j in s.history)
    requires Shows(s, j, raised, handled)
    ensures Shows(Apply(s, a), j,
                  raised || (a == ScheduleRaises(j) && j in s.workers && s.workers[j] == NotifySucceeded),
                  handled || (a.StoreFailed? && a.id == j && j in s.states))
  {
    if LoopAction(a) {
      LoopFrame(s, a);
      hide Apply, Enabled;
    } else if j != a.id {
      WorkerFrame(s, a, j);
      hide Apply, Enabled;
    } else {
      OwnShows(s, a, raised, handled);
      hide *;
    }
  }

  lemma OwnShows(s: State, a: Action, raised: bool, handled: bool)
    requires Enabled(s, a) && !LoopAction(a)
    requires var j := a.id; (j in s.history ==> JobOk(s, j)) && (j in s.workers <==> j in s.history)
    requires Shows(s, a.id, raised, handled)
    ensures Shows(Apply(s, a), a.id,
                  raised || (a.ScheduleRaises? && a.id in s.workers && s.workers[a.id] == NotifySucceeded),
                  handled || (a.StoreFailed? && a.id in s.states))
  {
    hide Pruned;
  }

  lemma PastMore(run: seq<State>, actions: seq<Action>, i: nat, j: JobId)
    requires i < |actions| <= |run|
    ensures SuccessRaised(run, actions, i + 1, j) <==> SuccessRaised(run, actions, i, j) || RaisesAt(run, actions, i, j)
    ensures HandlerStored(run, actions, i + 1, j) <==>
              HandlerStored(run, actions, i, j) || HandlesAt(run, actions, i, j)
  {
    hide RaisesAt, HandlesAt;
  }

  lemma NoPast(run: seq<State>, actions: seq<Action>, j: JobId)
    requires |actions| <= |run|
    ensures !SuccessRaised(run, actions, 0, j) && !HandlerStored(run, actions, 0, j)
    ensures Shows(Init(), j, false, false)
  {
  }

  lemma ShowsAt(run: seq<State>, actions: seq<Action>, i: nat, j: JobId, raised: bool, handled: bool)
    requires Run(run, actions) && i < |actions| && i < |run| && Shows(run[i], j, raised, handled)
    ensures i + 1 < |run|
    ensures Shows(run[i + 1], j, raised || RaisesAt(run, actions, i, j), handled || HandlesAt(run, actions, i, j))
  {
    RunStart(run, actions);
    RunKeeps(run, actions, i);
    RunStep(run, actions, i + 1);
    hide Run, Shows, Apply, Inv, JobOk, Enabled;
    HistoryOk(run[i], j);
    ShowsStep(run[i], actions[i], j, raised, handled);
  }

  lemma {:induction false} PastShows(run: seq<State>, actions: seq<Action>, i: nat, j: JobId)
    requires Run(run, actions) && i < |run|
    ensures i <= |actions| <= |run|
    ensures Shows(run[i], j, SuccessRaised(run, actions, i, j), HandlerStored(run, actions, i, j))
    decreases i
  {
    hide *;
    RunStart(run, actions);
    if i == 0 {
      NoPast(run, actions, j);
    } else {
      PastShows(run, actions, i - 1, j);
      ShowsAt(run, actions, i - 1, j, SuccessRaised(run, actions, i - 1, j), HandlerStored(run, actions, i - 1, j));
      PastMore(run, actions, i - 1, j);
    }
  }

  lemma HistoryOk(s: State, j: JobId)
    requires Inv(s)
    ensures j in s.history ==> JobOk(s, j)
    ensures j in s.workers <==> j in s.history
  {
    hide JobOk, StreamOk;
  }

  /**
   * Over every run, a final status is followed by another status exactly when scheduling the wakeup of
   * the job's success raised and its handler stored FAILED.
   */
  lemma TerminalAbsorbsExactly(run: seq<State>, actions: seq<Action>, i: nat, j: JobId)
    requires Run(run, actions) && i < |run| && j in run[i].history
    ensures Overwritten(run[i].history[j]) <==> SuccessRaised(run, actions, i, j) && HandlerStored(run, actions, i, j)
  {
    RunKeeps(run, actions, i);
    HistoryOk(run[i], j);
    PastShows(run, actions, i, j);
    hide Run, Inv, SuccessRaised, HandlerStored, WorkerFits;
    var h := run[i].history[j];
    if |h| == 4 { assert Terminal(h[2].status); }
  }

  /** Clients that were told a final status were told the same one, unless the wakeup of a success raised. */
  lemma FinalStatusAgrees(run: seq<State>, actions: seq<Action>, i: nat, k: nat, l: nat)
    requires Run(run, actions) && i < |run| && k in run[i].streams && l in run[i].streams
    requires run[i].streams[k].pc == Ended(TerminalSent) && run[i].streams[l].pc == Ended(TerminalSent)
    requires run[i].streams[k].job == run[i].streams[l].job
    requires !SuccessRaised(run, actions, i, run[i].streams[k].job)
    ensures run[i].streams[k].sent != [] && run[i].streams[l].sent != []
    ensures Last(run[i].streams[k].sent) == Last(run[i].streams[l].sent)
  {
    var s, j := run[i], run[i].streams[k].job;
    StreamContract(run, actions, i, k);
    StreamContract(run, actions, i, l);
    RunKeeps(run, actions, i);
    HistoryOk(s, j);
    PastShows(run, actions, i, j);
    hide Run, Inv, SuccessRaised, HandlerStored, WorkerFits;
    LastSentIsThird(s.streams[k].sent, s.history[j]);
    LastSentIsThird(s.streams[l].sent, s.history[j]);
  }

  lemma LastSentIsThird(sent: seq<JobState>, h: seq<JobState>)
    requires Lifecycle(h) && |h| != 4 && Faithful(sent, h) && sent != [] && Terminal(Last(sent).status)
    ensures |h| == 3 && Last(sent) == h[2]
  {
  }

  /**
   * Retention over every run: entries and events agree, and only finished jobs are forgotten. An update
   * that finds no entry comes from a handler whose job stored SUCCEEDED and whose wakeup then raised.
   */
  lemma RetentionContract(run: seq<State>, actions: seq<Action>, i: nat, j: JobId)
    requires Run(run, actions) && i < |run| && j in run[i].history
    ensures var s := run[i];
            && s.states.Keys == s.events
            && Lifecycle(s.history[j])
            && (j in s.states ==> s.states[j] == Last(s.history[j]))
            && (j !in s.states ==> |s.history[j]| >= 3 && Terminal(Last(s.history[j]).status))
            && j in s.workers
            && (s.workers[j] in {Queued, NotifyRunning, Working} ==> j in s.states)
            && (s.workers[j] == Missed ==>
                  j !in s.states && Successful(s.history[j]) && SuccessRaised(run, actions, i, j))
  {
    RunKeeps(run, actions, i);
    PastShows(run, actions, i, j);
    hide Run, SuccessRaised, HandlerStored;
    RetainedJob(run[i], j);
    hide Inv, Lifecycle;
  }

  lemma RetainedJob(s: State, j: JobId)
    requires Inv(s) && j in s.history
    ensures s.states.Keys == s.events && Lifecycle(s.history[j]) && j in s.workers
    ensures j in s.states ==> s.states[j] == Last(s.history[j])
    ensures j !in s.states ==> |s.history[j]| >= 3 && Terminal(Last(s.history[j]).status)
    ensures s.workers[j] in {Queued, NotifyRunning, Working} ==> j in s.states
    ensures s.workers[j] == Missed ==> j !in s.states && Successful(s.history[j])
  {
    hide StreamOk;
    assert JobOk(s, j);
    hide Inv;
  }
}
