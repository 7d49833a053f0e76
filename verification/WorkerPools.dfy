/** The worker pool: with one worker an update finds its job, with two it need not. */
module WorkerPools {
  import opened Sequences
  import opened JobRegistry
  import opened JobProtocol
  import opened LateFailures

  // ---- runs of a pool ------------------------------------------------------------------------

  /** The worker thread is inside the job function. */
  predicate Inside(w: Worker) { w in {NotifyRunning, Working, Handling, NotifySucceeded, NotifyFailed} }

  ghost function Live(s: State): set<JobId> { set j | j in s.workers && Inside(s.workers[j]) }

  /**
   * A step that at most `n` worker threads can take, with a clock that moves on: a job starts when a
   * thread is free, and a success is later than every final snapshot in the registry.
   */
  ghost predicate Allowed(n: nat, s: State, a: Action) {
    && Enabled(s, a)
    && (a.StoreRunning? ==> |Live(s)| < n)
    && (a.StoreSucceeded? ==> forall r :: r in Finished(s.states) ==> s.states[r].updatedAt < a.now)
  }

  ghost predicate PoolRun(n: nat, run: seq<State>, actions: seq<Action>) {
    Run(run, actions) && forall i :: 0 <= i < |actions| && i < |run| ==> Allowed(n, run[i], actions[i])
  }

  /** The jobs whose function was left by an exception that its handler did not store. */
  ghost function EscapedJobs(actions: seq<Action>): set<JobId> {
    set i | 0 <= i < |actions| && actions[i].Escape? :: actions[i].id
  }

  // ---- one worker ------------------------------------------------------------------------------

  /** A success that its worker has not left: no other final snapshot is as new, but those of escaped jobs. */
  ghost predicate Newest(s: State, k: JobId, escaped: set<JobId>) {
    && k in s.states
    && forall r :: r in Finished(s.states) && r != k ==> r in escaped || s.states[r].updatedAt < s.states[k].updatedAt
  }

  ghost predicate AloneOk(s: State, k: JobId, escaped: set<JobId>)
    requires k in s.workers && k in s.history
  {
    && s.workers[k] != Missed
    && (s.workers[k] == Escaped && |s.history[k]| == 2 ==> k in escaped)
    && (Inside(s.workers[k]) && Successful(s.history[k]) ==> Newest(s, k, escaped))
  }

  /** What holds in every state of a pool of one. */
  ghost predicate Alone(s: State, escaped: set<JobId>) {
    && (forall k :: k in s.workers <==> k in s.history)
    && (forall j, k :: j in Live(s) && k in Live(s) ==> j == k)
    && (forall k :: k in s.history ==> AloneOk(s, k, escaped))
  }

  /** Pruning keeps the newest success: only escaped jobs could be as new, and they are too few. */
  lemma PrunedKeepsNewest(before: map<JobId, JobState>, after: map<JobId, JobState>, k: JobId, escaped: set<JobId>)
    requires Pruned(before, after) && k in before && |escaped| < MAX_RETAINED_FINISHED_JOBS
    requires forall r :: r in Finished(before) && r != k ==> r in escaped || before[r].updatedAt < before[k].updatedAt
    ensures k in after
  {
    if k !in after {
      assert k in before.Keys - after.Keys;
      ManyKept(before, after, k);
      forall r | r in Finished(after) ensures r in escaped {
        assert r in Finished(before) && KeyLeq(before[k], before[r]);
      }
      SubsetSmaller(Finished(after), escaped);
      assert false;
    }
  }

  /** When something is dropped, the cap is met. */
  lemma ManyKept(before: map<JobId, JobState>, after: map<JobId, JobState>, k: JobId)
    requires Pruned(before, after) && k in before && k !in after
    ensures |Finished(after)| == MAX_RETAINED_FINISHED_JOBS
  {
    hide KeyLeq;
    assert k in before.Keys - after.Keys && k in Finished(before) && k !in Finished(after);
    assert Finished(after) <= Finished(before);
    if |Finished(before)| <= MAX_RETAINED_FINISHED_JOBS {
      SubsetSameSize(Finished(after), Finished(before));
      assert false;
    }
  }

  lemma NewestStays(s: State, a: Action, k: JobId, escaped: set<JobId>)
    requires a.Register? && Enabled(s, a) && Newest(s, k, escaped) && a.id != k
    requires |escaped| < MAX_RETAINED_FINISHED_JOBS
    ensures Newest(Apply(s, a), k, escaped)
  {
    RegisteredStates(s, a);
    hide Enabled, Apply, Pruned;
    PrunedKeepsNewest(s.states, a.pruned, k, escaped);
    PrunedFinished(s.states, a.pruned);
    var t := Apply(s, a);
    assert Finished(t.states) <= Finished(s.states);
  }

  lemma RegisteredStates(s: State, a: Action)
    requires a.Register? && Enabled(s, a)
    ensures Pruned(s.states, a.pruned) && Apply(s, a).states == a.pruned[a.id := Registered(a.id, a.now)]
  {
    hide Pruned;
  }

  lemma PrunedFinished(before: map<JobId, JobState>, after: map<JobId, JobState>)
    requires Pruned(before, after)
    ensures after.Keys <= before.Keys && forall j :: j in after ==> after[j] == before[j]
    ensures Finished(after) <= Finished(before)
  {
    hide KeyLeq;
  }

  lemma SubsetSmaller<T>(a: set<T>, b: set<T>)
    requires a <= b
    ensures |a| <= |b|
  {
    assert b == a + (b - a);
  }

  // ---- preservation by one step ----------------------------------------------------------------

  lemma LiveStep(s: State, a: Action, j: JobId)
    requires Enabled(s, a) && j in Live(Apply(s, a))
    ensures j in Live(s) || (a.StoreRunning? && j == a.id)
  {
    if LoopAction(a) {
      LoopFrame(s, a);
      hide Apply, Enabled;
    } else if j != a.id {
      WorkerFrame(s, a, j);
      hide Apply, Enabled;
    } else {
      hide Pruned;
    }
  }

  /** What the free thread means for a job that starts. */
  lemma StartsAlone(s: State, a: Action)
    requires Allowed(1, s, a) && a.StoreRunning?
    ensures Live(s) == {}
  {
    hide Enabled;
  }

  lemma AloneLive(s: State, a: Action, escaped: set<JobId>)
    requires Alone(s, escaped) && Allowed(1, s, a)
    ensures Enabled(s, a)
    ensures forall j, k :: j in Live(Apply(s, a)) && k in Live(Apply(s, a)) ==> j == k
  {
    if a.StoreRunning? { StartsAlone(s, a); }
    assert Enabled(s, a);
    forall j | j in Live(Apply(s, a)) ensures j in Live(s) || (a.StoreRunning? && j == a.id) {
      LiveStep(s, a, j);
    }
    hide Allowed, Enabled, Apply, Live, AloneOk;
  }

  /** A store on behalf of another job leaves the newest success alone when it is escaped. */
  lemma LateStore(s: State, id: JobId, status: Status, now: int, next: Worker, k: JobId, escaped: set<JobId>)
    requires Newest(s, k, escaped) && id in escaped && id != k
    ensures Newest(Store(s, id, status, now, next), k, escaped)
  {
    hide Updated;
  }

  /** A job's own snapshot becomes the newest one. */
  lemma OwnStore(s: State, id: JobId, status: Status, now: int, next: Worker, escaped: set<JobId>)
    requires id in s.states && id in s.history
    requires forall r :: r in Finished(s.states) ==> s.states[r].updatedAt < now
    ensures Newest(Store(s, id, status, now, next), id, escaped)
  {
    var t := Store(s, id, status, now, next);
    assert t.states[id].updatedAt == now;
    assert forall r :: r in Finished(t.states) && r != id ==> r in Finished(s.states) && t.states[r] == s.states[r];
  }

  /** The job that the step is about. */
  lemma AloneOwn(s: State, a: Action, escaped: set<JobId>)
    requires Enabled(s, a) && !LoopAction(a) && !a.Register? && a.id in s.history && JobOk(s, a.id)
    requires a.id in s.workers && AloneOk(s, a.id, escaped) && (a.Escape? ==> a.id in escaped)
    requires a.StoreSucceeded? ==> forall r :: r in Finished(s.states) ==> s.states[r].updatedAt < a.now
    ensures a.id in Apply(s, a).workers && a.id in Apply(s, a).history && AloneOk(Apply(s, a), a.id, escaped)
  {
    if a.StoreSucceeded? {
      OwnStore(s, a.id, SUCCEEDED, a.now, NotifySucceeded, escaped);
      hide Newest, Finished;
    } else if a.Schedule? || a.ScheduleRaises? || a.Raise? || a.Escape? || a.CancelQueued? {
      assert Apply(s, a).states == s.states && Apply(s, a).history == s.history;
    } else {
      hide Newest, Finished;
      NewestThere(s, a.id, escaped);
    }
  }

  lemma NewestThere(s: State, k: JobId, escaped: set<JobId>)
    ensures Newest(s, k, escaped) ==> k in s.states
  {
  }

  /** A success that its worker has not left, when another worker moves. */
  lemma AloneOther(s: State, a: Action, k: JobId, escaped: set<JobId>)
    requires Alone(s, escaped) && Allowed(1, s, a) && !LoopAction(a) && k != a.id && k in s.history
    requires Inv(s) && |escaped| < MAX_RETAINED_FINISHED_JOBS
    ensures k in Apply(s, a).workers && k in Apply(s, a).history && AloneOk(Apply(s, a), k, escaped)
  {
    assert Enabled(s, a) && AloneOk(s, k, escaped);
    WorkerFrame(s, a, k);
    if Inside(s.workers[k]) && Successful(s.history[k]) {
      assert k in Live(s);
      if a.StoreRunning? { StartsAlone(s, a); }
      NewestOther(s, a, k, escaped);
    }
    hide Allowed, Apply, Enabled, Inv, Alone, Newest;
  }

  /** Only escaped jobs store while another worker is inside. */
  lemma NewestOther(s: State, a: Action, k: JobId, escaped: set<JobId>)
    requires Enabled(s, a) && !LoopAction(a) && k != a.id && k in Live(s) && Newest(s, k, escaped)
    requires |escaped| < MAX_RETAINED_FINISHED_JOBS && !a.StoreRunning?
    requires forall j :: j in Live(s) ==> j == k
    requires a.id in s.history ==> a.id in s.workers && JobOk(s, a.id) && AloneOk(s, a.id, escaped)
    requires !a.Register? ==> a.id in s.history
    ensures Newest(Apply(s, a), k, escaped)
  {
    if a.Register? {
      NewestStays(s, a, k, escaped);
      hide *;
    } else if a.JobDone? {
      WorkerAt(s, a.id);
      hide Newest, JobOk, Pruned;
      if |s.history[a.id]| < 3 { LateStore(s, a.id, FAILED, a.now, NotifyLate, k, escaped); }
      hide Store;
      SameStatesNewest(s, s.(workers := s.workers[a.id := Done]), k, escaped);
    } else {
      assert a.id !in Live(s);
      assert Apply(s, a).states == s.states;
      SameStatesNewest(s, Apply(s, a), k, escaped);
      hide *;
    }
  }

  lemma SameStatesNewest(s: State, t: State, k: JobId, escaped: set<JobId>)
    requires t.states == s.states
    ensures Newest(t, k, escaped) <==> Newest(s, k, escaped)
  {
  }

  /** A job that has just been registered. */
  lemma AloneFresh(s: State, a: Action, escaped: set<JobId>)
    requires a.Register? && Enabled(s, a)
    ensures a.id in Apply(s, a).workers && a.id in Apply(s, a).history && AloneOk(Apply(s, a), a.id, escaped)
  {
    hide Pruned, Newest;
  }

  lemma AloneLoop(s: State, a: Action, k: JobId, escaped: set<JobId>)
    requires Enabled(s, a) && LoopAction(a) && k in s.workers && k in s.history && AloneOk(s, k, escaped)
    ensures k in Apply(s, a).workers && k in Apply(s, a).history && AloneOk(Apply(s, a), k, escaped)
  {
    LoopFrame(s, a);
    SameStatesNewest(s, Apply(s, a), k, escaped);
    hide Apply, Enabled, Newest;
  }

  lemma AloneHas(s: State, k: JobId, escaped: set<JobId>)
    requires Alone(s, escaped) && k in s.history
    ensures k in s.workers && AloneOk(s, k, escaped)
  {
    hide AloneOk, Live;
  }

  lemma ClockMoves(n: nat, s: State, a: Action)
    requires Allowed(n, s, a) && a.StoreSucceeded?
    ensures forall r :: r in Finished(s.states) ==> s.states[r].updatedAt < a.now
  {
    hide Enabled, Live;
  }

  lemma LoopKnown(s: State, a: Action)
    requires Enabled(s, a) && LoopAction(a)
    ensures Apply(s, a).history == s.history
  {
    LoopFrame(s, a);
    hide Apply, Enabled;
  }

  /** Where the job of a history after the step comes from. */
  lemma OtherKnown(s: State, a: Action, k: JobId)
    requires Enabled(s, a) && !LoopAction(a) && k != a.id && k in Apply(s, a).history
    ensures k in s.history
  {
    WorkerFrame(s, a, k);
    hide Apply, Enabled;
  }

  lemma AloneStep(s: State, a: Action, escaped: set<JobId>)
    requires Inv(s) && Alone(s, escaped) && Allowed(1, s, a)
    requires (a.Escape? ==> a.id in escaped) && |escaped| < MAX_RETAINED_FINISHED_JOBS
    ensures Enabled(s, a) && Alone(Apply(s, a), escaped)
  {
    hide Inv, Alone, Allowed, Enabled, Apply, AloneOk, Live, JobOk, Newest, Finished;
    AllowedEnabled(1, s, a);
    StepKeeps(s, a);
    AloneLive(s, a, escaped);
    var t := Apply(s, a);
    forall k ensures k in t.workers <==> k in t.history { HistoryOk(t, k); }
    forall k | k in t.history ensures k in t.workers && AloneOk(t, k, escaped) {
      if LoopAction(a) {
        LoopKnown(s, a);
        AloneHas(s, k, escaped);
        AloneLoop(s, a, k, escaped);
      } else if k != a.id {
        OtherKnown(s, a, k);
        AloneOther(s, a, k, escaped);
      } else if a.Register? {
        AloneFresh(s, a, escaped);
      } else {
        OwnKnown(s, a);
        HistoryOk(s, k);
        AloneHas(s, k, escaped);
        if a.StoreSucceeded? { ClockMoves(1, s, a); }
        AloneOwn(s, a, escaped);
      }
    }
    AloneParts(t, escaped);
  }

  lemma AloneParts(t: State, escaped: set<JobId>)
    requires forall k :: k in t.workers <==> k in t.history
    requires forall j, k :: j in Live(t) && k in Live(t) ==> j == k
    requires forall k :: k in t.history ==> k in t.workers && AloneOk(t, k, escaped)
    ensures Alone(t, escaped)
  {
    hide Live, AloneOk;
  }

  lemma AllowedEnabled(n: nat, s: State, a: Action)
    requires Allowed(n, s, a)
    ensures Enabled(s, a)
  {
    hide Enabled;
  }

  lemma OwnKnown(s: State, a: Action)
    requires Inv(s) && Enabled(s, a) && !LoopAction(a) && !a.Register?
    ensures a.id in s.history && a.id in s.workers
  {
    HistoryOk(s, a.id);
    hide Inv;
  }

  // ---- whole runs of one worker ------------------------------------------------------------------

  lemma PoolStart(n: nat, run: seq<State>, actions: seq<Action>)
    requires PoolRun(n, run, actions)
    ensures Run(run, actions) && |run| == |actions| + 1 && run[0] == Init()
  {
    RunStart(run, actions);
    hide Run, Allowed;
  }

  lemma PoolStep(n: nat, run: seq<State>, actions: seq<Action>, i: nat)
    requires PoolRun(n, run, actions) && 0 < i < |run|
    ensures i - 1 < |actions| && Allowed(n, run[i - 1], actions[i - 1]) && run[i] == Apply(run[i - 1], actions[i - 1])
    ensures actions[i - 1].Escape? ==> actions[i - 1].id in EscapedJobs(actions)
  {
    RunStep(run, actions, i);
    hide Run, Allowed, Apply, Enabled;
  }

  lemma AloneInit(escaped: set<JobId>)
    ensures Alone(Init(), escaped)
  {
  }

  lemma {:induction false} AloneAlways(run: seq<State>, actions: seq<Action>, i: nat)
    requires PoolRun(1, run, actions) && i < |run| && |EscapedJobs(actions)| < MAX_RETAINED_FINISHED_JOBS
    ensures Alone(run[i], EscapedJobs(actions))
    decreases i
  {
    hide *;
    PoolStart(1, run, actions);
    AloneInit(EscapedJobs(actions));
    if i > 0 {
      AloneAlways(run, actions, i - 1);
      PoolStep(1, run, actions, i);
      RunKeeps(run, actions, i - 1);
      AloneStep(run[i - 1], actions[i - 1], EscapedJobs(actions));
    }
  }

  /**
   * With the one permitted worker and fewer than 200 escaped jobs no update of any run finds its job
   * forgotten, raising wakeups included.
   */
  lemma OneWorkerNeverMisses(run: seq<State>, actions: seq<Action>, i: nat, j: JobId)
    requires PoolRun(1, run, actions) && i < |run| && |EscapedJobs(actions)| < MAX_RETAINED_FINISHED_JOBS
    ensures j in run[i].workers ==> run[i].workers[j] != Missed
  {
    AloneAlways(run, actions, i);
    hide PoolRun, EscapedJobs, Live;
    assert j in run[i].workers ==> j in run[i].history && AloneOk(run[i], j, EscapedJobs(actions));
  }

  // ---- continuing a run --------------------------------------------------------------------------

  /** A run of the pool continued by one more step. */
  lemma PoolMore(n: nat, run: seq<State>, actions: seq<Action>, a: Action)
    returns (run': seq<State>, actions': seq<Action>)
    requires PoolRun(n, run, actions) && Allowed(n, Final(run), a)
    ensures PoolRun(n, run', actions') && run <= run' && actions <= actions'
    ensures Final(run') == Apply(Final(run), a) && Inv(Final(run'))
    ensures EscapedJobs(actions') == EscapedJobs(actions) + (if a.Escape? then {a.id} else {})
  {
    hide *;
    AllowedEnabled(n, Final(run), a);
    run', actions' := run + [Apply(Final(run), a)], actions + [a];
    MorePool(n, run, actions, a);
    PoolInv(n, run', actions');
    FinalOf(run, Apply(Final(run), a));
    MoreEscapes(actions, a);
  }

  lemma FinalOf(run: seq<State>, s: State)
    ensures Final(run + [s]) == s
  {
  }

  lemma MorePool(n: nat, run: seq<State>, actions: seq<Action>, a: Action)
    requires PoolRun(n, run, actions) && Allowed(n, Final(run), a)
    ensures Enabled(Final(run), a) && PoolRun(n, run + [Apply(Final(run), a)], actions + [a])
  {
    hide Run, Apply, Enabled, Allowed;
    PoolStart(n, run, actions);
    AllowedEnabled(n, Final(run), a);
    MoreRun(run, actions, a);
    var run', actions' := run + [Apply(Final(run), a)], actions + [a];
    forall i | 0 <= i < |actions'| && i < |run'| ensures Allowed(n, run'[i], actions'[i]) {
      assert i < |actions| ==> Allowed(n, run[i], actions[i]);
    }
  }

  lemma MoreRun(run: seq<State>, actions: seq<Action>, a: Action)
    requires Run(run, actions) && Enabled(Final(run), a)
    ensures Run(run + [Apply(Final(run), a)], actions + [a])
  {
    hide Apply, Enabled;
    var run', actions' := run + [Apply(Final(run), a)], actions + [a];
    forall i | 0 <= i < |actions'| ensures Enabled(run'[i], actions'[i]) && run'[i + 1] == Apply(run'[i], actions'[i]) {
      assert i < |actions| ==> Enabled(run[i], actions[i]) && run[i + 1] == Apply(run[i], actions[i]);
    }
  }

  lemma MoreEscapes(actions: seq<Action>, a: Action)
    ensures EscapedJobs(actions + [a]) == EscapedJobs(actions) + (if a.Escape? then {a.id} else {})
  {
    var all := actions + [a];
    assert all[|actions|] == a;
    forall j | j in EscapedJobs(actions) ensures j in EscapedJobs(all) {
      var i :| 0 <= i < |actions| && actions[i].Escape? && actions[i].id == j;
      assert all[i] == actions[i];
    }
  }

  lemma PoolInv(n: nat, run: seq<State>, actions: seq<Action>)
    requires PoolRun(n, run, actions)
    ensures Run(run, actions) && Inv(Final(run)) && Final(run) == run[|actions|]
  {
    PoolStart(n, run, actions);
    RunKeeps(run, actions, |actions|);
    hide Run, Inv, Allowed;
  }

  // ---- an update without an entry ----------------------------------------------------------------

  /** The worker is before the end of a success, or its handler runs after one. */
  ghost predicate CanMiss(s: State, j: JobId) {
    && j in s.history && j in s.workers
    && (s.workers[j] in {Queued, NotifyRunning, Working, NotifySucceeded, Missed}
        || (s.workers[j] == Handling && Successful(s.history[j])))
  }

  lemma CannotMissStays(s: State, a: Action, j: JobId)
    requires Enabled(s, a) && j in s.history && JobOk(s, j) && !CanMiss(s, j)
    ensures j in Apply(s, a).history && !CanMiss(Apply(s, a), j)
  {
    if LoopAction(a) {
      LoopFrame(s, a);
      hide Apply;
    } else if j != a.id {
      WorkerFrame(s, a, j);
      hide Apply;
    }
  }

  lemma {:induction false} NeverMissed(run: seq<State>, actions: seq<Action>, i: nat, l: nat, j: JobId)
    requires Run(run, actions) && i <= l < |run| && j in run[i].history && !CanMiss(run[i], j)
    ensures j in run[l].history && !CanMiss(run[l], j)
    decreases l
  {
    hide Run, CanMiss, Apply, Enabled, Inv, JobOk;
    if i < l {
      NeverMissed(run, actions, i, l - 1, j);
      RunKeeps(run, actions, l - 1);
      HistoryOk(run[l - 1], j);
      RunStep(run, actions, l);
      CannotMissStays(run[l - 1], actions[l - 1], j);
    }
  }

  /** How far a stream with this record is from giving up the loop. */
  function Rank(pc: Pc, current: bool, flag: bool, listed: bool): nat {
    match pc
    case Top => if current then 5 else 1
    case Enter => if listed then 4 else 2
    case Clear => 3
    case Read => if current && flag then 5 else 2
    case Await => if flag then 4 else 1
    case _ => 0
  }

  /** The stream that owns the loop sees the registry, its flag and its own record. */
  ghost function SegmentRank(s: State, k: nat): nat
    requires k in s.streams
  {
    var m := s.streams[k];
    Rank(m.pc, m.job in s.states && s.states[m.job].revision == m.known,
         m.job in s.flags && s.flags[m.job], m.job in s.events)
  }

  lemma SegmentApplies(s: State, k: nat)
    requires s.owner == Some(k) && k in s.streams && Running(s.streams[k].pc)
    ensures Enabled(s, Segment(k)) && Apply(s, Segment(k)) == SegmentStep(s, k)
  {
    hide SegmentStep;
  }

  lemma SegmentAdvances(s: State, k: nat)
    requires Inv(s) && s.owner == Some(k) && k in s.streams
    ensures Enabled(s, Segment(k))
    ensures var t := Apply(s, Segment(k));
            && SameJobs(s, t)
            && (t.owner.None? || (t.owner == Some(k) && k in t.streams && SegmentRank(t, k) < SegmentRank(s, k)))
  {
    hide *;
    OwnerFacts(s, k);
    SegmentApplies(s, k);
    SegmentFrame(s, k);
    SegmentRuns(s, k);
  }

  lemma SegmentRuns(s: State, k: nat)
    requires k in s.streams && s.owner == Some(k) && Running(s.streams[k].pc)
    requires var j := s.streams[k].job;
             (j in s.events <==> j in s.states) && (j in s.states ==> s.states[j].revision >= s.streams[k].known)
    ensures var t := SegmentStep(s, k);
            t.owner.None? || (t.owner == Some(k) && k in t.streams && SegmentRank(t, k) < SegmentRank(s, k))
  {
    SegmentFrame(s, k);
    var m, t := s.streams[k], SegmentStep(s, k);
    match m.pc
    case Top =>
      assert t.owner.Some? ==> t.streams[k] == m.(pc := Enter) && t.flags == s.flags;
    case Enter =>
      assert t.streams[k] == m.(pc := if m.job in s.events then Clear else Top);
    case Clear =>
      assert t.streams[k] == m.(pc := Read) && !t.flags[m.job];
    case Read =>
      assert t.streams[k] in {m.(pc := Top), m.(pc := Await)} && t.flags == s.flags;
    case Await =>
      assert t.owner.Some? ==> t.streams[k] == m.(pc := Clear);
  }

  /** The stream that owns the loop is inside a segment and knows no revision that does not exist. */
  lemma OwnerFacts(s: State, k: nat)
    requires Inv(s) && s.owner == Some(k) && k in s.streams
    ensures var m := s.streams[k];
            && Running(m.pc)
            && (m.job in s.events <==> m.job in s.states)
            && (m.job in s.states ==> s.states[m.job].revision >= m.known)
  {
    assert StreamOk(s, k);
    assert JobOk(s, s.streams[k].job);
    hide Inv, WorkerFits, Served;
    var m := s.streams[k];
    CurrentRevision(s, m.job);
  }

  lemma SegmentAllowed(n: nat, s: State, k: nat)
    requires Enabled(s, Segment(k))
    ensures Allowed(n, s, Segment(k))
  {
    hide Enabled;
  }

  /** The stream that owns the loop gives it up after finitely many of its own steps. */
  lemma {:induction false} Release(n: nat, run: seq<State>, actions: seq<Action>)
    returns (run': seq<State>, actions': seq<Action>)
    requires PoolRun(n, run, actions)
    requires Inv(Final(run)) && (Final(run).owner.Some? ==> Final(run).owner.value in Final(run).streams)
    ensures PoolRun(n, run', actions') && run <= run' && actions <= actions'
    ensures Inv(Final(run')) && Final(run').owner.None?
    ensures SameJobs(Final(run), Final(run'))
    decreases if Final(run).owner.None? then 0 else 1 + SegmentRank(Final(run), Final(run).owner.value)
  {
    hide PoolRun, Apply, Enabled, Allowed, SegmentRank, Inv, Final, EscapedJobs;
    var s := Final(run);
    if s.owner.None? {
      run', actions' := run, actions;
    } else {
      var k := s.owner.value;
      SegmentAdvances(s, k);
      SegmentAllowed(n, s, k);
      var r, c := PoolMore(n, run, actions, Segment(k));
      run', actions' := Release(n, r, c);
    }
  }

  /** A string longer than all of a finite set. */
  lemma {:induction false} Longer(ids: set<JobId>) returns (n: nat)
    ensures forall id :: id in ids ==> |id| < n
    decreases |ids|
  {
    if ids == {} {
      n := 0;
    } else {
      var id := Pick(ids);
      var m := Longer(ids - {id});
      n := if |id| < m then m else |id| + 1;
      forall x | x in ids ensures |x| < n { assert x in ids - {id} || x == id; }
    }
  }

  lemma FreshId(ids: set<JobId>) returns (id: JobId)
    ensures id !in ids
  {
    var n := Longer(ids);
    id := seq(n, i => 'a');
  }

  lemma StatesKeyed(s: State)
    requires Inv(s)
    ensures WellKeyed(s.states)
  {
    hide StreamOk, WorkerFits, Lifecycle;
    forall j | j in s.states ensures s.states[j].jobId == j { assert JobOk(s, j); }
  }

  /** Every finished job is older than `now`. */
  ghost predicate Older(states: map<JobId, JobState>, now: int) {
    forall r :: r in Finished(states) ==> states[r].updatedAt < now
  }

  lemma {:induction false} LaterThan(states: map<JobId, JobState>, ids: set<JobId>) returns (now: int)
    requires ids <= states.Keys
    ensures forall r :: r in ids ==> states[r].updatedAt < now
    decreases |ids|
  {
    if ids == {} {
      now := 0;
    } else {
      var id := Pick(ids);
      var m := LaterThan(states, ids - {id});
      now := if states[id].updatedAt < m then m else states[id].updatedAt + 1;
      forall r | r in ids ensures states[r].updatedAt < now { assert r in ids - {id} || r == id; }
    }
  }

  lemma Now(states: map<JobId, JobState>) returns (now: int)
    ensures Older(states, now)
  {
    now := LaterThan(states, Finished(states));
  }

  // ---- the other threads leave the job function --------------------------------------------------

  /** Entries and histories are as they were, and only the worker of `k` moved. */
  ghost predicate OnlyThread(s: State, t: State, k: JobId) {
    && t.states == s.states && t.history == s.history && t.owner == s.owner && t.workers.Keys == s.workers.Keys
    && forall x :: x in s.workers && x != k ==> x in t.workers && t.workers[x] == s.workers[x]
  }

  /** A step that brings a thread closer to leaving the job function without storing anything. */
  function LeavingStep(w: Worker, k: JobId): Action { if Notifying(w) then Schedule(k) else Escape(k) }

  lemma LeavingThread(n: nat, s: State, k: JobId)
    requires k in s.workers && Inside(s.workers[k])
    ensures Allowed(n, s, LeavingStep(s.workers[k], k))
    ensures var t := Apply(s, LeavingStep(s.workers[k], k));
            OnlyThread(s, t, k) && k in t.workers && (t.workers[k] == Working || !Inside(t.workers[k]))
            && (s.workers[k] == Working ==> !Inside(t.workers[k]))
  {
  }

  lemma ThreadChain(s: State, t: State, u: State, k: JobId)
    requires OnlyThread(s, t, k) && OnlyThread(t, u, k)
    ensures OnlyThread(s, u, k)
  {
  }

  lemma LeaveOne(n: nat, run: seq<State>, actions: seq<Action>, k: JobId)
    returns (run': seq<State>, actions': seq<Action>)
    requires PoolRun(n, run, actions) && k in Final(run).workers && Inside(Final(run).workers[k])
    ensures PoolRun(n, run', actions') && run <= run' && actions <= actions' && Inv(Final(run'))
    ensures OnlyThread(Final(run), Final(run'), k) && k in Final(run').workers && !Inside(Final(run').workers[k])
  {
    hide *;
    LeavingThread(n, Final(run), k);
    run', actions' := PoolMore(n, run, actions, LeavingStep(Final(run).workers[k], k));
    if Inside(Final(run').workers[k]) {
      var r, c := run', actions';
      LeavingThread(n, Final(r), k);
      run', actions' := PoolMore(n, r, c, LeavingStep(Final(r).workers[k], k));
      ThreadChain(Final(run), Final(r), Final(run'), k);
    }
  }

  /** Entries and histories are as they were, and the worker of `j` did not move. */
  ghost predicate KeptFor(s: State, t: State, j: JobId) {
    && t.states == s.states && t.history == s.history && t.owner == s.owner
    && (j in s.workers ==> j in t.workers && t.workers[j] == s.workers[j])
  }

  lemma LeftThread(s: State, t: State, k: JobId, j: JobId)
    requires OnlyThread(s, t, k) && k in t.workers && !Inside(t.workers[k]) && k in Live(s) && k != j
    ensures KeptFor(s, t, j) && Live(t) == Live(s) - {k} && |Live(t) - {j}| < |Live(s) - {j}|
  {
    assert Live(t) == Live(s) - {k};
    assert Live(s) - {j} == (Live(t) - {j}) + {k};
  }

  lemma KeptChain(s: State, t: State, u: State, j: JobId)
    requires KeptFor(s, t, j) && KeptFor(t, u, j) && j in s.workers
    ensures KeptFor(s, u, j)
  {
  }

  lemma KeptSelf(s: State, j: JobId)
    ensures KeptFor(s, s, j)
  {
  }

  lemma AnotherLive(s: State, j: JobId) returns (k: JobId)
    requires !(Live(s) <= {j})
    ensures k in Live(s) && k != j && k in s.workers && Inside(s.workers[k])
  {
    k :| k in Live(s) && k !in {j};
  }

  /** All threads but that of `j` leave the job function. */
  lemma {:induction false} LeaveOthers(n: nat, run: seq<State>, actions: seq<Action>, j: JobId)
    returns (run': seq<State>, actions': seq<Action>)
    requires PoolRun(n, run, actions) && Inv(Final(run)) && j in Final(run).workers
    ensures PoolRun(n, run', actions') && run <= run' && actions <= actions' && Inv(Final(run'))
    ensures KeptFor(Final(run), Final(run'), j) && Live(Final(run')) <= {j}
    decreases |Live(Final(run)) - {j}|
  {
    hide *;
    if Live(Final(run)) <= {j} {
      KeptSelf(Final(run), j);
      run', actions' := run, actions;
    } else {
      var k := AnotherLive(Final(run), j);
      var r, c := LeaveOne(n, run, actions, k);
      LeftThread(Final(run), Final(r), k, j);
      ThreadStays(Final(run), Final(r), k, j);
      run', actions' := LeaveOthers(n, r, c, j);
      KeptChain(Final(run), Final(r), Final(run'), j);
    }
  }

  lemma ThreadStays(s: State, t: State, k: JobId, j: JobId)
    requires OnlyThread(s, t, k) && j in s.workers && j != k
    ensures j in t.workers
  {
  }

  // ---- one more job runs to success ----------------------------------------------------------------

  /** What one more job that runs to success does to the others. */
  ghost predicate OneMoreSuccess(s: State, t: State, id: JobId, now: int) {
    && t.owner.None? && id !in s.history && id !in s.states && id in t.states
    && t.states[id].status == SUCCEEDED && t.states[id].updatedAt == now
    && Pruned(s.states, t.states - {id}) && Live(t) <= Live(s)
    && forall x :: x in s.history && x in s.workers ==>
         x in t.history && x in t.workers && t.history[x] == s.history[x] && t.workers[x] == s.workers[x]
  }

  /** What a step of one worker leaves alone. */
  ghost predicate OnlyWorker(s: State, t: State, id: JobId) {
    && t.owner == s.owner && t.states.Keys == s.states.Keys && t.states - {id} == s.states - {id}
    && t.workers.Keys == s.workers.Keys && t.history.Keys == s.history.Keys
    && (forall x :: x in s.workers && x != id ==> t.workers[x] == s.workers[x])
    && (forall x :: x in s.history && x != id ==> t.history[x] == s.history[x])
  }

  /** A registered job takes the four steps of a success. */
  ghost predicate Stage(s: State, id: JobId, w: Worker, status: Status) {
    id in s.workers && s.workers[id] == w && id in s.states && id in s.history && s.states[id].status == status
  }

  /** The step that follows a stage, and the stage after it. */
  predicate StageMove(a: Action, w: Worker, status: Status, w': Worker, status': Status) {
    || (a.StoreRunning? && w == Queued && w' == NotifyRunning && status' == RUNNING)
    || (a.StoreSucceeded? && w == Working && w' == NotifySucceeded && status' == SUCCEEDED)
    || (a.Schedule? && Notifying(w) && w' == Notified(w) && status' == status)
  }

  lemma StageStep(s: State, a: Action, w: Worker, status: Status, w': Worker, status': Status)
    requires a.StoreRunning? || a.StoreSucceeded? || a.Schedule?
    requires StageMove(a, w, status, w', status') && Stage(s, a.id, w, status)
    ensures Enabled(s, a) && OnlyWorker(s, Apply(s, a), a.id) && Stage(Apply(s, a), a.id, w', status')
    ensures a.StoreSucceeded? ==> a.id in Apply(s, a).states && Apply(s, a).states[a.id].updatedAt == a.now
    ensures a.Schedule? ==> Apply(s, a).states == s.states
  {
  }

  lemma RegisterStage(s: State, id: JobId, now: int, pruned: map<JobId, JobState>)
    requires Enabled(s, Register(id, now, pruned)) && id !in s.states && id !in s.workers
    ensures var t := Apply(s, Register(id, now, pruned));
            && t.owner.None? && Stage(t, id, Queued, QUEUED) && t.states - {id} == pruned && Live(t) == Live(s)
            && forall x :: x in s.history && x in s.workers ==>
                 x in t.history && x in t.workers && t.history[x] == s.history[x] && t.workers[x] == s.workers[x]
  {
  }

  lemma OnlyWorkerChain(s: State, t: State, u: State, id: JobId)
    requires OnlyWorker(s, t, id) && OnlyWorker(t, u, id)
    ensures OnlyWorker(s, u, id)
  {
  }

  lemma StageAllowed(n: nat, s: State, a: Action)
    requires Enabled(s, a) && (a.StoreRunning? || a.StoreSucceeded? || a.Schedule?)
    requires a.StoreRunning? ==> |Live(s)| < n
    requires a.StoreSucceeded? ==> Older(s.states, a.now)
    ensures Allowed(n, s, a)
  {
    hide Enabled, Live, Finished;
  }

  /** One such step of a run. */
  lemma OneStage(n: nat, run: seq<State>, actions: seq<Action>, a: Action,
                 w: Worker, status: Status, w': Worker, status': Status)
    returns (run': seq<State>, actions': seq<Action>)
    requires PoolRun(n, run, actions) && (a.StoreRunning? || a.StoreSucceeded? || a.Schedule?)
    requires StageMove(a, w, status, w', status') && Stage(Final(run), a.id, w, status)
    requires a.StoreRunning? ==> |Live(Final(run))| < n
    requires a.StoreSucceeded? ==> Older(Final(run).states, a.now)
    ensures PoolRun(n, run', actions') && run <= run' && actions <= actions' && Inv(Final(run'))
    ensures OnlyWorker(Final(run), Final(run'), a.id) && Stage(Final(run'), a.id, w', status')
    ensures a.StoreSucceeded? ==> a.id in Final(run').states && Final(run').states[a.id].updatedAt == a.now
    ensures a.Schedule? ==> Final(run').states == Final(run).states
    ensures EscapedJobs(actions') == EscapedJobs(actions)
  {
    hide *;
    StageStep(Final(run), a, w, status, w', status');
    StageAllowed(n, Final(run), a);
    run', actions' := PoolMore(n, run, actions, a);
  }

  lemma StillOlder(s: State, t: State, id: JobId, now: int)
    requires OnlyWorker(s, t, id) && Older(s.states, now) && Stage(t, id, Working, RUNNING)
    ensures Older(t.states, now)
  {
    forall r | r in Finished(t.states) ensures t.states[r].updatedAt < now {
      assert r in t.states - {id} && (t.states - {id})[r] == (s.states - {id})[r];
      assert r in Finished(s.states);
    }
  }

  lemma RunToWork(n: nat, run: seq<State>, actions: seq<Action>, id: JobId, now: int)
    returns (run': seq<State>, actions': seq<Action>)
    requires PoolRun(n, run, actions) && Stage(Final(run), id, Queued, QUEUED) && |Live(Final(run))| < n
    ensures PoolRun(n, run', actions') && run <= run' && actions <= actions' && Inv(Final(run'))
    ensures OnlyWorker(Final(run), Final(run'), id) && Stage(Final(run'), id, Working, RUNNING)
    ensures EscapedJobs(actions') == EscapedJobs(actions)
  {
    assert StageMove(StoreRunning(id, now), Queued, QUEUED, NotifyRunning, RUNNING);
    assert StageMove(Schedule(id), NotifyRunning, RUNNING, Working, RUNNING);
    hide *;
    var r, c := OneStage(n, run, actions, StoreRunning(id, now), Queued, QUEUED, NotifyRunning, RUNNING);
    run', actions' := OneStage(n, r, c, Schedule(id), NotifyRunning, RUNNING, Working, RUNNING);
    OnlyWorkerChain(Final(run), Final(r), Final(run'), id);
  }

  lemma WorkToSuccess(n: nat, run: seq<State>, actions: seq<Action>, id: JobId, now: int)
    returns (run': seq<State>, actions': seq<Action>)
    requires PoolRun(n, run, actions) && Stage(Final(run), id, Working, RUNNING) && Older(Final(run).states, now)
    ensures PoolRun(n, run', actions') && run <= run' && actions <= actions' && Inv(Final(run'))
    ensures OnlyWorker(Final(run), Final(run'), id) && Stage(Final(run'), id, Done, SUCCEEDED)
    ensures id in Final(run').states && Final(run').states[id].updatedAt == now
  {
    assert StageMove(StoreSucceeded(id, now), Working, RUNNING, NotifySucceeded, SUCCEEDED);
    assert StageMove(Schedule(id), NotifySucceeded, SUCCEEDED, Done, SUCCEEDED);
    hide *;
    var r, c := OneStage(n, run, actions, StoreSucceeded(id, now), Working, RUNNING, NotifySucceeded, SUCCEEDED);
    run', actions' := OneStage(n, r, c, Schedule(id), NotifySucceeded, SUCCEEDED, Done, SUCCEEDED);
    OnlyWorkerChain(Final(run), Final(r), Final(run'), id);
  }

  lemma RunToSuccess(n: nat, run: seq<State>, actions: seq<Action>, id: JobId, now: int)
    returns (run': seq<State>, actions': seq<Action>)
    requires PoolRun(n, run, actions) && Stage(Final(run), id, Queued, QUEUED)
    requires |Live(Final(run))| < n && Older(Final(run).states, now)
    ensures PoolRun(n, run', actions') && run <= run' && actions <= actions' && Inv(Final(run'))
    ensures OnlyWorker(Final(run), Final(run'), id) && Stage(Final(run'), id, Done, SUCCEEDED)
    ensures id in Final(run').states && Final(run').states[id].updatedAt == now
  {
    hide *;
    var r, c := RunToWork(n, run, actions, id, now);
    StillOlder(Final(run), Final(r), id, now);
    run', actions' := WorkToSuccess(n, r, c, id, now);
    OnlyWorkerChain(Final(run), Final(r), Final(run'), id);
  }

  /** A new job is registered. */
  lemma RegisterNew(n: nat, run: seq<State>, actions: seq<Action>)
    returns (run': seq<State>, actions': seq<Action>, id: JobId, pruned: map<JobId, JobState>)
    requires PoolRun(n, run, actions) && Inv(Final(run)) && Final(run).owner.None?
    ensures PoolRun(n, run', actions') && run <= run' && actions <= actions' && Inv(Final(run'))
    ensures id !in Final(run).history && id !in Final(run).states && id !in Final(run).workers
    ensures Pruned(Final(run).states, pruned) && Final(run').states - {id} == pruned
    ensures Final(run').owner.None? && Stage(Final(run'), id, Queued, QUEUED) && Live(Final(run')) == Live(Final(run))
    ensures forall x :: x in Final(run).history && x in Final(run).workers ==>
              && x in Final(run').history && x in Final(run').workers
              && Final(run').history[x] == Final(run).history[x] && Final(run').workers[x] == Final(run).workers[x]
    ensures EscapedJobs(actions') == EscapedJobs(actions)
  {
    hide *;
    var s := Final(run);
    id := FreshId(s.history.Keys);
    KnownIds(s);
    HistoryOk(s, id);
    StatesKeyed(s);
    pruned := PrunedExists(s.states);
    RegisterAllowed(n, s, id, pruned);
    RegisterStage(s, id, 0, pruned);
    run', actions' := PoolMore(n, run, actions, Register(id, 0, pruned));
  }

  lemma RegisterAllowed(n: nat, s: State, id: JobId, pruned: map<JobId, JobState>)
    requires s.owner.None? && id !in s.history && Pruned(s.states, pruned)
    ensures Allowed(n, s, Register(id, 0, pruned)) && Enabled(s, Register(id, 0, pruned))
  {
    hide Pruned;
  }

  lemma KnownIds(s: State)
    requires Inv(s)
    ensures s.states.Keys <= s.history.Keys
  {
    hide JobOk, StreamOk;
  }

  lemma PrunedOlder(before: map<JobId, JobState>, s: State, id: JobId, now: int)
    requires Older(before, now) && Pruned(before, s.states - {id}) && Stage(s, id, Queued, QUEUED)
    ensures Older(s.states, now)
  {
    hide KeyLeq;
    forall r | r in Finished(s.states) ensures s.states[r].updatedAt < now {
      assert r != id && r in s.states - {id} && (s.states - {id})[r] == s.states[r];
      assert r in Finished(before);
    }
  }

  /** A job is registered, runs and succeeds; all its stores happen at `now`. */
  lemma FinishOne(n: nat, run: seq<State>, actions: seq<Action>, now: int)
    returns (run': seq<State>, actions': seq<Action>, id: JobId)
    requires PoolRun(n, run, actions) && Inv(Final(run)) && Final(run).owner.None?
    requires |Live(Final(run))| < n && Older(Final(run).states, now)
    ensures PoolRun(n, run', actions') && run <= run' && actions <= actions' && Inv(Final(run'))
    ensures OneMoreSuccess(Final(run), Final(run'), id, now)
  {
    hide *;
    var r, c, i, pruned := RegisterNew(n, run, actions);
    id := i;
    PrunedOlder(Final(run).states, Final(r), id, now);
    run', actions' := RunToSuccess(n, r, c, id, now);
    FinishedOne(Final(run), Final(r), Final(run'), id, now, pruned);
  }

  lemma FinishedOne(s: State, r: State, t: State, id: JobId, now: int, pruned: map<JobId, JobState>)
    requires id !in s.history && id !in s.states && id !in s.workers && Pruned(s.states, pruned)
    requires r.owner.None? && r.states - {id} == pruned && OnlyWorker(r, t, id) && Live(r) == Live(s)
    requires forall x :: x in s.history && x in s.workers ==>
               x in r.history && x in r.workers && r.history[x] == s.history[x] && r.workers[x] == s.workers[x]
    requires Stage(t, id, Done, SUCCEEDED) && t.states[id].updatedAt == now
    ensures OneMoreSuccess(s, t, id, now)
  {
    hide Pruned;
    assert t.states - {id} == pruned;
    forall x | x in Live(t) ensures x in Live(r) { assert x != id; }
  }

  // ---- newer jobs push a job out ---------------------------------------------------------------------

  /** Finished jobs newer than the job `j`. */
  ghost predicate Newer(states: map<JobId, JobState>, j: JobId, ids: set<JobId>) {
    j in states ==>
      && j in Finished(states) && j !in ids && ids <= Finished(states)
      && forall n :: n in ids ==> states[n].updatedAt > states[j].updatedAt
  }

  /** Pruning drops the job before any newer one, and it drops the job when there are enough of them. */
  lemma NewerStays(before: map<JobId, JobState>, after: map<JobId, JobState>, j: JobId, ids: set<JobId>)
    requires Pruned(before, after) && Newer(before, j, ids) && j in before
    ensures Newer(after, j, ids)
    ensures j in after ==> |ids| < MAX_RETAINED_FINISHED_JOBS
  {
    if j in after {
      assert after[j] == before[j];
      forall n | n in ids ensures n in after && after[n] == before[n] {
        assert n in before;
        assert !KeyLeq(before[n], before[j]);
      }
      assert ids + {j} <= Finished(after);
      SubsetSmaller(ids + {j}, Finished(after));
      assert |ids + {j}| == |ids| + 1;
    }
  }

  /** One more newer job. */
  lemma NewerJoins(before: map<JobId, JobState>, after: map<JobId, JobState>, j: JobId, ids: set<JobId>, id: JobId)
    requires Newer(before, j, ids) && j != id && after - {id} == before - {id}
    requires id !in Finished(before) && id in Finished(after)
    requires j in before ==> after[id].updatedAt > before[j].updatedAt
    ensures Newer(after, j, ids + {id}) && (j in before ==> id !in ids)
  {
    if j in after {
      assert j in after - {id} && j in before && before[j] == after[j];
      forall n | n in ids ensures n in Finished(after) && after[n].updatedAt > after[j].updatedAt {
        assert n in before - {id} && before[n] == after[n];
      }
    }
  }

  lemma NewerGrows(s: State, t: State, j: JobId, ids: set<JobId>, id: JobId, now: int)
    requires j in s.states && Newer(s.states, j, ids) && Older(s.states, now)
    requires j in s.history && j in s.workers && OneMoreSuccess(s, t, id, now)
    ensures Newer(t.states, j, ids + {id})
    ensures j in t.states ==> |ids| < MAX_RETAINED_FINISHED_JOBS && id !in ids
  {
    var pruned := t.states - {id};
    assert s.states[j].updatedAt < now;
    assert j != id && id in Finished(t.states);
    assert j in pruned ==> pruned[j] == s.states[j];
    assert j in t.states <==> j in pruned;
    hide Newer, Older;
    NewerStays(s.states, pruned, j, ids);
    hide Pruned;
    assert pruned - {id} == pruned;
    NewerJoins(pruned, t.states, j, ids, id);
  }

  /** Enough newer finished jobs push the job out of the registry; a thread besides that of `j` is enough. */
  lemma {:induction false} Bury(n: nat, run: seq<State>, actions: seq<Action>, j: JobId, ids: set<JobId>)
    returns (run': seq<State>, actions': seq<Action>)
    requires PoolRun(n, run, actions) && Inv(Final(run)) && Final(run).owner.None?
    requires j in Final(run).history && j in Final(run).workers && |Live(Final(run))| < n
    requires |ids| <= MAX_RETAINED_FINISHED_JOBS && Newer(Final(run).states, j, ids)
    ensures PoolRun(n, run', actions') && run <= run' && actions <= actions' && Inv(Final(run'))
    ensures j in Final(run').workers && Final(run').workers[j] == Final(run).workers[j]
    ensures j !in Final(run').states
    decreases MAX_RETAINED_FINISHED_JOBS - |ids|
  {
    hide PoolRun, Inv, Newer, Live, Pruned, Older, EscapedJobs;
    var s := Final(run);
    if j !in s.states {
      run', actions' := run, actions;
    } else {
      var now := Now(s.states);
      var r, c, id := FinishOne(n, run, actions, now);
      NewerGrows(s, Final(r), j, ids, id, now);
      FewerLive(s, Final(r), id, now);
      if j !in Final(r).states {
        run', actions' := r, c;
      } else {
        run', actions' := Bury(n, r, c, j, ids + {id});
      }
    }
  }

  lemma FewerLive(s: State, t: State, id: JobId, now: int)
    requires OneMoreSuccess(s, t, id, now)
    ensures |Live(t)| <= |Live(s)|
  {
    SubsetSmaller(Live(t), Live(s));
  }

  // ---- two workers ------------------------------------------------------------------------------------

  ghost function WorkerRank(w: Worker): nat {
    match w
    case Queued => 4
    case NotifyRunning => 3
    case Working => 2
    case NotifySucceeded => 1
    case _ => 0
  }

  /** The next step of a worker towards a success that cannot be announced. */
  function NextStep(w: Worker, j: JobId, now: int): Action {
    match w
    case Queued => StoreRunning(j, now)
    case NotifyRunning => Schedule(j)
    case Working => StoreSucceeded(j, now)
    case _ => ScheduleRaises(j)
  }

  lemma NextStepAdvances(n: nat, s: State, j: JobId, now: int)
    requires CanMiss(s, j) && JobOk(s, j) && WorkerRank(s.workers[j]) > 0
    requires n > 0 && Live(s) <= {j} && Older(s.states, now)
    ensures var a := NextStep(s.workers[j], j, now);
            && Allowed(n, s, a) && CanMiss(Apply(s, a), j) && !a.Escape?
            && WorkerRank(Apply(s, a).workers[j]) < WorkerRank(s.workers[j])
            && Apply(s, a).owner == s.owner
  {
    if s.workers[j] == Queued {
      assert Live(s) == {};
    }
  }

  /** Workers of other jobs stay where they are. */
  lemma NextStepOthers(s: State, j: JobId, now: int)
    requires CanMiss(s, j) && JobOk(s, j) && WorkerRank(s.workers[j]) > 0
    ensures var t := Apply(s, NextStep(s.workers[j], j, now)); Live(t) <= Live(s) + {j}
    ensures forall x :: x in s.workers && x in s.history && x != j ==>
              var t := Apply(s, NextStep(s.workers[j], j, now));
              && x in t.workers && x in t.history && t.workers[x] == s.workers[x] && t.history[x] == s.history[x]
  {
  }

  lemma {:induction false} ToHandler(n: nat, run: seq<State>, actions: seq<Action>, j: JobId)
    returns (run': seq<State>, actions': seq<Action>)
    requires PoolRun(n, run, actions) && Inv(Final(run)) && CanMiss(Final(run), j)
    requires n > 0 && Live(Final(run)) <= {j}
    ensures PoolRun(n, run', actions') && run <= run' && actions <= actions' && Inv(Final(run'))
    ensures CanMiss(Final(run'), j) && WorkerRank(Final(run').workers[j]) == 0 && Live(Final(run')) <= {j}
    ensures Final(run').owner == Final(run).owner && EscapedJobs(actions') == EscapedJobs(actions)
    ensures forall x :: x in Final(run).workers && x in Final(run).history && x != j ==>
              && x in Final(run').workers && x in Final(run').history
              && Final(run').workers[x] == Final(run).workers[x] && Final(run').history[x] == Final(run).history[x]
    decreases WorkerRank(Final(run).workers[j])
  {
    hide *;
    var s := Final(run);
    MissThere(s, j);
    if WorkerRank(s.workers[j]) == 0 {
      run', actions' := run, actions;
    } else {
      HistoryOk(s, j);
      var now := Now(s.states);
      NextStepAdvances(n, s, j, now);
      NextStepOthers(s, j, now);
      var r, c := PoolMore(n, run, actions, NextStep(s.workers[j], j, now));
      MissThere(Final(r), j);
      run', actions' := ToHandler(n, r, c, j);
    }
  }

  lemma MissThere(s: State, j: JobId)
    requires CanMiss(s, j)
    ensures j in s.history && j in s.workers
    ensures WorkerRank(s.workers[j]) == 0 ==> s.workers[j] in {Handling, Missed}
  {
    hide Successful;
  }

  /** From the handler of an unannounced success: submissions push the job out, then the handler misses it. */
  lemma HandlerMisses(n: nat, run: seq<State>, actions: seq<Action>, j: JobId)
    returns (run': seq<State>, actions': seq<Action>)
    requires PoolRun(n, run, actions) && Inv(Final(run)) && Final(run).owner.None?
    requires CanMiss(Final(run), j) && Final(run).workers[j] == Handling && n >= 2 && Live(Final(run)) <= {j}
    ensures PoolRun(n, run', actions') && run <= run' && actions <= actions'
    ensures j in Final(run').workers && Final(run').workers[j] == Missed
  {
    hide *;
    var s := Final(run);
    MissThere(s, j);
    HistoryOk(s, j);
    NoneNewer(s, j);
    SubsetSmaller(Live(s), {j});
    var r, c := Bury(n, run, actions, j, {});
    run', actions' := MissNow(n, r, c, j);
  }

  lemma NoneNewer(s: State, j: JobId)
    requires CanMiss(s, j) && JobOk(s, j) && s.workers[j] == Handling
    ensures 0 <= MAX_RETAINED_FINISHED_JOBS && Newer(s.states, j, {})
  {
    if j in s.states { assert j in Finished(s.states); }
  }

  /** A handler whose job is gone. */
  lemma MissNow(n: nat, run: seq<State>, actions: seq<Action>, j: JobId)
    returns (run': seq<State>, actions': seq<Action>)
    requires PoolRun(n, run, actions)
    requires j in Final(run).workers && Final(run).workers[j] == Handling && j !in Final(run).states
    ensures PoolRun(n, run', actions') && run <= run' && actions <= actions'
    ensures j in Final(run').workers && Final(run').workers[j] == Missed
    ensures EscapedJobs(actions') == EscapedJobs(actions)
  {
    assert Allowed(n, Final(run), StoreFailed(j, 0));
    assert Apply(Final(run), StoreFailed(j, 0)).workers == Final(run).workers[j := Missed];
    hide *;
    run', actions' := PoolMore(n, run, actions, StoreFailed(j, 0));
  }

  lemma OwnerKnown(s: State)
    requires Inv(s)
    ensures s.owner.Some? ==> s.owner.value in s.streams
  {
    hide JobOk, StreamOk;
  }

  lemma KeptCanMiss(s: State, t: State, j: JobId)
    requires CanMiss(s, j) && KeptFor(s, t, j)
    ensures CanMiss(t, j)
  {
  }

  lemma SameJobsKept(s: State, t: State, j: JobId)
    requires SameJobs(s, t)
    ensures Live(t) == Live(s) && (CanMiss(s, j) ==> CanMiss(t, j))
  {
  }

  /** Some continuation within the pool makes the job's update find no entry. */
  ghost predicate MissAhead(n: nat, run: seq<State>, actions: seq<Action>, j: JobId) {
    exists run': seq<State>, actions': seq<Action> ::
      && PoolRun(n, run', actions') && run <= run' && actions <= actions'
      && j in Final(run').workers && Final(run').workers[j] == Missed
  }

  lemma MissShown(n: nat, run: seq<State>, actions: seq<Action>, j: JobId, run': seq<State>, actions': seq<Action>)
    requires PoolRun(n, run', actions') && run <= run' && actions <= actions'
    requires j in Final(run').workers && Final(run').workers[j] == Missed
    ensures MissAhead(n, run, actions, j)
  {
    hide PoolRun, Final;
  }

  lemma MissFollows(n: nat, run: seq<State>, actions: seq<Action>, j: JobId)
    requires PoolRun(n, run, actions) && Inv(Final(run)) && CanMiss(Final(run), j) && n >= 2
    ensures MissAhead(n, run, actions, j)
  {
    hide *;
    MissThere(Final(run), j);
    var r1, c1 := LeaveOthers(n, run, actions, j);
    KeptCanMiss(Final(run), Final(r1), j);
    OwnerKnown(Final(r1));
    var r2, c2 := Release(n, r1, c1);
    SameJobsKept(Final(r1), Final(r2), j);
    var r3, c3 := ToHandler(n, r2, c2, j);
    MissThere(Final(r3), j);
    if Final(r3).workers[j] == Handling {
      var r4, c4 := HandlerMisses(n, r3, c3, j);
      MissShown(n, run, actions, j, r4, c4);
    } else {
      MissShown(n, run, actions, j, r3, c3);
    }
  }

  lemma MissExcluded(n: nat, run: seq<State>, actions: seq<Action>, j: JobId, run': seq<State>, actions': seq<Action>)
    requires Run(run, actions) && j in Final(run).history && !CanMiss(Final(run), j)
    requires PoolRun(n, run', actions') && run <= run'
    ensures j in Final(run').workers && Final(run').workers[j] != Missed
  {
    RunStart(run, actions);
    PoolStart(n, run', actions');
    PoolInv(n, run', actions');
    hide Run, PoolRun, Inv;
    NeverMissed(run', actions', |run| - 1, |run'| - 1, j);
    HistoryOk(Final(run'), j);
  }

  /**
   * With two live workers a miss is possible: from any point of any run of such a pool, a job's update
   * can still find no entry exactly when the job has not left the path to a success whose wakeup may
   * raise. The exclusion holds for every number of workers.
   */
  lemma MissReachableExactly(n: nat, run: seq<State>, actions: seq<Action>, j: JobId)
    requires PoolRun(n, run, actions) && j in Final(run).history
    ensures MissAhead(n, run, actions, j) ==> CanMiss(Final(run), j)
    ensures n >= 2 && CanMiss(Final(run), j) ==> MissAhead(n, run, actions, j)
  {
    PoolInv(n, run, actions);
    hide PoolRun, Run, Inv, CanMiss, Final;
    if CanMiss(Final(run), j) {
      if n >= 2 { MissFollows(n, run, actions, j); }
    } else {
      forall run', actions' | PoolRun(n, run', actions') && run <= run'
        ensures j in Final(run').workers && Final(run').workers[j] != Missed
      {
        MissExcluded(n, run, actions, j, run', actions');
      }
    }
  }

  // ---- one worker and enough escaped jobs --------------------------------------------------------------

  /** A job that escaped while RUNNING; its done callback has not run yet. */
  ghost predicate Waits(s: State, p: JobId) {
    p in s.workers && p in s.history && s.workers[p] == Escaped && |s.history[p]| == 2
  }

  lemma DoneStores(n: nat, s: State, p: JobId, now: int)
    requires s.owner.None? && Waits(s, p) && p in s.states && !Terminal(s.states[p].status)
    ensures Allowed(n, s, JobDone(p, now)) && Enabled(s, JobDone(p, now))
    ensures Apply(s, JobDone(p, now)) == Store(s, p, FAILED, now, NotifyLate)
  {
    hide Store;
  }

  lemma StoreFinishes(s: State, p: JobId, now: int)
    requires p in s.states && p in s.history
    ensures var t := Store(s, p, FAILED, now, NotifyLate);
            && t.owner == s.owner && p in Finished(t.states) && t.states[p].updatedAt == now
            && t.states - {p} == s.states - {p}
  {
  }

  /** The done callback of such a job stores FAILED. */
  lemma DoneLate(n: nat, s: State, p: JobId, now: int)
    requires Inv(s) && s.owner.None? && Waits(s, p)
    ensures Allowed(n, s, JobDone(p, now)) && p in s.states && p !in Finished(s.states)
    ensures var t := Apply(s, JobDone(p, now));
            && t.owner.None? && p in Finished(t.states) && t.states[p].updatedAt == now
            && t.states - {p} == s.states - {p}
            && forall x :: x in s.workers && x in s.history && x != p ==>
                 x in t.workers && x in t.history && t.workers[x] == s.workers[x] && t.history[x] == s.history[x]
  {
    WaitsKnown(s, p);
    HistoryOk(s, p);
    WorkerAt(s, p);
    hide Inv, Apply, Enabled, Allowed, Store;
    DoneStores(n, s, p, now);
    StoreFinishes(s, p, now);
    forall x | x in s.workers && x in s.history && x != p ensures SameJob(s, Apply(s, JobDone(p, now)), x) {
      WorkerFrame(s, JobDone(p, now), x);
    }
  }

  /** After the done callbacks of some escaped jobs these are newer than the job `j`. */
  lemma {:induction false} DoneAll(n: nat, run: seq<State>, actions: seq<Action>, j: JobId,
                                   waiting: set<JobId>, ids: set<JobId>)
    returns (run': seq<State>, actions': seq<Action>)
    requires PoolRun(n, run, actions) && Inv(Final(run)) && Final(run).owner.None?
    requires j in Final(run).history && j in Final(run).workers && Newer(Final(run).states, j, ids)
    requires j !in waiting && forall p :: p in waiting ==> Waits(Final(run), p)
    ensures PoolRun(n, run', actions') && run <= run' && actions <= actions' && Inv(Final(run'))
    ensures Final(run').owner.None? && Newer(Final(run').states, j, ids + waiting)
    ensures j in Final(run').history && j in Final(run').workers && Final(run').workers[j] == Final(run).workers[j]
    ensures EscapedJobs(actions') == EscapedJobs(actions)
    decreases |waiting|
  {
    hide *;
    if waiting == {} {
      assert ids + waiting == ids;
      run', actions' := run, actions;
    } else {
      var s := Final(run);
      var p := Pick(waiting);
      var now := Now(s.states);
      DoneLate(n, s, p, now);
      var r, c := PoolMore(n, run, actions, JobDone(p, now));
      NewerThan(s.states, j, ids, now);
      NewerJoins(s.states, Final(r).states, j, ids, p);
      forall q | q in waiting - {p} ensures Waits(Final(r), q) { WaitsStill(s, Final(r), q); }
      run', actions' := DoneAll(n, r, c, j, waiting - {p}, ids + {p});
      assert ids + {p} + (waiting - {p}) == ids + waiting;
    }
  }

  lemma NewerThan(states: map<JobId, JobState>, j: JobId, ids: set<JobId>, now: int)
    requires Newer(states, j, ids) && Older(states, now)
    ensures j in states ==> states[j].updatedAt < now
  {
  }

  lemma WaitsStill(s: State, t: State, q: JobId)
    requires Waits(s, q)
    requires q in s.workers && q in s.history ==>
               q in t.workers && q in t.history && t.workers[q] == s.workers[q] && t.history[q] == s.history[q]
    ensures Waits(t, q)
  {
  }

  lemma NotWaiting(s: State, j: JobId)
    requires j in s.workers && s.workers[j] == Handling
    ensures !Waits(s, j)
  {
  }

  /** With 200 escaped jobs waiting for their callbacks, the handler of an unannounced success can miss its job. */
  lemma EscapesMiss(n: nat, run: seq<State>, actions: seq<Action>, j: JobId, waiting: set<JobId>)
    returns (run': seq<State>, actions': seq<Action>)
    requires PoolRun(n, run, actions) && Inv(Final(run)) && Final(run).owner.None?
    requires CanMiss(Final(run), j) && j in Final(run).workers && Final(run).workers[j] == Handling
    requires |waiting| >= MAX_RETAINED_FINISHED_JOBS && forall p :: p in waiting ==> Waits(Final(run), p)
    ensures PoolRun(n, run', actions') && run <= run' && actions <= actions'
    ensures j in Final(run').workers && Final(run').workers[j] == Missed
    ensures EscapedJobs(actions') == EscapedJobs(actions)
  {
    hide *;
    HistoryOk(Final(run), j);
    NotWaiting(Final(run), j);
    NoneNewer(Final(run), j);
    var r1, c1 := DoneAll(n, run, actions, j, waiting, {});
    assert {} + waiting == waiting;
    var r2, c2, id, pruned := RegisterNew(n, r1, c1);
    PushedOut(Final(r1).states, Final(r2).states, j, waiting, id, pruned);
    run', actions' := MissNow(n, r2, c2, j);
  }

  lemma PushedOut(before: map<JobId, JobState>, after: map<JobId, JobState>, j: JobId, ids: set<JobId>, id: JobId,
                  pruned: map<JobId, JobState>)
    requires Newer(before, j, ids) && |ids| >= MAX_RETAINED_FINISHED_JOBS
    requires Pruned(before, pruned) && after - {id} == pruned && j != id
    ensures j !in after
  {
    assert j in after ==> j in after - {id};
    if j in before { NewerStays(before, pruned, j, ids); }
    PrunedFinished(before, pruned);
    hide Pruned, Newer;
  }

  /** The job function is left by an exception while the job is RUNNING. */
  lemma EscapeNow(n: nat, s: State, id: JobId)
    requires Stage(s, id, Working, RUNNING) && JobOk(s, id) && Live(s) <= {id}
    ensures Allowed(n, s, Escape(id))
    ensures var t := Apply(s, Escape(id)); t.owner == s.owner && Waits(t, id) && Live(t) == {} && OnlyWorker(s, t, id)
  {
    assert Live(Apply(s, Escape(id))) == Live(s) - {id};
  }

  lemma LiveOnly(s: State, t: State, id: JobId)
    requires OnlyWorker(s, t, id) && Live(s) == {}
    ensures Live(t) <= {id}
  {
    forall x | x in Live(t) && x != id ensures x in Live(s) { }
  }

  lemma WaitsOn(s: State, r: State, t: State, id: JobId, q: JobId)
    requires Waits(s, q) && OnlyWorker(r, t, id) && q != id
    requires q in r.workers && q in r.history && r.workers[q] == s.workers[q] && r.history[q] == s.history[q]
    ensures Waits(t, q)
  {
  }

  /** A pool of one with `m` escaped jobs that wait for their callbacks, and nothing else. */
  lemma {:induction false} ManyEscapes(m: nat) returns (run: seq<State>, actions: seq<Action>, waiting: set<JobId>)
    ensures PoolRun(1, run, actions) && Inv(Final(run)) && Final(run).owner.None? && Live(Final(run)) == {}
    ensures |waiting| == m && EscapedJobs(actions) == waiting
    ensures forall p :: p in waiting ==> Waits(Final(run), p)
    decreases m
  {
    if m == 0 {
      run, actions, waiting := [Init()], [], {};
      PoolInv(1, run, actions);
      hide Inv, Run;
    } else {
      hide *;
      var r, c, w := ManyEscapes(m - 1);
      run, actions, waiting := OneEscape(r, c, w);
    }
  }

  lemma OneEscape(run: seq<State>, actions: seq<Action>, waiting: set<JobId>)
    returns (run': seq<State>, actions': seq<Action>, waiting': set<JobId>)
    requires PoolRun(1, run, actions) && Inv(Final(run)) && Final(run).owner.None? && Live(Final(run)) == {}
    requires EscapedJobs(actions) == waiting && forall p :: p in waiting ==> Waits(Final(run), p)
    ensures PoolRun(1, run', actions') && Inv(Final(run')) && Final(run').owner.None? && Live(Final(run')) == {}
    ensures |waiting'| == |waiting| + 1 && EscapedJobs(actions') == waiting'
    ensures forall p :: p in waiting' ==> Waits(Final(run'), p)
  {
    hide *;
    var s := Final(run);
    var r1, c1, id, pruned := RegisterNew(1, run, actions);
    var r2, c2 := RunToWork(1, r1, c1, id, 0);
    LiveOnly(Final(r1), Final(r2), id);
    StageKnown(Final(r2), id);
    HistoryOk(Final(r2), id);
    EscapeNow(1, Final(r2), id);
    run', actions' := PoolMore(1, r2, c2, Escape(id));
    OnlyWorkerChain(Final(r1), Final(r2), Final(run'), id);
    OwnerSame(Final(r1), Final(run'), id);
    waiting' := waiting + {id};
    forall p | p in waiting' ensures Waits(Final(run'), p) {
      if p != id {
        WaitsKnown(s, p);
        WaitsOn(s, Final(r1), Final(run'), id, p);
      }
    }
    NotYet(s, waiting, id);
  }

  lemma StageKnown(s: State, id: JobId)
    requires Stage(s, id, Working, RUNNING)
    ensures id in s.history && id in s.workers
  {
  }

  lemma OwnerSame(s: State, t: State, id: JobId)
    requires OnlyWorker(s, t, id)
    ensures t.owner == s.owner
  {
  }

  lemma WaitsKnown(s: State, p: JobId)
    requires Waits(s, p)
    ensures p in s.workers && p in s.history
  {
  }

  lemma NotYet(s: State, waiting: set<JobId>, id: JobId)
    requires id !in s.history && forall p :: p in waiting ==> Waits(s, p)
    ensures |waiting + {id}| == |waiting| + 1
  {
    assert id !in waiting;
  }

  lemma QueuedCanMiss(s: State, id: JobId)
    requires Stage(s, id, Queued, QUEUED)
    ensures CanMiss(s, id)
  {
  }

  /**
   * The bound is sharp: in some run of a pool of one with exactly 200 escaped jobs an update finds no
   * entry. The done callbacks of the escaped jobs run while the last job is in its handler.
   */
  lemma EscapesReach() returns (run: seq<State>, actions: seq<Action>, j: JobId)
    ensures PoolRun(1, run, actions) && |EscapedJobs(actions)| == MAX_RETAINED_FINISHED_JOBS
    ensures j in Final(run).workers && Final(run).workers[j] == Missed
  {
    assert MAX_RETAINED_FINISHED_JOBS >= 0;
    hide *;
    var r0, c0, waiting := ManyEscapes(MAX_RETAINED_FINISHED_JOBS);
    var r1, c1, id, pruned := RegisterNew(1, r0, c0);
    j := id;
    QueuedCanMiss(Final(r1), j);
    var r2, c2 := ToHandler(1, r1, c1, j);
    MissThere(Final(r2), j);
    forall p | p in waiting ensures Waits(Final(r2), p) {
      WaitsKnown(Final(r0), p);
      WaitsStill(Final(r0), Final(r1), p);
      WaitsStill(Final(r1), Final(r2), p);
    }
    if Final(r2).workers[j] == Handling {
      run, actions := EscapesMiss(1, r2, c2, j, waiting);
    } else {
      run, actions := r2, c2;
    }
  }
}
