/** Collector data jobs: one task per job on the event loop, a semaphore, and cancellation. */
module DataJobs {
  import opened Sequences
  import opened JobRegistry

  // ---- snapshots -----------------------------------------------------------------------

  datatype DataJob = DataJob(
    jobId: JobId, status: Status, createdAt: int, updatedAt: int,
    startedAt: Option<int>, finishedAt: Option<int>, revision: nat)

  function Submitted(id: JobId, now: int): DataJob { DataJob(id, QUEUED, now, now, None, None, 0) }

  function Advanced(current: DataJob, status: Status, now: int): DataJob {
    DataJob(current.jobId, status, current.createdAt, now,
            if status == RUNNING && current.startedAt.None? then Some(now) else current.startedAt,
            if Terminal(status) then Some(now) else None,
            current.revision + 1)
  }

  /** What retention looks at. */
  function View(d: DataJob): JobState { JobState(d.jobId, d.status, d.createdAt, d.updatedAt, d.revision) }

  function Views(states: map<JobId, DataJob>): map<JobId, JobState> { map j | j in states :: View(states[j]) }

  /** The registry object; the lock makes each method one atomic step. */
  class DataRegistry {
    var states: map<JobId, DataJob>

    constructor ()
      ensures states == map[]
    {
      states := map[];
    }

    /** `None` is Python's `KeyError`. A first RUNNING sets the start time, a final status the finish time. */
    method Update(id: JobId, status: Status, now: int) returns (r: Option<DataJob>)
      modifies this
      ensures r.None? <==> id !in old(states)
      ensures r.None? ==> states == old(states)
      ensures r.Some? ==> states == old(states)[id := r.value] && r.value == Advanced(old(states)[id], status, now)
    {
      if id !in states {
        return None;
      }
      var next := states[id].(status := status, updatedAt := now, revision := states[id].revision + 1);
      if status == RUNNING && next.startedAt.None? {
        next := next.(startedAt := Some(now));
      }
      next := next.(finishedAt := if Terminal(status) then Some(now) else None);
      states := states[id := next];
      r := Some(next);
    }
  }

  // ---- state ---------------------------------------------------------------------------

  datatype Task =
    | Created          // scheduled, not yet run
    | Waiting          // queued on the semaphore
    | Granted          // handed the permit, not yet resumed
    | Launching        // awaiting the subprocess
    | Collecting       // awaiting its output
    | Stopping         // cancelled: awaiting the end of the subprocess
    | Escaped          // ended with an exception, done callback still to run
    | Over

  datatype State = State(
    states: map<JobId, DataJob>,
    history: map<JobId, seq<DataJob>>,
    tasks: map<JobId, Task>,
    holder: Option<JobId>,
    waiters: seq<JobId>,
    cancelled: set<JobId>)

  datatype Action =
    | Submit(id: JobId, now: int, pruned: map<JobId, DataJob>)
    | Begin(id: JobId, now: int, settingsOk: bool)
    | Resume(id: JobId, now: int, settingsOk: bool)
    | Launched(id: JobId, now: int, ok: bool)
    | Collected(id: JobId, now: int, exitCode: Option<int>)
    | Cancel(id: JobId, now: int)
    | Stopped(id: JobId, now: int, ok: bool)
    | DoneCallback(id: JobId, now: int)

  function Init(): State { State(map[], map[], map[], None, [], {}) }

  ghost predicate Enabled(s: State, a: Action) {
    if a.Submit? then
      a.id !in s.history && a.pruned.Keys <= s.states.Keys && Pruned(Views(s.states), Views(a.pruned))
      && forall j :: j in a.pruned ==> a.pruned[j] == s.states[j]
    else
      a.id in s.tasks && match a
        case Begin(id, _, _) => s.tasks[id] == Created
        case Resume(id, _, _) => s.tasks[id] == Granted
        case Launched(id, _, _) => s.tasks[id] == Launching
        case Collected(id, _, _) => s.tasks[id] == Collecting
        case Cancel(id, _) => s.tasks[id] !in {Escaped, Over}
        case Stopped(id, _, _) => s.tasks[id] == Stopping
        case DoneCallback(id, _) => s.tasks[id] == Escaped
        case Submit(_, _, _) => true
  }

  // ---- building blocks of the steps -------------------------------------------------------

  function SetTask(s: State, id: JobId, task: Task): State { s.(tasks := s.tasks[id := task]) }

  /** `registry.update` on a job that has an entry. */
  function Store(s: State, id: JobId, status: Status, now: int): State {
    if id !in s.states || id !in s.history then s else
      var d := Advanced(s.states[id], status, now);
      s.(states := s.states[id := d], history := s.history[id := s.history[id] + [d]])
  }

  /** The handlers: a FAILED snapshot unless the job is gone or already final. */
  function FailUnlessFinal(s: State, id: JobId, now: int): State {
    if id in s.states && !Terminal(s.states[id].status) then Store(s, id, FAILED, now) else s
  }

  /** Leaving the `async with`: the permit goes to the first waiter, or becomes free. */
  function Release(s: State): State {
    if s.waiters == [] then s.(holder := None)
    else SetTask(s, s.waiters[0], Granted).(holder := Some(s.waiters[0]), waiters := s.waiters[1..])
  }

  /** The task inside the semaphore, up to its first await. */
  function Enter(s: State, id: JobId, now: int, settingsOk: bool): State {
    var r := Store(s, id, RUNNING, now);
    if settingsOk then SetTask(r, id, Launching) else Release(SetTask(FailUnlessFinal(r, id, now), id, Over))
  }

  function Without(s: seq<JobId>, id: JobId): seq<JobId> {
    if s == [] then [] else if s[0] == id then s[1..] else [s[0]] + Without(s[1..], id)
  }

  function CancelStep(s: State, id: JobId, now: int): State
    requires id in s.tasks
  {
    var t := s.(cancelled := s.cancelled + {id});
    match s.tasks[id]
    case Created => SetTask(t, id, Over)
    case Waiting => SetTask(FailUnlessFinal(t, id, now), id, Over).(waiters := Without(s.waiters, id))
    case Collecting => Release(SetTask(t, id, Stopping))
    case Stopping => SetTask(t, id, Over)
    case _ => Release(SetTask(FailUnlessFinal(t, id, now), id, Over))
  }

  function Apply(s: State, a: Action): State {
    match a
    case Submit(id, now, pruned) =>
      var d := Submitted(id, now);
      s.(states := pruned[id := d], history := s.history[id := [d]], tasks := s.tasks[id := Created])
    case Begin(id, now, settingsOk) =>
      if id !in s.states then SetTask(s, id, Over)
      else if s.holder.None? && s.waiters == [] then Enter(s.(holder := Some(id)), id, now, settingsOk)
      else SetTask(s, id, Waiting).(waiters := s.waiters + [id])
    case Resume(id, now, settingsOk) => Enter(s, id, now, settingsOk)
    case Launched(id, now, ok) =>
      if ok then SetTask(s, id, Collecting) else Release(SetTask(FailUnlessFinal(s, id, now), id, Over))
    case Collected(id, now, exitCode) =>
      if exitCode == Some(0) then Release(SetTask(Store(s, id, SUCCEEDED, now), id, Over))
      else if exitCode.Some? then Release(SetTask(Store(s, id, FAILED, now), id, Over))
      else Release(SetTask(FailUnlessFinal(s, id, now), id, Over))
    case Cancel(id, now) => if id in s.tasks then CancelStep(s, id, now) else s
    case Stopped(id, now, ok) =>
      if ok then SetTask(FailUnlessFinal(s, id, now), id, Over) else SetTask(s, id, Escaped)
    case DoneCallback(id, now) => SetTask(FailUnlessFinal(s, id, now), id, Over)
  }

  // ---- invariant -----------------------------------------------------------------------

  /** One of: queued; queued, running; queued, failed; queued, running, final. With exact timestamps. */
  ghost predicate Lifecycle(h: seq<DataJob>) {
    && 1 <= |h| <= 3
    && h[0].status == QUEUED && h[0].startedAt.None? && h[0].createdAt == h[0].updatedAt
    && (forall i :: 1 <= i < |h| ==> h[i].createdAt == h[0].createdAt && h[i].jobId == h[0].jobId)
    && (|h| == 2 ==> h[1].status in {RUNNING, FAILED})
    && (|h| == 3 ==> h[1].status == RUNNING && h[2].status in {SUCCEEDED, FAILED})
    && (forall i :: 0 <= i < |h| ==> h[i].revision == i && (h[i].finishedAt.Some? <==> Terminal(h[i].status)))
    && (forall i :: 1 <= i < |h| ==>
          h[i].startedAt == (if h[1].status == RUNNING then Some(h[1].updatedAt) else None))
  }

  function Last(h: seq<DataJob>): DataJob
    requires h != []
  {
    h[|h| - 1]
  }

  ghost predicate InFlight(h: seq<DataJob>) { |h| == 2 && h[1].status == RUNNING }

  ghost predicate TaskFits(s: State, j: JobId)
    requires j in s.tasks && j in s.history
  {
    var h := s.history[j];
    match s.tasks[j]
    case Created => |h| == 1 && s.holder != Some(j) && j !in s.cancelled
    case Waiting => |h| == 1 && s.holder != Some(j) && j !in s.cancelled
    case Granted => |h| == 1 && s.holder == Some(j) && j !in s.cancelled
    case Launching => InFlight(h) && s.holder == Some(j) && j !in s.cancelled
    case Collecting => InFlight(h) && s.holder == Some(j) && j !in s.cancelled
    case Stopping => InFlight(h) && s.holder != Some(j) && j in s.cancelled
    case Escaped => InFlight(h) && s.holder != Some(j) && j in s.cancelled
    case Over => s.holder != Some(j) && (|h| == 1 || InFlight(h) ==> j in s.cancelled)
  }

  ghost predicate JobOk(s: State, j: JobId)
    requires j in s.history
  {
    && j in s.tasks && Lifecycle(s.history[j]) && TaskFits(s, j)
    && (j in s.states ==> s.states[j] == Last(s.history[j]) && s.states[j].jobId == j)
    && (j !in s.states ==> Terminal(Last(s.history[j]).status))
    && (s.tasks[j] == Waiting <==> j in s.waiters)
  }

  ghost predicate Inv(s: State) {
    && s.tasks.Keys == s.history.Keys && s.states.Keys <= s.history.Keys && s.cancelled <= s.history.Keys
    && (forall j :: j in s.history ==> JobOk(s, j))
    && (forall i :: 0 <= i < |s.waiters| ==> s.waiters[i] in s.history)
    && (forall i, j :: 0 <= i < j < |s.waiters| ==> s.waiters[i] != s.waiters[j])
    && (s.holder.Some? ==> s.holder.value in s.history)
    && (s.holder.None? ==> s.waiters == [])
  }

  // ---- preservation --------------------------------------------------------------------

  /** The next snapshot keeps the life cycle. */
  lemma AdvanceFits(h: seq<DataJob>, status: Status, now: int)
    requires Lifecycle(h)
    requires (|h| == 1 && status in {RUNNING, FAILED}) || (InFlight(h) && status in {SUCCEEDED, FAILED})
    ensures Lifecycle(h + [Advanced(Last(h), status, now)])
  {
  }

  /** A job that the step does not touch. */
  lemma JobFrame(s: State, t: State, j: JobId)
    requires j in s.history && j in t.history && JobOk(s, j) && t.history[j] == s.history[j]
    requires j in t.tasks && t.tasks[j] == s.tasks[j]
    requires j in t.states ==> j in s.states && t.states[j] == s.states[j]
    requires j in s.states && j !in t.states ==> Terminal(s.states[j].status)
    requires s.holder == Some(j) <==> t.holder == Some(j)
    requires j in s.cancelled <==> j in t.cancelled
    requires j in s.waiters <==> j in t.waiters
    ensures JobOk(t, j)
  {
    hide Lifecycle;
  }

  /** A step that only moves one task, its history, and leaves the semaphore to others. */
  lemma OneJobKeeps(s: State, t: State, id: JobId)
    requires Inv(s) && id in s.history && id in t.history && JobOk(t, id)
    requires t.tasks == s.tasks[id := t.tasks[id]] && t.history == s.history[id := t.history[id]]
    requires t.states.Keys == s.states.Keys && forall j :: j in s.states && j != id ==> t.states[j] == s.states[j]
    requires s.cancelled <= t.cancelled <= s.cancelled + {id}
    requires forall j :: j != id ==> (j in s.waiters <==> j in t.waiters)
    requires forall j :: j != id ==> (s.holder == Some(j) <==> t.holder == Some(j))
    requires forall i :: 0 <= i < |t.waiters| ==> t.waiters[i] in s.history
    requires forall i, j :: 0 <= i < j < |t.waiters| ==> t.waiters[i] != t.waiters[j]
    requires t.holder.None? ==> t.waiters == []
    ensures Inv(t)
  {
    hide JobOk;
    forall j | j in t.history ensures JobOk(t, j) {
      if j != id { JobFrame(s, t, j); }
    }
  }

  /** The permit moves from a task that leaves it to the first waiter. */
  lemma ReleaseKeeps(s: State, t: State, id: JobId)
    requires Inv(s) && id in s.history && s.holder == Some(id)
    requires id in t.history && id in t.tasks && t.tasks[id] in {Over, Stopping} && id !in t.waiters
    requires t.tasks == s.tasks[id := t.tasks[id]] && t.history == s.history[id := t.history[id]]
    requires t.states.Keys == s.states.Keys && forall j :: j in s.states && j != id ==> t.states[j] == s.states[j]
    requires s.cancelled <= t.cancelled <= s.cancelled + {id} && t.waiters == s.waiters && t.holder == s.holder
    requires JobOk(t.(holder := None), id)
    ensures Inv(Release(t))
  {
    hide JobOk;
    var r := Release(t);
    forall j | j in r.history ensures JobOk(r, j) {
      if j == id {
        LeaverOk(t, id);
      } else if j in s.waiters && j == s.waiters[0] {
        GrantedOk(s, r, j);
      } else {
        assert s.waiters != [] && j in s.waiters ==> j in s.waiters[1..];
        JobFrame(s, r, j);
      }
    }
  }

  lemma LeaverOk(t: State, id: JobId)
    requires id in t.history && JobOk(t.(holder := None), id) && t.tasks[id] in {Over, Stopping} && id !in t.waiters
    ensures id in Release(t).history && JobOk(Release(t), id)
  {
    hide Lifecycle;
  }

  lemma GrantedOk(s: State, r: State, j: JobId)
    requires j in s.history && JobOk(s, j) && j in s.waiters
    requires j in r.history && r.history[j] == s.history[j]
    requires (j in r.states <==> j in s.states) && (j in s.states ==> r.states[j] == s.states[j])
    requires j in r.tasks && r.tasks[j] == Granted && r.holder == Some(j) && j !in r.waiters
    requires j in s.cancelled <==> j in r.cancelled
    ensures JobOk(r, j)
  {
    hide Lifecycle;
  }

  lemma JobFacts(s: State, id: JobId)
    requires id in s.history && JobOk(s, id)
    ensures id in s.tasks && Lifecycle(s.history[id]) && TaskFits(s, id)
    ensures id in s.states ==> s.states[id] == Last(s.history[id])
    ensures |s.history[id]| == 1 || InFlight(s.history[id]) ==> id in s.states && !Terminal(s.states[id].status)
    ensures s.tasks[id] == Waiting <==> id in s.waiters
  {
  }

  /** The job of a step that stores one more snapshot. */
  lemma StoredOk(s: State, t: State, id: JobId, status: Status, now: int)
    requires id in s.history && JobOk(s, id) && id in s.states
    requires (|s.history[id]| == 1 && status in {RUNNING, FAILED})
             || (InFlight(s.history[id]) && status in {SUCCEEDED, FAILED})
    requires id in t.history && t.history[id] == s.history[id] + [Advanced(s.states[id], status, now)]
    requires id in t.states && t.states[id] == Advanced(s.states[id], status, now)
    requires id in t.tasks && TaskFits(t, id) && t.tasks[id] != Waiting && id !in t.waiters
    ensures JobOk(t, id)
  {
    hide Lifecycle;
    AdvanceFits(s.history[id], status, now);
  }

  /** The holder of the permit stores a final snapshot and leaves. */
  lemma HolderLeaves(s: State, id: JobId, status: Status, now: int, cancelled: set<JobId>)
    requires Inv(s) && id in s.history && s.holder == Some(id) && s.cancelled <= cancelled <= s.cancelled + {id}
    requires status == FAILED || (status == SUCCEEDED && s.tasks[id] != Granted)
    ensures id in s.states && !Terminal(s.states[id].status)
    ensures Inv(Release(SetTask(Store(s.(cancelled := cancelled), id, status, now), id, Over)))
  {
    hide JobOk, Lifecycle;
    JobFacts(s, id);
    var t := SetTask(Store(s.(cancelled := cancelled), id, status, now), id, Over);
    StoredOk(s, t.(holder := None), id, status, now);
    ReleaseKeeps(s, t, id);
  }

  /** Entering the semaphore block, up to the first await or the failure of the settings. */
  lemma EnterKeeps(s: State, id: JobId, now: int, settingsOk: bool)
    requires Inv(s) && id in s.history && s.tasks[id] in {Created, Granted}
    requires s.tasks[id] == Created ==> s.holder.None?
    ensures Inv(Enter(s.(holder := Some(id)), id, now, settingsOk))
  {
    hide JobOk, Lifecycle;
    JobFacts(s, id);
    var t := SetTask(Store(s.(holder := Some(id)), id, RUNNING, now), id, Launching);
    StoredOk(s, t, id, RUNNING, now);
    OneJobKeeps(s, t, id);
    if !settingsOk {
      HolderLeaves(t, id, FAILED, now, t.cancelled);
      FailedSettings(Store(s.(holder := Some(id)), id, RUNNING, now), id, now);
    }
  }

  /** Marking the task before or after its FAILED snapshot makes no difference. */
  lemma FailedSettings(r: State, id: JobId, now: int)
    requires id in r.states && !Terminal(r.states[id].status)
    ensures var t := SetTask(r, id, Launching);
            SetTask(FailUnlessFinal(r, id, now), id, Over)
              == SetTask(Store(t.(cancelled := t.cancelled), id, FAILED, now), id, Over)
  {
    assert r.tasks[id := Launching][id := Over] == r.tasks[id := Over];
  }

  /** A task outside the semaphore stores FAILED, unless its job is gone or final, and ends. */
  lemma OutsiderFails(s: State, id: JobId, now: int, cancelled: set<JobId>, waiters: seq<JobId>)
    requires Inv(s) && id in s.history && s.tasks[id] in {Waiting, Stopping, Escaped}
    requires s.cancelled <= cancelled <= s.cancelled + {id} && id !in waiters
    requires forall j :: j != id ==> (j in s.waiters <==> j in waiters)
    requires forall i, j :: 0 <= i < j < |waiters| ==> waiters[i] != waiters[j]
    requires s.waiters == [] ==> waiters == []
    ensures Inv(SetTask(FailUnlessFinal(s.(cancelled := cancelled), id, now), id, Over).(waiters := waiters))
  {
    hide JobOk, Lifecycle;
    JobFacts(s, id);
    var t := SetTask(FailUnlessFinal(s.(cancelled := cancelled), id, now), id, Over).(waiters := waiters);
    StoredOk(s, t, id, FAILED, now);
    assert forall i :: 0 <= i < |waiters| ==> waiters[i] in waiters;
    OneJobKeeps(s, t, id);
  }

  lemma {:induction false} WithoutRemoves(s: seq<JobId>, id: JobId)
    requires forall i, j :: 0 <= i < j < |s| ==> s[i] != s[j]
    ensures id !in Without(s, id)
    ensures forall j :: j in Without(s, id) <==> j in s && j != id
    ensures forall i, j :: 0 <= i < j < |Without(s, id)| ==> Without(s, id)[i] != Without(s, id)[j]
    decreases |s|
  {
    if s != [] {
      WithoutRemoves(s[1..], id);
      assert s == [s[0]] + s[1..];
      if s[0] != id {
        var w := Without(s[1..], id);
        forall j | 0 <= j < |w| ensures w[j] != s[0] {
          assert w[j] in w;
        }
      }
    }
  }

  /** A task moves without storing anything and without holding or taking the permit. */
  lemma QuietMove(s: State, id: JobId, task: Task, cancelled: set<JobId>)
    requires Inv(s) && id in s.history && s.cancelled <= cancelled <= s.cancelled + {id}
    requires (s.tasks[id] == Created && task == Over && id in cancelled)
             || (s.tasks[id] == Launching && task == Collecting && cancelled == s.cancelled)
             || (s.tasks[id] == Stopping && task in {Escaped, Over})
    ensures Inv(SetTask(s.(cancelled := cancelled), id, task))
  {
    hide Lifecycle;
    assert JobOk(s, id);
    OneJobKeeps(s, SetTask(s.(cancelled := cancelled), id, task), id);
  }

  lemma BeginKeeps(s: State, id: JobId, now: int, settingsOk: bool)
    requires Inv(s) && id in s.tasks && s.tasks[id] == Created
    ensures Inv(Apply(s, Begin(id, now, settingsOk)))
  {
    hide JobOk, Lifecycle, Enter;
    JobFacts(s, id);
    if s.holder.None? && s.waiters == [] {
      EnterKeeps(s, id, now, settingsOk);
    } else {
      var t := SetTask(s, id, Waiting).(waiters := s.waiters + [id]);
      QueuedOk(s, t, id);
      assert forall i :: 0 <= i < |s.waiters| ==> s.waiters[i] in s.waiters;
      OneJobKeeps(s, t, id);
    }
  }

  lemma QueuedOk(s: State, t: State, id: JobId)
    requires id in s.history && JobOk(s, id) && s.tasks[id] == Created
    requires t == SetTask(s, id, Waiting).(waiters := s.waiters + [id])
    ensures JobOk(t, id)
  {
    hide Lifecycle;
  }

  lemma CancelKeeps(s: State, id: JobId, now: int)
    requires Inv(s) && id in s.tasks && s.tasks[id] !in {Escaped, Over}
    ensures Inv(CancelStep(s, id, now))
  {
    hide JobOk, Lifecycle;
    JobFacts(s, id);
    var c := s.cancelled + {id};
    match s.tasks[id]
    case Created => QuietMove(s, id, Over, c);
    case Waiting =>
      WithoutRemoves(s.waiters, id);
      OutsiderFails(s, id, now, c, Without(s.waiters, id));
    case Collecting =>
      var t := SetTask(s.(cancelled := c), id, Stopping);
      StoppingOk(s, t, id);
      ReleaseKeeps(s, t, id);
    case Stopping => QuietMove(s, id, Over, c);
    case Granted => HolderLeaves(s, id, FAILED, now, c);
    case Launching => HolderLeaves(s, id, FAILED, now, c);
  }

  lemma StoppingOk(s: State, t: State, id: JobId)
    requires id in s.history && JobOk(s, id) && s.tasks[id] == Collecting
    requires t == SetTask(s.(cancelled := s.cancelled + {id}), id, Stopping)
    ensures JobOk(t.(holder := None), id)
  {
    hide Lifecycle;
  }

  lemma PrunedViews(states: map<JobId, DataJob>, after: map<JobId, JobState>)
    requires Pruned(Views(states), after)
    ensures after.Keys <= states.Keys
    ensures forall j :: j in after ==> after[j] == View(states[j])
    ensures forall j :: j in states && !Terminal(states[j].status) ==> j in after
  {
    var views := Views(states);
    forall j | j in states && !Terminal(states[j].status) ensures j in after {
      assert j in views && j !in Finished(views);
      assert j !in views.Keys - after.Keys;
    }
  }

  /** What a submission does, and that it only forgets finished jobs. */
  lemma SubmitFacts(s: State, a: Action)
    requires a.Submit? && Enabled(s, a)
    ensures a.id !in s.history && a.pruned.Keys <= s.states.Keys
    ensures forall j :: j in a.pruned ==> a.pruned[j] == s.states[j]
    ensures forall j :: j in s.states && !Terminal(s.states[j].status) ==> j in a.pruned
    ensures var d := Submitted(a.id, a.now);
            Apply(s, a) == s.(states := a.pruned[a.id := d], history := s.history[a.id := [d]],
                              tasks := s.tasks[a.id := Created])
  {
    hide Pruned;
    PrunedViews(s.states, Views(a.pruned));
    assert Views(a.pruned).Keys == a.pruned.Keys;
  }

  lemma SubmitKeeps(s: State, a: Action)
    requires Inv(s) && a.Submit? && Enabled(s, a)
    ensures Inv(Apply(s, a))
  {
    hide JobOk, Lifecycle, Enabled, Apply, Terminal, Submitted;
    SubmitFacts(s, a);
    var t := Apply(s, a);
    assert forall i :: 0 <= i < |s.waiters| ==> s.waiters[i] in s.waiters;
    forall j | j in t.history ensures JobOk(t, j) {
      if j == a.id { FreshOk(t, j, a.now); } else { JobFrame(s, t, j); }
    }
  }

  lemma FreshOk(t: State, id: JobId, now: int)
    requires id in t.history && t.history[id] == [Submitted(id, now)]
    requires id in t.states && t.states[id] == Submitted(id, now)
    requires id in t.tasks && t.tasks[id] == Created && t.holder != Some(id) && id !in t.waiters && id !in t.cancelled
    ensures JobOk(t, id)
  {
  }

  /** Every step of every kind, cancellation included, keeps the invariant. */
  lemma StepKeeps(s: State, a: Action)
    requires Inv(s) && Enabled(s, a)
    ensures Inv(Apply(s, a))
  {
    hide JobOk, Lifecycle, Enter, Release, Pruned;
    if a.Submit? {
      SubmitKeeps(s, a);
    } else {
      JobFacts(s, a.id);
      match a
      case Begin(id, now, settingsOk) => BeginKeeps(s, id, now, settingsOk);
      case Resume(id, now, settingsOk) =>
        EnterKeeps(s, id, now, settingsOk);
        assert s == s.(holder := Some(id));
      case Launched(id, now, ok) =>
        if ok {
          QuietMove(s, id, Collecting, s.cancelled);
        } else {
          HolderLeaves(s, id, FAILED, now, s.cancelled);
        }
      case Collected(id, now, exitCode) =>
        HolderLeaves(s, id, if exitCode == Some(0) then SUCCEEDED else FAILED, now, s.cancelled);
      case Cancel(id, now) => CancelKeeps(s, id, now);
      case Stopped(id, now, ok) =>
        if ok {
          OutsiderFails(s, id, now, s.cancelled, s.waiters);
        } else {
          QuietMove(s, id, Escaped, s.cancelled);
        }
      case DoneCallback(id, now) => OutsiderFails(s, id, now, s.cancelled, s.waiters);
    }
  }

  // ---- whole runs --------------------------------------------------------------------------

  ghost predicate Run(run: seq<State>, actions: seq<Action>) {
    && |run| == |actions| + 1
    && run[0] == Init()
    && forall i :: 0 <= i < |actions| ==>
         Enabled(run[i], actions[i]) && run[i + 1] == Apply(run[i], actions[i])
  }

  lemma RunStart(run: seq<State>, actions: seq<Action>)
    requires Run(run, actions)
    ensures |run| == |actions| + 1 && run[0] == Init()
  {
    hide Enabled, Apply;
  }

  lemma RunStep(run: seq<State>, actions: seq<Action>, i: nat)
    requires Run(run, actions) && 0 < i < |run|
    ensures i - 1 < |actions| && Enabled(run[i - 1], actions[i - 1]) && run[i] == Apply(run[i - 1], actions[i - 1])
  {
    hide Enabled, Apply;
    assert run[i - 1 + 1] == Apply(run[i - 1], actions[i - 1]);
  }

  lemma InitKeeps()
    ensures Inv(Init()) && Init().cancelled == {}
  {
  }

  lemma {:induction false} RunKeeps(run: seq<State>, actions: seq<Action>, i: nat)
    requires Run(run, actions) && i < |run|
    ensures Inv(run[i])
    decreases i
  {
    hide *;
    if i == 0 {
      RunStart(run, actions);
      InitKeeps();
    } else {
      RunKeeps(run, actions, i - 1);
      RunStep(run, actions, i);
      StepKeeps(run[i - 1], actions[i - 1]);
    }
  }

  /** Every data job's history, in every run, is a prefix of one of the allowed life cycles. */
  lemma HistoryContract(run: seq<State>, actions: seq<Action>, i: nat, j: JobId)
    requires Run(run, actions) && i < |run| && j in run[i].history
    ensures Lifecycle(run[i].history[j])
    ensures j in run[i].states ==> run[i].states[j] == Last(run[i].history[j])
    ensures j !in run[i].states ==> Terminal(Last(run[i].history[j]).status)
  {
    hide Run;
    RunKeeps(run, actions, i);
    assert JobOk(run[i], j);
  }

  /** A RUNNING job holds the permit exactly when its task was not cancelled. */
  lemma RunningHoldsPermit(run: seq<State>, actions: seq<Action>, i: nat, j: JobId)
    requires Run(run, actions) && i < |run| && j in run[i].states && run[i].states[j].status == RUNNING
    ensures run[i].holder == Some(j) <==> j !in run[i].cancelled
  {
    hide Run;
    RunKeeps(run, actions, i);
    assert JobOk(run[i], j);
  }

  /** So of two RUNNING jobs at least one was cancelled. */
  lemma OverlapNeedsCancel(run: seq<State>, actions: seq<Action>, i: nat, j: JobId, k: JobId)
    requires Run(run, actions) && i < |run| && j != k
    requires j in run[i].states && run[i].states[j].status == RUNNING
    requires k in run[i].states && run[i].states[k].status == RUNNING
    ensures j in run[i].cancelled || k in run[i].cancelled
  {
    hide Run;
    RunningHoldsPermit(run, actions, i, j);
    RunningHoldsPermit(run, actions, i, k);
  }

  lemma StoreCancelsNone(s: State, id: JobId, status: Status, now: int)
    ensures Store(s, id, status, now).cancelled == s.cancelled
    ensures FailUnlessFinal(s, id, now).cancelled == s.cancelled
  {
    hide Advanced, Terminal;
  }

  lemma ReleaseCancelsNone(s: State, id: JobId, task: Task)
    ensures Release(SetTask(s, id, task)).cancelled == s.cancelled
  {
  }

  lemma EnterCancelsNone(s: State, id: JobId, now: int, settingsOk: bool)
    ensures Enter(s, id, now, settingsOk).cancelled == s.cancelled
  {
    hide Store, FailUnlessFinal, Release;
    var r := Store(s, id, RUNNING, now);
    StoreCancelsNone(s, id, RUNNING, now);
    StoreCancelsNone(r, id, FAILED, now);
    ReleaseCancelsNone(FailUnlessFinal(r, id, now), id, Over);
  }

  lemma OthersDoNotCancel(s: State, a: Action)
    requires !a.Cancel?
    ensures Apply(s, a).cancelled == s.cancelled
  {
    hide Store, FailUnlessFinal, Release, Enter;
    match a
    case Submit(_, _, _) =>
    case Begin(id, now, settingsOk) => EnterCancelsNone(s.(holder := Some(id)), id, now, settingsOk);
    case Resume(id, now, settingsOk) => EnterCancelsNone(s, id, now, settingsOk);
    case Launched(id, now, _) =>
      StoreCancelsNone(s, id, FAILED, now);
      ReleaseCancelsNone(FailUnlessFinal(s, id, now), id, Over);
    case Collected(id, now, exitCode) =>
      var status := if exitCode == Some(0) then SUCCEEDED else FAILED;
      StoreCancelsNone(s, id, status, now);
      ReleaseCancelsNone(Store(s, id, status, now), id, Over);
      ReleaseCancelsNone(FailUnlessFinal(s, id, now), id, Over);
    case Stopped(id, now, _) => StoreCancelsNone(s, id, FAILED, now);
    case DoneCallback(id, now) => StoreCancelsNone(s, id, FAILED, now);
  }

  lemma {:induction false} CancelledOnlyByCancel(run: seq<State>, actions: seq<Action>, i: nat)
    requires Run(run, actions) && i < |run|
    requires forall k :: 0 <= k < |actions| ==> !actions[k].Cancel?
    ensures run[i].cancelled == {}
    decreases i
  {
    hide *;
    RunStart(run, actions);
    InitKeeps();
    if i > 0 {
      CancelledOnlyByCancel(run, actions, i - 1);
      RunStep(run, actions, i);
      OthersDoNotCancel(run[i - 1], actions[i - 1]);
    }
  }

  /** Without cancellation at most one data job is RUNNING at any time. */
  lemma OneAtATime(run: seq<State>, actions: seq<Action>, i: nat, j: JobId, k: JobId)
    requires Run(run, actions) && i < |run|
    requires forall n :: 0 <= n < |actions| ==> !actions[n].Cancel?
    requires j in run[i].states && run[i].states[j].status == RUNNING
    requires k in run[i].states && run[i].states[k].status == RUNNING
    ensures j == k
  {
    CancelledOnlyByCancel(run, actions, i);
    RunningHoldsPermit(run, actions, i, j);
    RunningHoldsPermit(run, actions, i, k);
  }

  // ---- how jobs end --------------------------------------------------------------------------

  type Histories = map<JobId, seq<DataJob>>

  /** Only this job's history grew, and its last status is SUCCEEDED exactly when `ok`. */
  ghost predicate Grows(h: Histories, k: Histories, id: JobId, ok: bool) {
    && id in h && k.Keys == h.Keys
    && (forall j :: j in h && j != id ==> k[j] == h[j])
    && h[id] <= k[id] && k[id] != []
    && (Last(k[id]).status == SUCCEEDED <==> ok)
  }

  lemma StoreGrows(s: State, id: JobId, status: Status, now: int)
    requires id in s.states && id in s.history
    ensures Grows(s.history, Store(s, id, status, now).history, id, status == SUCCEEDED)
    ensures Last(Store(s, id, status, now).history[id]).status == status
  {
  }

  lemma FailGrows(h: Histories, t: State, id: JobId, now: int)
    requires Grows(h, t.history, id, false)
    ensures Grows(h, FailUnlessFinal(t, id, now).history, id, false)
  {
    hide Last;
    if id in t.states && !Terminal(t.states[id].status) {
      StoreGrows(t, id, FAILED, now);
      hide Store;
      PrefixTransitive(h[id], t.history[id], Store(t, id, FAILED, now).history[id]);
    }
  }

  lemma PrefixTransitive<T>(a: seq<T>, b: seq<T>, c: seq<T>)
    requires a <= b && b <= c
    ensures a <= c
  {
  }

  lemma ReleaseQuiet(s: State, id: JobId, task: Task)
    ensures Release(SetTask(s, id, task)).history == s.history
  {
  }

  lemma EnterGrows(s: State, id: JobId, now: int, settingsOk: bool)
    requires id in s.states && id in s.history
    ensures Grows(s.history, Enter(s, id, now, settingsOk).history, id, false)
  {
    var r := Store(s, id, RUNNING, now);
    StoreGrows(s, id, RUNNING, now);
    FailGrows(s.history, r, id, now);
    ReleaseQuiet(FailUnlessFinal(r, id, now), id, Over);
    hide Store, FailUnlessFinal, Release, Grows;
  }

  /** A job that a step is about has not finished. */
  lemma ActiveUnfinished(s: State, a: Action)
    requires Inv(s) && Enabled(s, a) && !a.Submit?
    ensures a.id in s.tasks && a.id in s.history && a.id in s.states && Grows(s.history, s.history, a.id, false)
    ensures s.states[a.id] == Last(s.history[a.id]) && s.states[a.id].status in {QUEUED, RUNNING}
  {
    ActiveTask(s, a);
    hide Inv, Enabled;
    UnfinishedJob(s, a.id);
  }

  lemma ActiveTask(s: State, a: Action)
    requires Inv(s) && Enabled(s, a) && !a.Submit?
    ensures a.id in s.tasks && a.id in s.history && s.tasks[a.id] != Over && JobOk(s, a.id)
  {
    hide JobOk, Pruned;
  }

  lemma UnfinishedJob(s: State, j: JobId)
    requires j in s.tasks && j in s.history && JobOk(s, j) && s.tasks[j] != Over
    ensures j in s.states && Grows(s.history, s.history, j, false)
    ensures s.states[j] == Last(s.history[j]) && s.states[j].status in {QUEUED, RUNNING}
  {
  }

  lemma SubmitSucceeds(s: State, a: Action, j: JobId)
    requires Enabled(s, a) && a.Submit? && j in Apply(s, a).history && (j in s.history ==> s.history[j] != [])
    ensures Apply(s, a).history[j] != []
    ensures Last(Apply(s, a).history[j]).status == SUCCEEDED <==>
              j in s.history && s.history[j] != [] && Last(s.history[j]).status == SUCCEEDED
    ensures j in s.history ==> s.history[j] <= Apply(s, a).history[j]
  {
    hide Pruned;
  }

  lemma KnownJob(s: State, j: JobId)
    requires Inv(s) && j in s.history
    ensures s.history[j] != []
  {
    assert JobOk(s, j);
    hide Inv, TaskFits;
  }

  lemma CancelGrows(s: State, id: JobId, now: int)
    requires id in s.tasks && Grows(s.history, s.history, id, false)
    ensures Grows(s.history, CancelStep(s, id, now).history, id, false)
  {
    var t := s.(cancelled := s.cancelled + {id});
    FailGrows(s.history, t, id, now);
    ReleaseQuiet(FailUnlessFinal(t, id, now), id, Over);
    ReleaseQuiet(t, id, Stopping);
    hide Release, FailUnlessFinal, Grows, Without;
  }

  /** What one step does to the history of its job: SUCCEEDED comes from the exit code 0 and nothing else. */
  lemma StepGrows(s: State, a: Action)
    requires Inv(s) && Enabled(s, a) && !a.Submit?
    ensures Grows(s.history, Apply(s, a).history, a.id, a.Collected? && a.exitCode == Some(0))
  {
    hide Inv, Enabled, Grows, Release, Enter, CancelStep, Last, Terminal;
    ActiveUnfinished(s, a);
    var failed := FailUnlessFinal(s, a.id, a.now);
    FailGrows(s.history, s, a.id, a.now);
    ReleaseQuiet(failed, a.id, Over);
    match a
    case Begin(id, now, settingsOk) => EnterGrows(s.(holder := Some(id)), id, now, settingsOk);
    case Resume(id, now, settingsOk) => EnterGrows(s, id, now, settingsOk);
    case Launched(_, _, _) =>
    case Collected(id, now, exitCode) =>
      var status := if exitCode == Some(0) then SUCCEEDED else FAILED;
      StoreGrows(s, id, status, now);
      ReleaseQuiet(Store(s, id, status, now), id, Over);
    case Cancel(id, now) => CancelGrows(s, id, now);
    case Stopped(_, _, _) =>
    case DoneCallback(_, _) =>
  }

  /** SUCCEEDED before the step stays, and comes new only from the exit code 0. */
  lemma StepSucceeds(s: State, a: Action, j: JobId)
    requires Inv(s) && Enabled(s, a) && j in Apply(s, a).history
    ensures Apply(s, a).history[j] != []
    ensures Last(Apply(s, a).history[j]).status == SUCCEEDED <==>
              || (j in s.history && s.history[j] != [] && Last(s.history[j]).status == SUCCEEDED)
              || (a.Collected? && a.id == j && a.exitCode == Some(0))
    ensures j in s.history ==> s.history[j] <= Apply(s, a).history[j]
  {
    hide Apply, Inv, Enabled;
    if j in s.history { KnownJob(s, j); }
    if a.Submit? {
      SubmitSucceeds(s, a, j);
    } else {
      StepGrows(s, a);
      ActiveUnfinished(s, a);
    }
  }

  lemma StepKnows(s: State, a: Action)
    requires Inv(s) && Enabled(s, a)
    ensures s.history.Keys + {a.id} <= Apply(s, a).history.Keys
  {
    if !a.Submit? {
      StepGrows(s, a);
      hide Apply, Inv, Enabled;
    }
  }

  /** A job that a step was about is known from then on. */
  lemma {:induction false} ActedKnown(run: seq<State>, actions: seq<Action>, k: nat, i: nat)
    requires Run(run, actions) && k < i < |run|
    ensures k < |actions| && actions[k].id in run[i].history
    decreases i
  {
    hide *;
    RunStart(run, actions);
    RunStep(run, actions, i);
    RunKeeps(run, actions, i - 1);
    StepKnows(run[i - 1], actions[i - 1]);
    if k < i - 1 { ActedKnown(run, actions, k, i - 1); }
  }

  /** Before moment `i` the subprocess of the job was collected with exit code 0. */
  ghost predicate ExitedZero(actions: seq<Action>, i: nat, j: JobId)
    requires i <= |actions|
  {
    exists k :: 0 <= k < i && actions[k].Collected? && actions[k].id == j && actions[k].exitCode == Some(0)
  }

  lemma ExitedMore(actions: seq<Action>, i: nat, j: JobId)
    requires i < |actions|
    ensures ExitedZero(actions, i + 1, j) <==>
              ExitedZero(actions, i, j)
              || (actions[i].Collected? && actions[i].id == j && actions[i].exitCode == Some(0))
  {
  }

  lemma NothingCollected(run: seq<State>, actions: seq<Action>, i: nat, j: JobId)
    requires Run(run, actions) && i < |run| && j !in run[i].history
    ensures i <= |actions| && !ExitedZero(actions, i, j)
  {
    hide Run;
    RunStart(run, actions);
    forall k | 0 <= k < i ensures actions[k].id != j { ActedKnown(run, actions, k, i); }
  }

  /** At every moment of every run: a data job ended SUCCEEDED exactly when its subprocess exited with code 0. */
  lemma {:induction false} SucceededExactly(run: seq<State>, actions: seq<Action>, i: nat, j: JobId)
    requires Run(run, actions) && i < |run| && j in run[i].history
    ensures run[i].history[j] != [] && i <= |actions|
    ensures Last(run[i].history[j]).status == SUCCEEDED <==> ExitedZero(actions, i, j)
    decreases i
  {
    hide Inv, Enabled, Apply, Last, Run, ExitedZero;
    RunStart(run, actions);
    if i > 0 {
      var s, a := run[i - 1], actions[i - 1];
      RunStep(run, actions, i);
      RunKeeps(run, actions, i - 1);
      StepSucceeds(s, a, j);
      ExitedMore(actions, i - 1, j);
      if j in s.history {
        SucceededExactly(run, actions, i - 1, j);
      } else {
        NothingCollected(run, actions, i - 1, j);
      }
    }
  }

  ghost predicate EndedAs(s: State, j: JobId, ok: bool) {
    j in s.history && s.history[j] != [] && Last(s.history[j]).status == if ok then SUCCEEDED else FAILED
  }

  lemma StepCollects(s: State, a: Action)
    requires Inv(s) && Enabled(s, a) && a.Collected?
    ensures EndedAs(Apply(s, a), a.id, a.exitCode == Some(0))
  {
    hide Inv, Enabled;
    ActiveUnfinished(s, a);
    var status := if a.exitCode == Some(0) then SUCCEEDED else FAILED;
    StoreGrows(s, a.id, status, a.now);
    ReleaseQuiet(Store(s, a.id, status, a.now), a.id, Over);
    ReleaseQuiet(FailUnlessFinal(s, a.id, a.now), a.id, Over);
    hide Release, Store;
  }

  /** A final status stays: no step is about a finished job. */
  lemma FinalStays(s: State, a: Action, j: JobId, ok: bool)
    requires Inv(s) && Enabled(s, a) && EndedAs(s, j, ok)
    ensures EndedAs(Apply(s, a), j, ok)
  {
    if !a.Submit? {
      hide Apply, Inv, Enabled;
      ActiveUnfinished(s, a);
      StepGrows(s, a);
    } else {
      hide Inv, Pruned;
    }
  }

  /** From the moment its output is collected, a job has the final status that its exit code gives it. */
  lemma {:induction false} CollectedEnds(run: seq<State>, actions: seq<Action>, k: nat, i: nat)
    requires Run(run, actions) && k < i < |run| && k < |actions| && actions[k].Collected?
    ensures EndedAs(run[i], actions[k].id, actions[k].exitCode == Some(0))
    decreases i
  {
    hide *;
    RunStart(run, actions);
    RunStep(run, actions, i);
    RunKeeps(run, actions, i - 1);
    var s, a := run[i - 1], actions[i - 1];
    if i == k + 1 {
      StepCollects(s, a);
    } else {
      CollectedEnds(run, actions, k, i - 1);
      FinalStays(s, a, actions[k].id, actions[k].exitCode == Some(0));
    }
  }

  // ---- cancellation lets two jobs run ------------------------------------------------------

  function Final(run: seq<State>): State { if run == [] then Init() else run[|run| - 1] }

  /** A run continued by one more step. */
  lemma OneMore(run: seq<State>, actions: seq<Action>, a: Action) returns (run': seq<State>, actions': seq<Action>)
    requires Run(run, actions) && Enabled(Final(run), a)
    ensures Run(run', actions') && run <= run' && actions' == actions + [a] && Final(run') == Apply(Final(run), a)
  {
    hide Apply, Enabled;
    run', actions' := run + [Apply(Final(run), a)], actions + [a];
    forall i | 0 <= i < |actions'| ensures Enabled(run'[i], actions'[i]) && run'[i + 1] == Apply(run'[i], actions'[i]) {
      assert i < |actions| ==> Enabled(run[i], actions[i]) && run[i + 1] == Apply(run[i], actions[i]);
    }
  }

  /** A new job can always be submitted, and no unfinished job is forgotten for it. */
  lemma CanSubmit(s: State, id: JobId, now: int) returns (pruned: map<JobId, DataJob>)
    requires Inv(s) && id !in s.history
    ensures Enabled(s, Submit(id, now, pruned))
    ensures forall j :: j in s.states && !Terminal(s.states[j].status) ==> j in pruned && pruned[j] == s.states[j]
  {
    ViewsKeyed(s);
    hide Inv, Pruned, WellKeyed, View, Views, Terminal;
    var after := PrunedExists(Views(s.states));
    PrunedViews(s.states, after);
    pruned := Restricted(s.states, after);
  }

  lemma Restricted(states: map<JobId, DataJob>, after: map<JobId, JobState>) returns (pruned: map<JobId, DataJob>)
    requires after.Keys <= states.Keys && forall j :: j in after ==> after[j] == View(states[j])
    ensures Views(pruned) == after
    ensures pruned.Keys == after.Keys && forall j :: j in pruned ==> pruned[j] == states[j]
  {
    pruned := map j | j in after && j in states :: states[j];
    hide View;
    assert Views(pruned) == after;
  }

  lemma ViewsKeyed(s: State)
    requires Inv(s)
    ensures WellKeyed(Views(s.states))
  {
    forall j | j in s.states ensures s.states[j].jobId == j {
      assert JobOk(s, j);
      hide Inv, Lifecycle, TaskFits;
    }
  }

  ghost predicate IsRunning(s: State, j: JobId) { j in s.states && s.states[j].status == RUNNING }

  /** A queued job that gets the permit is RUNNING, and no other entry changes. */
  lemma EnterRuns(s: State, id: JobId, now: int)
    requires id in s.states && id in s.history
    ensures IsRunning(Enter(s, id, now, true), id)
    ensures forall j :: j != id && IsRunning(s, j) ==> IsRunning(Enter(s, id, now, true), j)
  {
  }

  lemma SubmitLeaves(s: State, b: JobId, pruned: map<JobId, DataJob>, a: JobId)
    requires Enabled(s, Submit(b, 0, pruned)) && s.holder.None? && s.waiters == [] && IsRunning(s, a)
    requires forall j :: j in s.states && !Terminal(s.states[j].status) ==> j in pruned && pruned[j] == s.states[j]
    requires a != b
    ensures var t := Apply(s, Submit(b, 0, pruned));
            && IsRunning(t, a) && t.holder.None? && t.waiters == [] && b in t.states && b in t.history
            && Enabled(t, Begin(b, 1, true))
  {
    hide Pruned;
  }

  lemma BeginRuns(s: State, b: JobId, a: JobId)
    requires s.holder.None? && s.waiters == [] && b in s.states && b in s.history && IsRunning(s, a) && a != b
    ensures IsRunning(Apply(s, Begin(b, 1, true)), a) && IsRunning(Apply(s, Begin(b, 1, true)), b)
  {
    EnterRuns(s.(holder := Some(b)), b, 1);
    hide Enter;
  }

  lemma NoWaiters(s: State)
    requires Inv(s)
    ensures s.holder.None? ==> s.waiters == []
    ensures s.states.Keys <= s.history.Keys
    ensures s.holder.Some? ==> s.holder.value in s.history && JobOk(s, s.holder.value)
  {
    hide JobOk;
  }

  /** The permit is free: a new job takes it. */
  lemma NewcomerRuns(run: seq<State>, actions: seq<Action>, a: JobId, b: JobId)
    returns (run': seq<State>, actions': seq<Action>)
    requires Run(run, actions) && Inv(Final(run)) && IsRunning(Final(run), a) && a != b
    requires Final(run).holder.None? && b !in Final(run).history
    ensures Run(run', actions') && run <= run' && |actions'| == |actions| + 2
    ensures IsRunning(Final(run'), a) && IsRunning(Final(run'), b)
  {
    hide *;
    NoWaiters(Final(run));
    var pruned := CanSubmit(Final(run), b, 0);
    SubmitLeaves(Final(run), b, pruned, a);
    var r, c := OneMore(run, actions, Submit(b, 0, pruned));
    BeginRuns(Final(r), b, a);
    run', actions' := OneMore(r, c, Begin(b, 1, true));
  }

  /** The holder of the permit is RUNNING, or about to be. */
  lemma HolderState(s: State, h: JobId)
    requires h in s.history && JobOk(s, h) && s.holder == Some(h)
    ensures h in s.states && h in s.tasks && (IsRunning(s, h) || s.tasks[h] == Granted)
  {
  }

  lemma ResumeRuns(s: State, h: JobId, a: JobId)
    requires h in s.states && h in s.history && h in s.tasks && s.tasks[h] == Granted && IsRunning(s, a) && a != h
    ensures Enabled(s, Resume(h, 0, true))
    ensures IsRunning(Apply(s, Resume(h, 0, true)), a) && IsRunning(Apply(s, Resume(h, 0, true)), h)
  {
    EnterRuns(s, h, 0);
    hide Enter;
  }

  /** The permit is taken: one step of its holder is enough. */
  lemma HolderRuns(run: seq<State>, actions: seq<Action>, a: JobId, h: JobId)
    returns (run': seq<State>, actions': seq<Action>)
    requires Run(run, actions) && Inv(Final(run)) && IsRunning(Final(run), a)
    requires Final(run).holder == Some(h) && a != h
    ensures Run(run', actions') && run <= run' && |actions| <= |actions'| <= |actions| + 1
    ensures IsRunning(Final(run'), a) && IsRunning(Final(run'), h)
  {
    hide *;
    NoWaiters(Final(run));
    HolderState(Final(run), h);
    if IsRunning(Final(run), h) {
      run', actions' := run, actions;
    } else {
      ResumeRuns(Final(run), h, a);
      run', actions' := OneMore(run, actions, Resume(h, 0, true));
    }
  }

  lemma FinalIs(run: seq<State>, actions: seq<Action>)
    requires Run(run, actions)
    ensures Final(run) == run[|actions|] && Inv(Final(run))
  {
    RunStart(run, actions);
    RunKeeps(run, actions, |actions|);
    hide Run, Inv;
  }

  lemma CancelledHoldsNothing(run: seq<State>, actions: seq<Action>, a: JobId)
    requires Run(run, actions) && IsRunning(Final(run), a) && a in Final(run).cancelled
    ensures Inv(Final(run)) && Final(run).holder != Some(a) && a in Final(run).states
  {
    FinalIs(run, actions);
    RunStart(run, actions);
    RunningHoldsPermit(run, actions, |actions|, a);
    hide Run, Inv;
  }

  /**
   * Cancellation is not only necessary: from every reachable state with a cancelled RUNNING job, at most
   * two more steps lead to a state in which that job and another one are RUNNING.
   */
  lemma CancellationOverlaps(run: seq<State>, actions: seq<Action>, a: JobId, unused: JobId)
    returns (run': seq<State>, actions': seq<Action>, b: JobId)
    requires Run(run, actions) && IsRunning(Final(run), a) && a in Final(run).cancelled && unused !in Final(run).history
    ensures Run(run', actions') && run <= run' && |actions'| <= |actions| + 2
    ensures a != b && IsRunning(Final(run'), a) && IsRunning(Final(run'), b)
  {
    hide *;
    CancelledHoldsNothing(run, actions, a);
    NoWaiters(Final(run));
    if Final(run).holder.None? {
      b := unused;
      run', actions' := NewcomerRuns(run, actions, a, b);
    } else {
      b := Final(run).holder.value;
      run', actions' := HolderRuns(run, actions, a, b);
    }
  }

  /** Such states exist: the subprocess of a cancelled job is being stopped. */
  lemma CancelledRunning(a: JobId) returns (run: seq<State>, actions: seq<Action>)
    ensures Run(run, actions) && IsRunning(Final(run), a) && a in Final(run).cancelled
  {
    run, actions := [Init()], [];
    RunKeeps(run, actions, 0);
    var pruned := CanSubmit(Init(), a, 0);
    run, actions := OneMore(run, actions, Submit(a, 0, pruned));
    run, actions := OneMore(run, actions, Begin(a, 1, true));
    run, actions := OneMore(run, actions, Launched(a, 2, true));
    run, actions := OneMore(run, actions, Cancel(a, 3));
  }
}
