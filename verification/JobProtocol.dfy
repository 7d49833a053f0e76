/** Worker threads, the event loop and SSE streams around one job registry, step by step. */
module JobProtocol {
  import opened Sequences
  import opened JobRegistry

  // ---- state ---------------------------------------------------------------------------

  /** Where the worker of a job is. `Missed` stands for an update that found no entry for its own job. */
  datatype Worker =
    | Queued              // submitted to the executor
    | NotifyRunning       // RUNNING stored, wakeup not yet scheduled
    | Working             // running the backtest
    | Handling            // an exception is caught, FAILED not yet stored
    | NotifySucceeded     // SUCCEEDED stored, wakeup not yet scheduled
    | NotifyFailed        // FAILED stored by the handler, wakeup not yet scheduled
    | Escaped             // an exception got past the job function
    | NotifyLate          // FAILED stored by the done callback, wakeup not yet scheduled
    | Done
    | Missed

  /** A snapshot is stored and its wakeup is about to be scheduled. */
  predicate Notifying(w: Worker) { w in {NotifyRunning, NotifySucceeded, NotifyFailed, NotifyLate} }

  datatype Reason = TerminalSent | Forgotten | Disconnected

  /** Where a stream is. `Start`, `Sent`, `Blocked`, `Woken`, `Keepalive` are suspension points. */
  datatype Pc =
    | Start
    | Top                 // about to read the registry
    | Sent                // suspended in `yield` after a status event
    | Enter               // calling wait_for_change
    | Clear               // about to clear the event
    | Read                // about to read the registry again
    | Await               // about to wait on the event
    | Blocked             // its future is pending
    | Woken               // its future is resolved, the task is scheduled
    | Keepalive           // timed out, suspended in `yield`
    | Ended(reason: Reason)

  datatype Stream = Stream(job: JobId, known: int, sent: seq<JobState>, pc: Pc)

  /**
    `flags` are the asyncio events, `queue` the `event.set` callbacks scheduled on the loop,
    `owner` the stream whose uninterrupted segment the loop is running, `history` every snapshot
    each job ever had, `raised` the jobs whose latest wakeup raised instead of being scheduled. Job ids
    are random and never reused, so an event is named by its job.
   */
  datatype State = State(
    states: map<JobId, JobState>,
    events: set<JobId>,
    flags: map<JobId, bool>,
    queue: seq<JobId>,
    workers: map<JobId, Worker>,
    streams: map<nat, Stream>,
    owner: Option<nat>,
    raised: set<JobId>,
    history: map<JobId, seq<JobState>>)

  datatype Action =
    | Register(id: JobId, now: int, pruned: map<JobId, JobState>)
    | StoreRunning(id: JobId, now: int)
    | StoreSucceeded(id: JobId, now: int)
    | Raise(id: JobId)
    | StoreFailed(id: JobId, now: int)
    | Schedule(id: JobId)
    | ScheduleRaises(id: JobId)
    | Escape(id: JobId)
    | JobDone(id: JobId, now: int)
    | CancelQueued(id: JobId)
    | RunCallback
    | Connect(k: nat, id: JobId)
    | Resume(k: nat)
    | Segment(k: nat)
    | Timeout(k: nat)
    | Disconnect(k: nat)

  function Init(): State { State(map[], {}, map[], [], map[], map[], None, {}, map[]) }

  predicate Running(pc: Pc) { pc in {Top, Enter, Clear, Read, Await} }

  predicate Suspended(pc: Pc) { pc in {Start, Sent, Blocked, Woken, Keepalive} }

  // ---- steps ---------------------------------------------------------------------------

  ghost predicate Enabled(s: State, a: Action) {
    match a
    case Register(id, now, pruned) => s.owner.None? && id !in s.history && Pruned(s.states, pruned)
    case StoreRunning(id, now) => id in s.workers && s.workers[id] == Queued
    case StoreSucceeded(id, now) => id in s.workers && s.workers[id] == Working
    case Raise(id) => id in s.workers && s.workers[id] == Working
    case StoreFailed(id, now) => id in s.workers && s.workers[id] == Handling
    case Schedule(id) => id in s.workers && Notifying(s.workers[id])
    case ScheduleRaises(id) => id in s.workers && Notifying(s.workers[id])
    case Escape(id) => id in s.workers && s.workers[id] in {Working, Handling}
    case JobDone(id, now) => s.owner.None? && id in s.workers && s.workers[id] == Escaped
    case CancelQueued(id) => id in s.workers && s.workers[id] == Queued
    case RunCallback => s.owner.None? && s.queue != []
    case Connect(k, id) => s.owner.None? && k !in s.streams && id in s.states
    case Resume(k) => s.owner.None? && k in s.streams && s.streams[k].pc in {Start, Sent, Woken, Keepalive}
    case Segment(k) => s.owner == Some(k) && k in s.streams && Running(s.streams[k].pc)
    case Timeout(k) => s.owner.None? && k in s.streams && s.streams[k].pc in {Blocked, Woken}
    case Disconnect(k) => s.owner.None? && k in s.streams && Suspended(s.streams[k].pc)
  }

  /** The locked part of `update`: a KeyError when the job has no entry, else the next snapshot. */
  ghost function Store(s: State, id: JobId, status: Status, now: int, next: Worker): State {
    if id !in s.states || id !in s.history then s.(workers := s.workers[id := Missed]) else
      var state := Updated(s.states[id], status, now);
      s.(states := s.states[id := state], history := s.history[id := s.history[id] + [state]],
         workers := s.workers[id := next])
  }

  ghost function SetStream(s: State, k: nat, stream: Stream, owner: Option<nat>): State {
    s.(streams := s.streams[k := stream], owner := owner)
  }

  /** One loop-side action of the stream that owns the loop. */
  ghost function SegmentStep(s: State, k: nat): State
    requires k in s.streams && Running(s.streams[k].pc)
  {
    var m := s.streams[k];
    match m.pc
    case Top =>
      if m.job !in s.states then SetStream(s, k, m.(pc := Ended(Forgotten)), None)
      else
        var state := s.states[m.job];
        if state.revision != m.known then
          SetStream(s, k, m.(pc := Sent, known := state.revision, sent := m.sent + [state]), None)
        else SetStream(s, k, m.(pc := Enter), Some(k))
    case Enter => SetStream(s, k, m.(pc := if m.job in s.events then Clear else Top), Some(k))
    case Clear => SetStream(s, k, m.(pc := Read), Some(k)).(flags := s.flags[m.job := false])
    case Read =>
      if m.job !in s.states || s.states[m.job].revision > m.known
      then SetStream(s, k, m.(pc := Top), Some(k))
      else SetStream(s, k, m.(pc := Await), Some(k))
    case Await =>
      if m.job in s.flags && s.flags[m.job] then SetStream(s, k, m.(pc := Clear), Some(k))
      else SetStream(s, k, m.(pc := Blocked), None)
  }

  /** `event.set`: the flag goes up and every pending future of the event is resolved. */
  function Wake(streams: map<nat, Stream>, job: JobId): map<nat, Stream> {
    map k | k in streams ::
      if streams[k].job == job && streams[k].pc == Blocked then streams[k].(pc := Woken) else streams[k]
  }

  ghost function ResumeStep(s: State, k: nat): State
    requires k in s.streams
  {
    var m := s.streams[k];
    match m.pc
    case Sent =>
      if m.sent != [] && Terminal(m.sent[|m.sent| - 1].status)
      then SetStream(s, k, m.(pc := Ended(TerminalSent)), None)
      else SetStream(s, k, m.(pc := Enter), Some(k))
    case Woken => SetStream(s, k, m.(pc := Clear), Some(k))
    case _ => SetStream(s, k, m.(pc := Top), Some(k))
  }

  /** Where a worker goes once its wakeup is scheduled. */
  function Notified(w: Worker): Worker { if w == NotifyRunning then Working else Done }

  /** Where it goes when scheduling raises: into the handler, out of it, or nowhere in the done callback. */
  function Unnotified(w: Worker): Worker {
    if w == NotifyLate then Done else if w == NotifyFailed then Escaped else Handling
  }

  ghost function Apply(s: State, a: Action): State
    requires Enabled(s, a)
  {
    match a
    case Register(id, now, pruned) =>
      var state := Registered(id, now);
      s.(states := pruned[id := state], events := s.events - (s.states.Keys - pruned.Keys) + {id},
         flags := s.flags[id := false], workers := s.workers[id := Queued],
         history := s.history[id := [state]])
    case StoreRunning(id, now) => Store(s, id, RUNNING, now, NotifyRunning)
    case StoreSucceeded(id, now) => Store(s, id, SUCCEEDED, now, NotifySucceeded)
    case Raise(id) => s.(workers := s.workers[id := Handling])
    case StoreFailed(id, now) => Store(s, id, FAILED, now, NotifyFailed)
    case Schedule(id) =>
      s.(queue := s.queue + [id], raised := s.raised - {id}, workers := s.workers[id := Notified(s.workers[id])])
    case ScheduleRaises(id) =>
      s.(raised := s.raised + {id}, workers := s.workers[id := Unnotified(s.workers[id])])
    case Escape(id) => s.(workers := s.workers[id := Escaped])
    case JobDone(id, now) =>
      if id !in s.states || Terminal(s.states[id].status) then s.(workers := s.workers[id := Done])
      else Store(s, id, FAILED, now, NotifyLate)
    case CancelQueued(id) => s.(workers := s.workers[id := Done])
    case RunCallback =>
      s.(queue := s.queue[1..], flags := s.flags[s.queue[0] := true],
         streams := Wake(s.streams, s.queue[0]))
    case Connect(k, id) => s.(streams := s.streams[k := Stream(id, -1, [], Start)])
    case Resume(k) => ResumeStep(s, k)
    case Segment(k) => SegmentStep(s, k)
    case Timeout(k) => SetStream(s, k, s.streams[k].(pc := Keepalive), None)
    case Disconnect(k) => SetStream(s, k, s.streams[k].(pc := Ended(Disconnected)), None)
  }

  // ---- what a step leaves alone --------------------------------------------------------

  /** Nothing but streams, flags and the owner of the loop differs. */
  ghost predicate SameJobs(s: State, t: State) {
    && t.states == s.states && t.events == s.events && t.queue == s.queue
    && t.workers == s.workers && t.raised == s.raised && t.history == s.history
  }

  lemma SegmentFrame(s: State, k: nat)
    requires k in s.streams && Running(s.streams[k].pc)
    ensures SameJobs(s, SegmentStep(s, k))
  {
  }

  lemma ResumeFrame(s: State, k: nat)
    requires k in s.streams
    ensures SameJobs(s, ResumeStep(s, k))
  {
  }

  predicate LoopAction(a: Action) {
    a.RunCallback? || a.Connect? || a.Resume? || a.Segment? || a.Timeout? || a.Disconnect?
  }

  /** Streams and callbacks leave entries, workers and histories alone. */
  lemma LoopFrame(s: State, a: Action)
    requires Enabled(s, a) && LoopAction(a)
    ensures var t := Apply(s, a);
            && t.states == s.states && t.events == s.events && t.workers == s.workers
            && t.raised == s.raised && t.history == s.history
  {
    hide SegmentStep, ResumeStep, Wake, Running;
    match a
    case Segment(k) => SegmentRun(s, k); SegmentFrame(s, k);
    case Resume(k) => ResumeFrame(s, k);
    case _ =>
  }

  lemma SegmentRun(s: State, k: nat)
    requires Enabled(s, Segment(k))
    ensures k in s.streams && Running(s.streams[k].pc)
  {
  }

  /** Seen from job `j`: its worker and history are as they were, its entry is the same or gone. */
  ghost predicate SameJob(s: State, t: State, j: JobId) {
    && (j in t.workers <==> j in s.workers) && (j in s.workers ==> t.workers[j] == s.workers[j])
    && (j in t.history <==> j in s.history) && (j in s.history ==> t.history[j] == s.history[j])
    && (j in t.raised <==> j in s.raised)
    && (j in t.states ==> j in s.states && t.states[j] == s.states[j])
  }

  lemma StoreFrame(s: State, id: JobId, status: Status, now: int, next: Worker, j: JobId)
    ensures var t := Store(s, id, status, now, next);
            && t.streams == s.streams && t.owner == s.owner && t.queue == s.queue && t.flags == s.flags
            && t.raised == s.raised && t.events == s.events
            && t.states.Keys == s.states.Keys && t.history.Keys == s.history.Keys
            && t.workers.Keys == s.workers.Keys + {id}
            && (j != id ==> SameJob(s, t, j))
            && (j in s.history ==> s.history[j] <= t.history[j])
  {
    hide Updated, SameJob;
    if j != id { StoreElsewhere(s, id, status, now, next, j); }
  }

  lemma StoreElsewhere(s: State, id: JobId, status: Status, now: int, next: Worker, j: JobId)
    requires j != id
    ensures SameJob(s, Store(s, id, status, now, next), j)
  {
    hide Updated;
  }

  lemma RegisterFrame(s: State, a: Action, j: JobId)
    requires a.Register? && Enabled(s, a) && j != a.id
    ensures SameJob(s, Apply(s, a), j)
    ensures j in s.states && j !in Apply(s, a).states ==> j in Finished(s.states)
  {
    PrunedAt(s.states, a.pruned, j);
    hide Pruned, Finished;
  }

  lemma PrunedAt(before: map<JobId, JobState>, after: map<JobId, JobState>, j: JobId)
    requires Pruned(before, after)
    ensures after.Keys <= before.Keys
    ensures j in after ==> j in before && after[j] == before[j]
    ensures j in before && j !in after ==> j in Finished(before)
  {
    hide Finished, KeyLeq;
    if j in before && j !in after { assert j in before.Keys - after.Keys; }
  }

  /** A worker's step concerns its own job, and a registration removes other entries at most. */
  lemma WorkerFrame(s: State, a: Action, j: JobId)
    requires Enabled(s, a) && !LoopAction(a) && j != a.id
    ensures SameJob(s, Apply(s, a), j)
  {
    hide Pruned, Store, Terminal;
    match a
    case Register(_, _, _) => RegisterFrame(s, a, j);
    case StoreRunning(id, now) => StoreFrame(s, id, RUNNING, now, NotifyRunning, j);
    case StoreSucceeded(id, now) => StoreFrame(s, id, SUCCEEDED, now, NotifySucceeded, j);
    case StoreFailed(id, now) => StoreFrame(s, id, FAILED, now, NotifyFailed, j);
    case JobDone(id, now) => StoreFrame(s, id, FAILED, now, NotifyLate, j);
    case _ =>
  }

  /** The job's own history grows, and its entry stays or stays gone. */
  lemma OwnFrame(s: State, a: Action)
    requires Enabled(s, a) && !LoopAction(a) && !a.Register?
    ensures var t, j := Apply(s, a), a.id;
            && (j in s.history ==> j in t.history && s.history[j] <= t.history[j])
            && (j in s.states <==> j in t.states)
  {
    hide Store, Terminal, Pruned;
    match a
    case StoreRunning(id, now) => StoreFrame(s, id, RUNNING, now, NotifyRunning, id);
    case StoreSucceeded(id, now) => StoreFrame(s, id, SUCCEEDED, now, NotifySucceeded, id);
    case StoreFailed(id, now) => StoreFrame(s, id, FAILED, now, NotifyFailed, id);
    case JobDone(id, now) => StoreFrame(s, id, FAILED, now, NotifyLate, id);
    case _ =>
  }

  lemma StreamsFrame(s: State, a: Action)
    requires Enabled(s, a) && !LoopAction(a)
    ensures Apply(s, a).streams == s.streams
  {
    hide Terminal, Pruned, Store;
    match a
    case StoreRunning(id, now) => StoreFrame(s, id, RUNNING, now, NotifyRunning, id);
    case StoreSucceeded(id, now) => StoreFrame(s, id, SUCCEEDED, now, NotifySucceeded, id);
    case StoreFailed(id, now) => StoreFrame(s, id, FAILED, now, NotifyFailed, id);
    case JobDone(id, now) => StoreFrame(s, id, FAILED, now, NotifyLate, id);
    case _ =>
  }

  // ---- invariant -----------------------------------------------------------------------

  /** QUEUED, then RUNNING, then SUCCEEDED or FAILED; a FAILED may still follow a SUCCEEDED. */
  ghost predicate Lifecycle(h: seq<JobState>) {
    && 1 <= |h| <= 4
    && h[0].status == QUEUED
    && (|h| >= 2 ==> h[1].status == RUNNING)
    && (|h| >= 3 ==> h[2].status in {SUCCEEDED, FAILED})
    && (|h| == 4 ==> h[2].status == SUCCEEDED && h[3].status == FAILED)
    && (forall i :: 0 <= i < |h| ==> h[i].revision == i)
  }

  /** The newest snapshot is a success, or a failure. */
  ghost predicate Successful(h: seq<JobState>) { |h| == 3 && h[2].status == SUCCEEDED }

  ghost predicate Unsuccessful(h: seq<JobState>) { |h| == 4 || (|h| == 3 && h[2].status == FAILED) }

  function Last(h: seq<JobState>): JobState
    requires h != []
  {
    h[|h| - 1]
  }

  ghost predicate WorkerFits(w: Worker, h: seq<JobState>) {
    match w
    case Queued => |h| == 1
    case NotifyRunning => |h| == 2
    case Working => |h| == 2
    case Handling => |h| == 2 || Successful(h)
    case NotifySucceeded => Successful(h)
    case NotifyFailed => Unsuccessful(h)
    case Escaped => |h| == 2 || Successful(h) || Unsuccessful(h)
    case NotifyLate => |h| == 3 && Unsuccessful(h)
    case Done => |h| == 1 || Successful(h) || Unsuccessful(h)
    case Missed => Successful(h)
  }

  ghost predicate JobOk(s: State, j: JobId)
    requires j in s.history
  {
    var h := s.history[j];
    && Lifecycle(h)
    && j in s.workers && WorkerFits(s.workers[j], h)
    && (j in s.states ==> s.states[j] == Last(h) && s.states[j].jobId == j)
    && (j !in s.states ==> |h| >= 3)
    && (s.workers[j] == Missed ==> j !in s.states)
  }

  /** A wakeup for the job is on its way: scheduled, or stored and about to be scheduled. */
  ghost predicate Pending(s: State, j: JobId) {
    j in s.queue || (j in s.workers && Notifying(s.workers[j]))
  }

  /** Nothing is owed to the waiters of a job but what is on its way, unless its latest wakeup raised. */
  ghost predicate Served(s: State, j: JobId) { Pending(s, j) || j in s.raised }

  /** Strictly increasing revisions, each a snapshot the job really had. */
  ghost predicate Faithful(sent: seq<JobState>, h: seq<JobState>) {
    && (forall i :: 0 <= i < |sent| ==> sent[i].revision < |h| && sent[i] == h[sent[i].revision])
    && (forall i, j :: 0 <= i < j < |sent| ==> sent[i].revision < sent[j].revision)
  }

  /** What a stream's own record says about the job's history. */
  ghost predicate StreamLog(m: Stream, h: seq<JobState>) {
    && Faithful(m.sent, h)
    && m.known == (if m.sent == [] then -1 else Last(m.sent).revision)
    && (m.pc in {Enter, Clear, Read, Await, Blocked, Woken, Keepalive, Sent} ==> m.sent != [])
    && (m.pc !in {Sent, Ended(TerminalSent), Ended(Disconnected)} && m.sent != [] ==>
          !Terminal(Last(m.sent).status))
    && (m.pc == Ended(TerminalSent) ==> m.sent != [] && Terminal(Last(m.sent).status))
    && (forall i :: 0 <= i < |m.sent| - 1 ==> !Terminal(m.sent[i].status))
  }

  /** A stream that waits or is about to wait, behind the registry, has a wakeup coming or one that raised. */
  ghost predicate NoLostWakeup(s: State, m: Stream)
    requires m.job in s.history
  {
    m.pc in {Await, Blocked} && m.known < |s.history[m.job]| - 1 ==> Served(s, m.job)
  }

  ghost predicate StreamOk(s: State, k: nat)
    requires k in s.streams
  {
    var m := s.streams[k];
    && m.job in s.history
    && StreamLog(m, s.history[m.job])
    && NoLostWakeup(s, m)
    && (m.pc == Ended(Forgotten) ==> m.job !in s.states)
    && (Running(m.pc) <==> s.owner == Some(k))
  }

  ghost predicate Inv(s: State) {
    && s.states.Keys == s.events
    && s.states.Keys <= s.history.Keys
    && s.workers.Keys == s.history.Keys
    && (forall j :: j in s.history ==> JobOk(s, j))
    && (forall k :: k in s.streams ==> StreamOk(s, k))
    && (s.owner.Some? ==> s.owner.value in s.streams)
  }

  // ---- preservation: what a step does not touch -----------------------------------------

  /** A longer history still contains what a stream sent. */
  lemma LogGrows(m: Stream, h: seq<JobState>, h': seq<JobState>)
    requires StreamLog(m, h) && h <= h'
    ensures StreamLog(m, h')
  {
  }

  lemma StreamFrame(s: State, t: State, k: nat)
    requires k in s.streams && k in t.streams && StreamOk(s, k) && t.streams[k] == s.streams[k]
    requires var j := s.streams[k].job;
             && j in t.history && s.history[j] <= t.history[j]
             && (Served(s, j) || s.history[j] != t.history[j] ==> Served(t, j))
             && (j !in s.states ==> j !in t.states)
    requires s.owner == Some(k) <==> t.owner == Some(k)
    ensures StreamOk(t, k)
  {
    hide StreamLog, Served;
    var m := s.streams[k];
    LogGrows(m, s.history[m.job], t.history[m.job]);
  }

  lemma JobFrame(s: State, t: State, j: JobId)
    requires j in s.history && j in t.history && JobOk(s, j)
    requires t.history[j] == s.history[j]
    requires j in t.workers && (t.workers[j] == s.workers[j] || WorkerFits(t.workers[j], s.history[j]))
    requires j in t.states ==> j in s.states && t.states[j] == s.states[j]
    requires j in s.states && j !in t.states ==> Terminal(s.states[j].status)
    requires t.workers[j] == Missed ==> j !in t.states
    ensures JobOk(t, j)
  {
  }

  // ---- preservation: one lemma for each kind of step ------------------------------------

  /** The next snapshot a worker may store, and where it then is. */
  ghost predicate NextStore(w: Worker, h: seq<JobState>, status: Status, next: Worker) {
    || (w == Queued && |h| == 1 && status == RUNNING && next == NotifyRunning)
    || (w == Working && |h| == 2 && status == SUCCEEDED && next == NotifySucceeded)
    || (w == Handling && (|h| == 2 || Successful(h)) && status == FAILED && next == NotifyFailed)
    || (w == Escaped && |h| == 2 && status == FAILED && next == NotifyLate)
  }

  lemma StoreJobs(s: State, id: JobId, status: Status, now: int, next: Worker, j: JobId)
    requires Inv(s) && id in s.history && NextStore(s.workers[id], s.history[id], status, next)
    requires j in Store(s, id, status, now, next).history
    ensures JobOk(Store(s, id, status, now, next), j)
  {
    hide StreamOk, JobOk, NextStore, Store;
    StoreFrame(s, id, status, now, next, j);
    if j == id {
      StoredJobOk(s, id, status, now, next);
    } else {
      OtherMissed(s, j);
      JobFrame(s, Store(s, id, status, now, next), j);
    }
  }

  /** Either the entry is there and the worker moves on, or the worker misses and nothing is stored. */
  lemma StoreMoves(s: State, id: JobId, status: Status, now: int, next: Worker)
    requires id in s.history
    ensures var t := Store(s, id, status, now, next);
            && id in t.workers
            && if id in s.states then t.workers[id] == next else t.workers[id] == Missed && t.history == s.history
  {
    hide Updated;
  }

  lemma StoreStreams(s: State, id: JobId, status: Status, now: int, next: Worker, k: nat)
    requires Inv(s) && id in s.history && NextStore(s.workers[id], s.history[id], status, next)
    requires k in s.streams
    ensures k in Store(s, id, status, now, next).streams && StreamOk(Store(s, id, status, now, next), k)
  {
    hide StreamOk, JobOk, NextStore, Store, Notifying;
    var t := Store(s, id, status, now, next);
    StoreNotifies(s.workers[id], s.history[id], status, next);
    StoreMoves(s, id, status, now, next);
    var j := s.streams[k].job;
    StreamJob(s, k);
    StoreFrame(s, id, status, now, next, j);
    StreamFrame(s, t, k);
  }

  lemma StoreKeeps(s: State, id: JobId, status: Status, now: int, next: Worker)
    requires Inv(s) && id in s.history && NextStore(s.workers[id], s.history[id], status, next)
    ensures Inv(Store(s, id, status, now, next))
  {
    hide StreamOk, JobOk, NextStore, Store, SameJob;
    StoreFrame(s, id, status, now, next, id);
    forall j | j in Store(s, id, status, now, next).history ensures JobOk(Store(s, id, status, now, next), j) {
      StoreJobs(s, id, status, now, next, j);
    }
    forall k | k in s.streams
      ensures k in Store(s, id, status, now, next).streams && StreamOk(Store(s, id, status, now, next), k)
    {
      StoreStreams(s, id, status, now, next, k);
    }
  }

  lemma StoreNotifies(w: Worker, h: seq<JobState>, status: Status, next: Worker)
    requires NextStore(w, h, status, next)
    ensures Notifying(next) && !Notifying(w)
  {
  }

  lemma OtherMissed(s: State, j: JobId)
    requires j in s.history && JobOk(s, j)
    ensures j in s.workers && (s.workers[j] == Missed ==> j !in s.states)
  {
  }

  lemma StreamJob(s: State, k: nat)
    requires k in s.streams && StreamOk(s, k)
    ensures s.streams[k].job in s.history
  {
  }

  lemma StoredJobOk(s: State, id: JobId, status: Status, now: int, next: Worker)
    requires id in s.history && JobOk(s, id) && NextStore(s.workers[id], s.history[id], status, next)
    ensures JobOk(Store(s, id, status, now, next), id)
  {
  }

  lemma RegisterKeeps(s: State, a: Action)
    requires Inv(s) && a.Register? && Enabled(s, a)
    ensures Inv(Apply(s, a))
  {
    hide StreamOk, JobOk;
    var t := Apply(s, a);
    forall j | j in t.history ensures JobOk(t, j) {
      if j == a.id {
        FreshJobOk(t, j, a.now);
      } else {
        if j in s.states && j !in t.states {
          assert j in s.states.Keys - a.pruned.Keys;
        }
        OtherMissed(s, j);
        JobFrame(s, t, j);
      }
    }
    forall k | k in t.streams ensures StreamOk(t, k) {
      StreamJob(s, k);
      StreamFrame(s, t, k);
    }
  }

  lemma FreshJobOk(t: State, id: JobId, now: int)
    requires id in t.history && t.history[id] == [Registered(id, now)]
    requires id in t.states && t.states[id] == Registered(id, now)
    requires id in t.workers && t.workers[id] == Queued
    ensures JobOk(t, id)
  {
  }

  lemma WorkerAt(s: State, id: JobId)
    requires id in s.history && JobOk(s, id)
    ensures id in s.workers && WorkerFits(s.workers[id], s.history[id])
    ensures |s.history[id]| < 3 ==> id in s.states && !Terminal(s.states[id].status)
    ensures |s.history[id]| >= 3 && id in s.states ==> Terminal(s.states[id].status)
    ensures s.workers[id] == Missed ==> id !in s.states
  {
  }

  /** A worker moves on without touching the registry. */
  lemma WorkerKeeps(s: State, id: JobId, next: Worker, queue: seq<JobId>, raised: set<JobId>)
    requires Inv(s) && id in s.history && WorkerFits(next, s.history[id]) && next != Missed
    requires forall j :: j in s.queue ==> j in queue
    requires s.raised - {id} <= raised
    requires Notifying(s.workers[id]) || id in s.raised ==> id in queue || id in raised
    ensures Inv(s.(workers := s.workers[id := next], queue := queue, raised := raised))
  {
    hide StreamOk, JobOk, Notifying, WorkerFits;
    var t := s.(workers := s.workers[id := next], queue := queue, raised := raised);
    forall j | j in t.history ensures JobOk(t, j) {
      WorkerAt(s, j);
      JobFrame(s, t, j);
    }
    forall k | k in t.streams ensures StreamOk(t, k) {
      StreamJob(s, k);
      StreamFrame(s, t, k);
    }
  }

  lemma CallbackKeeps(s: State)
    requires Inv(s) && Enabled(s, RunCallback)
    ensures Inv(Apply(s, RunCallback))
  {
    hide StreamOk, JobOk;
    var t := Apply(s, RunCallback);
    forall j | j in t.history ensures JobOk(t, j) {
      WorkerAt(s, j);
      JobFrame(s, t, j);
    }
    assert forall j :: j in s.queue && j != s.queue[0] ==> j in s.queue[1..];
    forall k | k in t.streams ensures StreamOk(t, k) {
      StreamJob(s, k);
      if s.streams[k].job == s.queue[0] { WokenStreamOk(s, k); } else { StreamFrame(s, t, k); }
    }
  }

  lemma WokenStreamOk(s: State, k: nat)
    requires Enabled(s, RunCallback)
    requires k in s.streams && StreamOk(s, k) && s.streams[k].job == s.queue[0]
    ensures k in Apply(s, RunCallback).streams && StreamOk(Apply(s, RunCallback), k)
  {
  }

  /** A change of one stream's record keeps the invariant when the record itself is in order. */
  lemma OneStreamKeeps(s: State, t: State, k: nat)
    requires Inv(s) && t == s.(streams := t.streams, owner := t.owner, flags := t.flags)
    requires k in t.streams && t.streams == s.streams[k := t.streams[k]]
    requires s.owner.None? || s.owner == Some(k)
    requires t.owner.None? || t.owner == Some(k)
    requires StreamOk(t, k)
    ensures Inv(t)
  {
    hide StreamOk, JobOk;
    forall j | j in t.history ensures JobOk(t, j) {
      WorkerAt(s, j);
      JobFrame(s, t, j);
    }
    forall i | i in t.streams ensures StreamOk(t, i) {
      if i != k {
        StreamJob(s, i);
        StreamFrame(s, t, i);
      }
    }
  }

  lemma SegmentStreamOk(s: State, k: nat)
    requires k in s.streams && StreamOk(s, k) && s.owner == Some(k) && Running(s.streams[k].pc)
    requires s.streams[k].job in s.history && JobOk(s, s.streams[k].job)
    ensures StreamOk(SegmentStep(s, k), k)
  {
    hide Lifecycle, WorkerFits, Faithful;
    var m := s.streams[k];
    if m.pc == Top && m.job in s.states && s.states[m.job].revision != m.known {
      SendLogged(m, s.history[m.job], s.states[m.job]);
    } else {
      CurrentRevision(s, m.job);
    }
  }

  lemma CurrentRevision(s: State, j: JobId)
    requires j in s.history && JobOk(s, j)
    ensures j in s.states ==> s.states[j].revision == |s.history[j]| - 1
  {
  }

  /** Sending the newest snapshot, when it is not the one already known, keeps the log faithful. */
  lemma SendLogged(m: Stream, h: seq<JobState>, state: JobState)
    requires m.pc == Top && StreamLog(m, h) && Lifecycle(h) && state == Last(h) && state.revision != m.known
    ensures StreamLog(m.(pc := Sent, known := state.revision, sent := m.sent + [state]), h)
  {
    if m.sent != [] {
      assert Last(m.sent).revision < |h| - 1;
      assert forall i :: 0 <= i < |m.sent| ==> m.sent[i].revision <= Last(m.sent).revision;
    }
  }

  lemma ResumeStreamOk(s: State, k: nat)
    requires k in s.streams && StreamOk(s, k) && s.owner.None?
    requires s.streams[k].pc in {Start, Sent, Woken, Keepalive}
    ensures StreamOk(ResumeStep(s, k), k)
  {
    hide Faithful, Pending;
  }

  lemma SegmentKeeps(s: State, k: nat)
    requires Inv(s) && s.owner == Some(k) && k in s.streams && Running(s.streams[k].pc)
    ensures Inv(SegmentStep(s, k))
  {
    hide StreamOk, JobOk;
    StreamJob(s, k);
    SegmentStreamOk(s, k);
    OneStreamKeeps(s, SegmentStep(s, k), k);
  }

  lemma ResumeKeeps(s: State, k: nat)
    requires Inv(s) && s.owner.None? && k in s.streams && s.streams[k].pc in {Start, Sent, Woken, Keepalive}
    ensures Inv(ResumeStep(s, k))
  {
    hide StreamOk, JobOk;
    ResumeStreamOk(s, k);
    OneStreamKeeps(s, ResumeStep(s, k), k);
  }

  lemma LeaveKeeps(s: State, k: nat, pc: Pc)
    requires Inv(s) && s.owner.None? && k in s.streams && Suspended(s.streams[k].pc)
    requires pc == Ended(Disconnected) || (pc == Keepalive && s.streams[k].pc in {Blocked, Woken})
    ensures Inv(SetStream(s, k, s.streams[k].(pc := pc), None))
  {
    hide JobOk, Faithful, Served;
    OneStreamKeeps(s, SetStream(s, k, s.streams[k].(pc := pc), None), k);
  }

  lemma ConnectKeeps(s: State, a: Action)
    requires Inv(s) && Enabled(s, a) && a.Connect?
    ensures Inv(Apply(s, a))
  {
    hide JobOk;
    OneStreamKeeps(s, Apply(s, a), a.k);
  }

  lemma WorkerStepKeeps(s: State, a: Action)
    requires Inv(s) && Enabled(s, a)
    requires !a.Register? && !LoopAction(a)
    ensures Inv(Apply(s, a))
  {
    hide StreamOk, JobOk, Store;
    WorkerAt(s, a.id);
    match a
    case StoreRunning(id, now) => StoreKeeps(s, id, RUNNING, now, NotifyRunning);
    case StoreSucceeded(id, now) => StoreKeeps(s, id, SUCCEEDED, now, NotifySucceeded);
    case StoreFailed(id, now) => StoreKeeps(s, id, FAILED, now, NotifyFailed);
    case JobDone(id, now) =>
      if |s.history[id]| >= 3 {
        WorkerKeeps(s, id, Done, s.queue, s.raised);
      } else {
        StoreKeeps(s, id, FAILED, now, NotifyLate);
      }
    case Schedule(id) => WorkerKeeps(s, id, Notified(s.workers[id]), s.queue + [id], s.raised - {id});
    case ScheduleRaises(id) => WorkerKeeps(s, id, Unnotified(s.workers[id]), s.queue, s.raised + {id});
    case Raise(id) => WorkerKeeps(s, id, Handling, s.queue, s.raised);
    case Escape(id) => WorkerKeeps(s, id, Escaped, s.queue, s.raised);
    case CancelQueued(id) => WorkerKeeps(s, id, Done, s.queue, s.raised);
  }

  /** Every step of every kind keeps the invariant. */
  lemma StepKeeps(s: State, a: Action)
    requires Inv(s) && Enabled(s, a)
    ensures Inv(Apply(s, a))
  {
    hide StreamOk, JobOk, Store, ResumeStep, SegmentStep;
    match a
    case Register(_, _, _) => RegisterKeeps(s, a);
    case RunCallback => CallbackKeeps(s);
    case Connect(_, _) => ConnectKeeps(s, a);
    case Resume(k) => ResumeKeeps(s, k);
    case Segment(k) => SegmentKeeps(s, k);
    case Timeout(k) => LeaveKeeps(s, k, Keepalive);
    case Disconnect(k) => LeaveKeeps(s, k, Ended(Disconnected));
    case _ => WorkerStepKeeps(s, a);
  }

  // ---- whole runs --------------------------------------------------------------------------

  /** A run from an empty registry: any interleaving of enabled steps, of any length. */
  ghost predicate Run(run: seq<State>, actions: seq<Action>) {
    && |run| == |actions| + 1
    && run[0] == Init()
    && forall i :: 0 <= i < |actions| ==>
         Enabled(run[i], actions[i]) && run[i + 1] == Apply(run[i], actions[i])
  }

  lemma RunStart(run: seq<State>, actions: seq<Action>)
    requires Run(run, actions)
    ensures |run| == |actions| + 1 && run[0] == Init()
  {
    hide Enabled, Apply;
  }

  lemma RunStep(run: seq<State>, actions: seq<Action>, i: nat)
    requires Run(run, actions) && 0 < i < |run|
    ensures i - 1 < |actions| && Enabled(run[i - 1], actions[i - 1]) && run[i] == Apply(run[i - 1], actions[i - 1])
  {
    hide Enabled, Apply;
    assert run[i - 1 + 1] == Apply(run[i - 1], actions[i - 1]);
  }

  lemma InitKeeps()
    ensures Inv(Init()) && Init().raised == {}
  {
  }

  lemma {:induction false} RunKeeps(run: seq<State>, actions: seq<Action>, i: nat)
    requires Run(run, actions) && i < |run|
    ensures Inv(run[i])
    decreases i
  {
    hide *;
    RunStart(run, actions);
    InitKeeps();
    if i > 0 {
      RunKeeps(run, actions, i - 1);
      RunStep(run, actions, i);
      StepKeeps(run[i - 1], actions[i - 1]);
    }
  }

  /**
   * No lost wakeup: a blocked stream whose job moved on, or was forgotten, has a wakeup coming, unless
   * the latest attempt to schedule one raised.
   */
  lemma WakeupNeverLost(run: seq<State>, actions: seq<Action>, i: nat, k: nat)
    requires Run(run, actions) && i < |run|
    requires k in run[i].streams && run[i].streams[k].pc == Blocked
    ensures var s, m := run[i], run[i].streams[k];
            m.job !in s.states || s.states[m.job].revision > m.known ==>
              Pending(s, m.job) || LatestRaised(actions[..i], m.job)
  {
    RunKeeps(run, actions, i);
    RaisedIsLatest(run, actions, i, run[i].streams[k].job);
    hide Run, Pending, LatestRaised;
    BlockedIsServed(run[i], k);
  }

  /** Of the attempts to schedule a wakeup of the job, the last one raised. */
  ghost predicate LatestRaised(actions: seq<Action>, j: JobId) {
    exists i :: 0 <= i < |actions| && actions[i] == ScheduleRaises(j)
             && forall l :: i < l < |actions| ==> actions[l] != Schedule(j)
  }

  lemma LatestRaisedMore(actions: seq<Action>, a: Action, j: JobId)
    ensures LatestRaised(actions + [a], j) <==>
              a == ScheduleRaises(j) || (a != Schedule(j) && LatestRaised(actions, j))
  {
    var all := actions + [a];
    if LatestRaised(all, j) && a != ScheduleRaises(j) {
      var i :| 0 <= i < |all| && all[i] == ScheduleRaises(j) && forall l :: i < l < |all| ==> all[l] != Schedule(j);
      assert all[|actions|] == a;
      assert actions[i] == all[i];
      assert forall l :: i < l < |actions| ==> actions[l] == all[l];
    }
    if a == ScheduleRaises(j) {
      assert all[|actions|] == ScheduleRaises(j);
    } else if a != Schedule(j) && LatestRaised(actions, j) {
      var i :| 0 <= i < |actions| && actions[i] == ScheduleRaises(j)
               && forall l :: i < l < |actions| ==> actions[l] != Schedule(j);
      assert all[i] == ScheduleRaises(j);
      assert forall l :: i < l < |all| ==> all[l] != Schedule(j);
    }
  }

  lemma {:induction false} RaisedIsLatest(run: seq<State>, actions: seq<Action>, i: nat, j: JobId)
    requires Run(run, actions) && i < |run|
    ensures i <= |actions|
    ensures j in run[i].raised <==> LatestRaised(actions[..i], j)
    decreases i
  {
    hide *;
    RunStart(run, actions);
    if i == 0 {
      InitKeeps();
      NoneRaised(j);
    } else {
      RaisedIsLatest(run, actions, i - 1, j);
      RunStep(run, actions, i);
      RaisedStep(run[i - 1], actions[i - 1], j);
      LatestRaisedMore(actions[..i - 1], actions[i - 1], j);
      assert actions[..i] == actions[..i - 1] + [actions[i - 1]];
    }
  }

  lemma NoneRaised(j: JobId)
    ensures !LatestRaised([], j)
  {
  }

  lemma RaisedStep(s: State, a: Action, j: JobId)
    requires Enabled(s, a)
    ensures j in Apply(s, a).raised <==> a == ScheduleRaises(j) || (a != Schedule(j) && j in s.raised)
  {
    if LoopAction(a) {
      LoopFrame(s, a);
      hide Apply;
    } else if j != a.id {
      WorkerFrame(s, a, j);
      hide Apply;
    }
  }

  /** What a blocked stream knows: a snapshot the job really had, and not a final one. */
  lemma BlockedKnows(s: State, k: nat)
    requires Inv(s) && k in s.streams && s.streams[k].pc == Blocked
    ensures var m := s.streams[k];
            && m.job in s.history && 0 <= m.known < |s.history[m.job]| && !Terminal(s.history[m.job][m.known].status)
            && NoLostWakeup(s, m)
            && (m.job in s.states ==>
                  s.states[m.job] == Last(s.history[m.job]) && s.states[m.job].revision == |s.history[m.job]| - 1)
            && (m.job !in s.states ==> Terminal(Last(s.history[m.job]).status))
  {
    assert StreamOk(s, k);
    assert JobOk(s, s.streams[k].job);
    hide Inv, Served, NoLostWakeup, WorkerFits;
    var m := s.streams[k];
    assert Last(m.sent) == s.history[m.job][m.known];
  }

  lemma BlockedIsServed(s: State, k: nat)
    requires Inv(s) && k in s.streams && s.streams[k].pc == Blocked
    ensures var m := s.streams[k];
            m.job !in s.states || s.states[m.job].revision > m.known ==> Served(s, m.job)
  {
    hide Served, Inv;
    BlockedKnows(s, k);
  }

  /** When nothing is scheduled or about to be, every blocked stream knows the current revision. */
  lemma QuiescentIsCurrent(s: State, k: nat)
    requires Inv(s) && k in s.streams && s.streams[k].pc == Blocked
    requires s.queue == [] && s.streams[k].job !in s.raised
    requires forall j :: j in s.workers ==> !Notifying(s.workers[j])
    ensures var m := s.streams[k];
            m.job in s.states && s.states[m.job].revision == m.known && !Terminal(s.states[m.job].status)
  {
    hide Inv, Notifying, Terminal;
    BlockedKnows(s, k);
  }

  /** Letting the loop run the scheduled callbacks delivers every wakeup. */
  ghost function Drain(s: State): State
    requires s.owner.None?
    decreases |s.queue|
  {
    if s.queue == [] then s else Drain(Apply(s, RunCallback))
  }

  lemma {:induction false} DrainDelivers(s: State, k: nat)
    requires Inv(s) && s.owner.None? && k in s.streams && s.streams[k].job !in s.raised
    requires forall j :: j in s.workers ==> !Notifying(s.workers[j])
    ensures var t := Drain(s);
            && Inv(t) && t.states == s.states && k in t.streams
            && (t.streams[k].pc == Blocked ==>
                  && t.streams[k].job in t.states
                  && t.states[t.streams[k].job].revision == t.streams[k].known)
    decreases |s.queue|
  {
    hide StreamOk, JobOk, Notifying;
    if s.queue == [] {
      if s.streams[k].pc == Blocked { QuiescentIsCurrent(s, k); }
    } else {
      CallbackKeeps(s);
      DrainDelivers(Apply(s, RunCallback), k);
    }
  }

  /** After its timeout a blocked stream is about to read the registry. */
  lemma KeepaliveResumes(s: State, k: nat)
    requires s.owner.None? && k in s.streams && s.streams[k].pc == Blocked
    ensures Enabled(s, Timeout(k)) && Enabled(Apply(s, Timeout(k)), Resume(k))
    ensures Apply(Apply(s, Timeout(k)), Resume(k)) == SetStream(s, k, s.streams[k].(pc := Top), Some(k))
  {
    var late := SetStream(s, k, s.streams[k].(pc := Keepalive), None);
    assert Apply(s, Timeout(k)) == late;
    assert Enabled(late, Resume(k));
    assert Apply(late, Resume(k)) == ResumeStep(late, k);
    hide Apply, Enabled;
    assert late.streams[k := s.streams[k].(pc := Top)] == s.streams[k := s.streams[k].(pc := Top)];
  }

  /** A raised wakeup costs at most one timeout: the stream then sends the current snapshot, or ends. */
  lemma KeepaliveRecovers(s: State, k: nat)
    requires s.owner.None? && k in s.streams && s.streams[k].pc == Blocked
    ensures Enabled(s, Timeout(k)) && Enabled(Apply(s, Timeout(k)), Resume(k))
    ensures var m, late := s.streams[k], Apply(Apply(s, Timeout(k)), Resume(k));
            && Enabled(late, Segment(k))
            && k in Apply(late, Segment(k)).streams
            && (m.job !in s.states ==> Apply(late, Segment(k)).streams[k].pc == Ended(Forgotten))
            && (m.job in s.states && s.states[m.job].revision != m.known ==>
                  && Apply(late, Segment(k)).streams[k].pc == Sent
                  && Apply(late, Segment(k)).streams[k].sent == m.sent + [s.states[m.job]])
  {
    hide SegmentStep;
    KeepaliveResumes(s, k);
    var late := SetStream(s, k, s.streams[k].(pc := Top), Some(k));
    assert Enabled(late, Segment(k)) && Apply(late, Segment(k)) == SegmentStep(late, k);
    hide Apply, Enabled;
    TopSends(late, k);
  }

  lemma TopSends(s: State, k: nat)
    requires k in s.streams && s.streams[k].pc == Top
    ensures var m, t := s.streams[k], SegmentStep(s, k);
            && k in t.streams
            && (m.job !in s.states ==> t.streams[k].pc == Ended(Forgotten))
            && (m.job in s.states && s.states[m.job].revision != m.known ==>
                  t.streams[k].pc == Sent && t.streams[k].sent == m.sent + [s.states[m.job]])
  {
  }

  /** Every stream of every run: what it sent, and why it ended. */
  lemma StreamContract(run: seq<State>, actions: seq<Action>, i: nat, k: nat)
    requires Run(run, actions) && i < |run| && k in run[i].streams
    ensures var s, m := run[i], run[i].streams[k];
            && m.job in s.history
            && Faithful(m.sent, s.history[m.job])
            && (m.pc == Ended(TerminalSent) ==> m.sent != [] && Terminal(Last(m.sent).status))
            && (m.pc == Ended(Forgotten) ==>
                  m.job !in s.states && |s.history[m.job]| >= 3 && Terminal(Last(s.history[m.job]).status))
            && (forall j :: 0 <= j < |m.sent| - 1 ==> !Terminal(m.sent[j].status))
  {
    hide Run;
    RunKeeps(run, actions, i);
    var s, m := run[i], run[i].streams[k];
    assert StreamOk(s, k);
    assert JobOk(s, m.job);
  }

  /** After every registration at most 200 finished jobs remain, each at least as recent as any dropped one. */
  lemma RegistrationPrunes(s: State, a: Action, d: JobId)
    requires Inv(s) && a.Register? && Enabled(s, a)
    ensures var t := Apply(s, a);
            && |Finished(t.states)| <= 200
            && (d in s.states && d !in t.states ==>
                  && Terminal(s.states[d].status)
                  && |Finished(t.states)| == 200
                  && forall r :: r in Finished(t.states) ==> NotNewer(s.states[d], t.states[r]))
  {
    hide JobOk, StreamOk, KeyLeq, NotNewer;
    KeyOrder();
    var t := Apply(s, a);
    assert Finished(t.states) == Finished(a.pruned);
    if d in s.states && d !in t.states {
      assert d in s.states.Keys - a.pruned.Keys;
      assert d in Finished(s.states);
      if |Finished(s.states)| <= MAX_RETAINED_FINISHED_JOBS {
        assert Finished(a.pruned) <= Finished(s.states);
        SubsetSameSize(Finished(a.pruned), Finished(s.states));
        assert false;
      }
    }
  }

  // ---- what a run never takes back ---------------------------------------------------------

  /** Later states extend earlier ones: histories and sent events only grow, an ended stream stays ended. */
  ghost predicate Extends(s: State, t: State) {
    && (forall j :: j in s.history ==> j in t.history && s.history[j] <= t.history[j])
    && (forall j :: j in s.history && j !in s.states ==> j !in t.states)
    && (forall k :: k in s.streams ==>
          && k in t.streams && t.streams[k].job == s.streams[k].job
          && s.streams[k].sent <= t.streams[k].sent
          && (s.streams[k].pc.Ended? ==> t.streams[k] == s.streams[k]))
  }

  /** A worker or registration step leaves the streams alone. */
  lemma RegistryExtends(s: State, a: Action)
    requires Enabled(s, a) && !LoopAction(a)
    ensures Extends(s, Apply(s, a))
  {
    var t := Apply(s, a);
    assert a.Register? ==> a.id !in s.history;
    StreamsFrame(s, a);
    forall j | j in s.history
      ensures j in t.history && s.history[j] <= t.history[j] && (j !in s.states ==> j !in t.states)
    {
      if j == a.id { OwnFrame(s, a); } else { WorkerFrame(s, a, j); }
    }
    hide Apply, Enabled;
  }

  /** A step of one stream leaves the registry and the other streams alone. */
  lemma StreamExtends(s: State, k: nat, m: Stream, owner: Option<nat>, flags: map<JobId, bool>)
    requires k in s.streams ==>
               !s.streams[k].pc.Ended? && m.job == s.streams[k].job && s.streams[k].sent <= m.sent
    ensures Extends(s, SetStream(s, k, m, owner).(flags := flags))
  {
  }

  lemma SegmentExtends(s: State, k: nat)
    requires k in s.streams && Running(s.streams[k].pc)
    ensures Extends(s, SegmentStep(s, k))
  {
    hide Extends;
    var m := s.streams[k];
    match m.pc
    case Top =>
      if m.job !in s.states {
        StreamExtends(s, k, m.(pc := Ended(Forgotten)), None, s.flags);
      } else if s.states[m.job].revision != m.known {
        var state := s.states[m.job];
        StreamExtends(s, k, m.(pc := Sent, known := state.revision, sent := m.sent + [state]), None, s.flags);
      } else {
        StreamExtends(s, k, m.(pc := Enter), Some(k), s.flags);
      }
    case Enter => StreamExtends(s, k, m.(pc := if m.job in s.events then Clear else Top), Some(k), s.flags);
    case Clear => StreamExtends(s, k, m.(pc := Read), Some(k), s.flags[m.job := false]);
    case Read =>
      StreamExtends(s, k, m.(pc := Top), Some(k), s.flags);
      StreamExtends(s, k, m.(pc := Await), Some(k), s.flags);
    case Await =>
      StreamExtends(s, k, m.(pc := Clear), Some(k), s.flags);
      StreamExtends(s, k, m.(pc := Blocked), None, s.flags);
  }

  lemma ResumeExtends(s: State, k: nat)
    requires k in s.streams && !s.streams[k].pc.Ended?
    ensures Extends(s, ResumeStep(s, k))
  {
    hide Extends;
    var t := ResumeStep(s, k);
    StreamExtends(s, k, t.streams[k], t.owner, t.flags);
  }

  lemma CallbackExtends(s: State)
    requires Enabled(s, RunCallback)
    ensures Extends(s, Apply(s, RunCallback))
  {
  }

  lemma StepExtends(s: State, a: Action)
    requires Enabled(s, a)
    ensures Extends(s, Apply(s, a))
  {
    hide Extends, SegmentStep, ResumeStep, Store;
    match a
    case RunCallback => CallbackExtends(s);
    case Connect(k, id) =>
      assert Apply(s, a) == SetStream(s, k, Stream(id, -1, [], Start), s.owner).(flags := s.flags);
      StreamExtends(s, k, Stream(id, -1, [], Start), s.owner, s.flags);
    case Resume(k) => ResumeExtends(s, k);
    case Segment(k) => SegmentExtends(s, k);
    case Timeout(k) => StreamExtends(s, k, s.streams[k].(pc := Keepalive), None, s.flags);
    case Disconnect(k) => StreamExtends(s, k, s.streams[k].(pc := Ended(Disconnected)), None, s.flags);
    case _ => RegistryExtends(s, a);
  }

  /** Nothing a stream sent is revised, and no forgotten job comes back. */
  lemma {:induction false} RunExtends(run: seq<State>, actions: seq<Action>, i: nat, j: nat)
    requires Run(run, actions) && i <= j < |run|
    ensures Extends(run[i], run[j])
    decreases j
  {
    hide Run, Apply, Enabled;
    if i < j {
      RunExtends(run, actions, i, j - 1);
      RunStep(run, actions, j);
      StepExtends(run[j - 1], actions[j - 1]);
    }
  }
}
