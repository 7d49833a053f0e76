/** The body of one dry-run job: its stores, wakeups that raise, and jobs submitted between the stores. */
module JobRunner {
  import opened JobRegistry

  datatype Submission = Submission(id: JobId, now: int)

  ghost predicate Submitted(arrivals: seq<Submission>, id: JobId) {
    exists a :: a in arrivals && a.id == id
  }

  /** A job that was there is unchanged or, if it had finished, perhaps forgotten. */
  ghost predicate KeptOrForgotten(before: map<JobId, JobState>, after: map<JobId, JobState>, j: JobId) {
    j in before ==>
      && (j in after ==> after[j] == before[j])
      && (j !in after ==> Terminal(before[j].status))
  }

  lemma PrunedKeepsOrForgets(before: map<JobId, JobState>, after: map<JobId, JobState>, id: JobId, j: JobId)
    requires id !in before && Pruned(before, after - {id}) && j != id
    ensures KeptOrForgotten(before, after, j) && (j in after ==> j in before)
  {
    var pruned := after - {id};
    assert j in after <==> j in pruned;
    if j in before && j !in after { assert j in before.Keys - pruned.Keys; }
  }

  /** Submissions that arrive while the worker is between two stores; a known id is refused. */
  method Submit(registry: Registry, arrivals: seq<Submission>)
    requires registry.Valid()
    modifies registry
    ensures registry.Valid()
    ensures forall j :: !Submitted(arrivals, j) ==> KeptOrForgotten(old(registry.states), registry.states, j)
    ensures forall j :: !Submitted(arrivals, j) && j !in old(registry.states) ==> j !in registry.states
  {
    hide Pruned;
    for i := 0 to |arrivals|
      invariant registry.Valid()
      invariant forall j :: !Submitted(arrivals, j) ==> KeptOrForgotten(old(registry.states), registry.states, j)
      invariant forall j :: !Submitted(arrivals, j) && j !in old(registry.states) ==> j !in registry.states
    {
      ghost var before, a := registry.states, arrivals[i];
      assert a in arrivals;
      var r := registry.Register(arrivals[i].id, arrivals[i].now);
      forall j | !Submitted(arrivals, j)
        ensures KeptOrForgotten(before, registry.states, j) && (j !in before ==> j !in registry.states)
      {
        if r.Some? {
          PrunedKeepsOrForgets(before, registry.states, a.id, j);
        }
      }
    }
  }

  /** A final status is never followed by another status. */
  ghost predicate TerminalAbsorbs(log: seq<Status>) {
    forall i :: 0 <= i < |log| - 1 ==> !Terminal(log[i])
  }

  /**
    Stores RUNNING, runs the backtest, stores SUCCEEDED; any exception leads to FAILED. On a closed loop
    scheduling a wakeup raises after the snapshot is stored: `open1`, `open2` and `open3` say whether the
    loop is open for the wakeup of RUNNING, SUCCEEDED and FAILED. `log` is what was stored; `missed` is the
    KeyError of a handler whose job had been forgotten; `escaped` says that an exception left the function.
   */
  method RunJob(registry: Registry, id: JobId, open1: bool, succeeds: bool, open2: bool, open3: bool, clock: seq<int>,
                arrivals1: seq<Submission>, arrivals2: seq<Submission>)
    returns (log: seq<Status>, missed: bool, escaped: bool)
    requires registry.Valid() && id in registry.states && !Terminal(registry.states[id].status) && |clock| == 3
    requires !Submitted(arrivals1, id) && !Submitted(arrivals2, id)
    modifies registry
    ensures registry.Valid()
    ensures forall j :: j != id && !Submitted(arrivals1, j) && !Submitted(arrivals2, j) ==>
              KeptOrForgotten(old(registry.states), registry.states, j)
    ensures log != [] && log[0] == RUNNING && Terminal(log[|log| - 1])
    ensures SUCCEEDED in log <==> open1 && succeeds
    ensures FAILED in log <==> !(open1 && succeeds && open2) && !missed
    ensures missed <==> id !in registry.states
    ensures missed ==> open1 && succeeds && !open2
    ensures !missed ==> registry.states[id].status == log[|log| - 1]
                        && registry.states[id].revision == old(registry.states)[id].revision + |log|
    ensures TerminalAbsorbs(log) <==> !(open1 && succeeds && !open2 && !missed)
    ensures escaped <==> missed || (FAILED in log && !open3)
  {
    var r := registry.Update(id, RUNNING, clock[0]);
    log := [RUNNING];
    Submit(registry, arrivals1);
    assert KeptOrForgotten(old(registry.states)[id := r.value], registry.states, id);
    if open1 && succeeds {
      r := registry.Update(id, SUCCEEDED, clock[1]);
      log := log + [SUCCEEDED];
      if open2 {
        return log, false, false;
      }
      Submit(registry, arrivals2);
      assert Terminal(log[1]);
    }
    r := registry.Update(id, FAILED, clock[2]);
    if r.None? {
      return log, true, true;
    }
    log := log + [FAILED];
    missed, escaped := false, !open3;
  }
}
