/** Job snapshots, their retention rule, and the registry object that holds them. */
module JobRegistry {
  import opened Sequences
  import opened Sorting

  type JobId = string

  datatype Status = QUEUED | RUNNING | SUCCEEDED | FAILED | ORPHANED

  predicate Terminal(status: Status) { status in {SUCCEEDED, FAILED, ORPHANED} }

  /** An immutable snapshot; the revision counts the updates since registration. */
  datatype JobState = JobState(jobId: JobId, status: Status, createdAt: int, updatedAt: int, revision: nat)

  const MAX_RETAINED_FINISHED_JOBS := 200

  function Registered(id: JobId, now: int): JobState { JobState(id, QUEUED, now, now, 0) }

  function Updated(current: JobState, status: Status, now: int): JobState {
    current.(status := status, updatedAt := now, revision := current.revision + 1)
  }

  // ---- retention order -----------------------------------------------------------------

  /** The order of the sort key `(updated_at, created_at, job_id)`. */
  predicate KeyLeq(a: JobState, b: JobState) {
    if a.updatedAt != b.updatedAt then a.updatedAt < b.updatedAt
    else if a.createdAt != b.createdAt then a.createdAt < b.createdAt
    else StringLeq(a.jobId, b.jobId)
  }

  /** Updated earlier, or then created earlier, or then with the id that comes first as text. */
  ghost predicate NotNewer(a: JobState, b: JobState) {
    || a.updatedAt < b.updatedAt
    || (a.updatedAt == b.updatedAt && a.createdAt < b.createdAt)
    || (a.updatedAt == b.updatedAt && a.createdAt == b.createdAt && InTextOrder(a.jobId, b.jobId))
  }

  lemma KeyMeaning(a: JobState, b: JobState)
    ensures KeyLeq(a, b) <==> NotNewer(a, b)
  {
    StringMeaning(a.jobId, b.jobId);
  }

  lemma KeyOrder()
    ensures TotalOrder(KeyLeq)
    ensures forall a, b :: KeyLeq(a, b) <==> NotNewer(a, b)
  {
    forall a, b ensures KeyLeq(a, b) <==> NotNewer(a, b) { KeyMeaning(a, b); }
    forall a: JobState, b: JobState ensures KeyLeq(a, b) || KeyLeq(b, a) {
      StringTotal(a.jobId, b.jobId);
    }
    forall a: JobState, b: JobState, c: JobState | KeyLeq(a, b) && KeyLeq(b, c) ensures KeyLeq(a, c) {
      if a.updatedAt == b.updatedAt == c.updatedAt && a.createdAt == b.createdAt == c.createdAt {
        StringTransitive(a.jobId, b.jobId, c.jobId);
      }
    }
  }

  ghost predicate WellKeyed(states: map<JobId, JobState>) {
    forall j :: j in states ==> states[j].jobId == j
  }

  ghost function Finished(states: map<JobId, JobState>): set<JobId> {
    set j | j in states && Terminal(states[j].status)
  }

  /** `after` is `before` without the finished jobs past the cap, oldest first. */
  ghost predicate Pruned(before: map<JobId, JobState>, after: map<JobId, JobState>) {
    && after.Keys <= before.Keys
    && (forall j :: j in after ==> after[j] == before[j])
    && before.Keys - after.Keys <= Finished(before)
    && |Finished(after)| == (if |Finished(before)| <= MAX_RETAINED_FINISHED_JOBS
                             then |Finished(before)| else MAX_RETAINED_FINISHED_JOBS)
    && (forall d, r :: d in before && d !in after && r in Finished(after) ==> KeyLeq(before[d], before[r]))
  }

  /** The retention rule leaves no choice: it determines which jobs stay. */
  lemma PrunedUnique(before: map<JobId, JobState>, a: map<JobId, JobState>, b: map<JobId, JobState>)
    requires WellKeyed(before) && Pruned(before, a) && Pruned(before, b)
    ensures a == b
  {
    if !(Finished(a) <= Finished(b)) {
      var x :| x in Finished(a) && x !in Finished(b);
      var y := Surplus(Finished(b), Finished(a));
      assert y in before && y !in a && x in before && x !in b;
      StringAntisymmetric(before[x].jobId, before[y].jobId);
      assert false;
    }
    SubsetSameSize(Finished(a), Finished(b));
    forall j ensures j in a <==> j in b {
      assert j in Finished(a) <==> j in Finished(b);
      if j in before && !Terminal(before[j].status) {
        assert j !in before.Keys - a.Keys;
        assert j !in before.Keys - b.Keys;
      }
    }
  }

  /** Of two different finite sets of one size, each holds something the other lacks. */
  lemma Surplus<T>(s: set<T>, t: set<T>) returns (y: T)
    requires |s| == |t| && !(t <= s)
    ensures y in s && y !in t
  {
    if s <= t {
      SubsetSameSize(s, t);
      assert false;
    }
    y :| y in s && y !in t;
  }

  // ---- the registry object -------------------------------------------------------------

  /** The lock makes each method one atomic step. Events are named by the job they were created for. */
  class Registry {
    var states: map<JobId, JobState>
    var events: set<JobId>

    ghost predicate Valid()
      reads this
    {
      states.Keys == events && WellKeyed(states)
    }

    constructor ()
      ensures Valid() && states == map[]
    {
      states, events := map[], {};
    }

    /** Refuses a known id; otherwise prunes, then stores a QUEUED snapshot with a fresh event. */
    method Register(id: JobId, now: int) returns (r: Option<JobState>)
      requires Valid()
      modifies this
      ensures Valid()
      ensures r.None? <==> id in old(states)
      ensures r.None? ==> states == old(states)
      ensures r.Some? ==> r.value == JobState(id, QUEUED, now, now, 0) && id in states && states[id] == r.value
      ensures r.Some? ==> Pruned(old(states), states - {id})
      ensures r.Some? ==> |Finished(states)| <= 200
    {
      if id in states {
        return None;
      }
      DropOldestFinished();
      ghost var pruned := states;
      r := Some(Registered(id, now));
      states := states[id := r.value];
      events := events + {id};
      assert states - {id} == pruned;
      assert Finished(states) == Finished(pruned);
    }

    method FinishedStates() returns (finished: seq<JobState>)
      requires Valid()
      ensures forall st :: st in finished <==> st.jobId in Finished(states) && states[st.jobId] == st
      ensures forall i, j :: 0 <= i < j < |finished| ==> finished[i].jobId != finished[j].jobId
      ensures |finished| == |Finished(states)|
    {
      finished := [];
      var rest := states.Keys;
      ghost var done: set<JobId> := {};
      while rest != {}
        invariant rest <= states.Keys
        invariant done == set j | j in Finished(states) && j !in rest
        invariant forall st :: st in finished <==> st.jobId in done && states[st.jobId] == st
        invariant forall i, j :: 0 <= i < j < |finished| ==> finished[i].jobId != finished[j].jobId
        invariant |finished| == |done|
        decreases |rest|
      {
        var j :| j in rest;
        if Terminal(states[j].status) {
          assert forall i :: 0 <= i < |finished| ==> finished[i] in finished;
          finished := finished + [states[j]];
          done := done + {j};
        }
        rest := rest - {j};
      }
      assert done == Finished(states);
    }

    /** Forgets finished jobs past the retention cap, oldest first. */
    method DropOldestFinished()
      requires Valid()
      modifies this
      ensures Valid()
      ensures Pruned(old(states), states)
    {
      hide SortBy, KeyLeq, Finished, Pruned;
      var finished := FinishedStates();
      var excess := |finished| - MAX_RETAINED_FINISHED_JOBS;
      if excess <= 0 {
        NothingToPrune(states);
        return;
      }
      var sorted := SortBy(KeyLeq, finished);
      SortedFinished(states, finished, sorted);
      ghost var before := states;
      for i := 0 to excess
        invariant Valid()
        invariant states == before - IdsOf(sorted[..i])
      {
        var id := sorted[i].jobId;
        assert sorted[..i + 1] == sorted[..i] + [sorted[i]];
        states := states - {id};
        events := events - {id};
      }
      DroppingPrunes(before, sorted, excess);
    }

    /** `None` is Python's `KeyError`; otherwise the caller still has to schedule the wakeup. */
    method Update(id: JobId, status: Status, now: int) returns (r: Option<JobState>)
      requires Valid()
      modifies this
      ensures Valid()
      ensures r.None? <==> id !in old(states)
      ensures r.None? ==> states == old(states)
      ensures r.Some? ==>
                var before := old(states)[id];
                && r.value == JobState(id, status, before.createdAt, now, before.revision + 1)
                && states == old(states)[id := r.value]
    {
      if id !in states {
        return None;
      }
      r := Some(Updated(states[id], status, now));
      states := states[id := r.value];
    }

    function Get(id: JobId): (r: Option<JobState>)
      requires Valid()
      reads this
      ensures r.Some? <==> id in events
      ensures r.Some? ==> r.value == states[id]
    {
      if id in states then Some(states[id]) else None
    }
  }

  lemma NothingToPrune(states: map<JobId, JobState>)
    requires |Finished(states)| <= MAX_RETAINED_FINISHED_JOBS
    ensures Pruned(states, states)
  {
  }

  ghost function IdsOf(s: seq<JobState>): set<JobId> { set st | st in s :: st.jobId }

  /** A list of all finished snapshots, in retention order. */
  ghost predicate SortedFinishedList(states: map<JobId, JobState>, sorted: seq<JobState>) {
    && SortedBy(KeyLeq, sorted)
    && (forall st :: st in sorted <==> st.jobId in Finished(states) && states[st.jobId] == st)
    && (forall i, j :: 0 <= i < j < |sorted| ==> sorted[i].jobId != sorted[j].jobId)
    && |sorted| == |Finished(states)|
  }

  lemma SortedFinished(states: map<JobId, JobState>, finished: seq<JobState>, sorted: seq<JobState>)
    requires forall st :: st in finished <==> st.jobId in Finished(states) && states[st.jobId] == st
    requires forall i, j :: 0 <= i < j < |finished| ==> finished[i].jobId != finished[j].jobId
    requires |finished| == |Finished(states)|
    requires sorted == SortBy(KeyLeq, finished)
    ensures SortedFinishedList(states, sorted)
  {
    KeyOrder();
    SortBySorts(KeyLeq, finished);
    forall st ensures st in sorted <==> st in finished {
      assert st in sorted <==> st in multiset(sorted);
      assert st in finished <==> st in multiset(finished);
    }
    assert |sorted| == |multiset(sorted)| == |finished|;
    forall i, j | 0 <= i < j < |sorted| ensures sorted[i].jobId != sorted[j].jobId {
      assert sorted[i] in sorted && sorted[j] in sorted;
      if sorted[i].jobId == sorted[j].jobId {
        OnceInFinished(finished, sorted[i]);
        Twice(sorted, i, j);
        assert false;
      }
    }
  }

  lemma {:induction false} OnceInFinished(s: seq<JobState>, st: JobState)
    requires forall i, j :: 0 <= i < j < |s| ==> s[i].jobId != s[j].jobId
    ensures multiset(s)[st] <= 1
    decreases |s|
  {
    if s != [] {
      var m := |s| - 1;
      assert s == s[..m] + [s[m]];
      OnceInFinished(s[..m], st);
      if st == s[m] { assert st !in s[..m]; }
    }
  }

  /** Dropping the first `excess` entries of the sorted list is exactly the retention rule. */
  lemma DroppingPrunes(before: map<JobId, JobState>, sorted: seq<JobState>, excess: nat)
    requires WellKeyed(before) && SortedFinishedList(before, sorted)
    requires |sorted| == excess + MAX_RETAINED_FINISHED_JOBS
    ensures Pruned(before, before - IdsOf(sorted[..excess]))
  {
    var dropped := IdsOf(sorted[..excess]);
    var after := before - dropped;
    DistinctIds(sorted[..excess]);
    assert forall st :: st in sorted[..excess] ==> st in sorted;
    assert dropped <= Finished(before);
    assert Finished(after) == Finished(before) - dropped;
    assert forall k :: 0 <= k < excess ==> sorted[k] in sorted[..excess];
    forall d, r | d in dropped && r in Finished(after) ensures KeyLeq(before[d], before[r]) {
      assert before[d] in sorted[..excess];
      var i :| 0 <= i < excess && sorted[i] == before[d];
      assert before[r] in sorted;
      var j :| 0 <= j < |sorted| && sorted[j] == before[r];
    }
  }

  lemma {:induction false} DistinctIds(s: seq<JobState>)
    requires forall i, j :: 0 <= i < j < |s| ==> s[i].jobId != s[j].jobId
    ensures |IdsOf(s)| == |s|
    decreases |s|
  {
    if s != [] {
      var m := |s| - 1;
      DistinctIds(s[..m]);
      assert s == s[..m] + [s[m]];
      assert IdsOf(s) == IdsOf(s[..m]) + {s[m].jobId};
      assert s[m].jobId !in IdsOf(s[..m]);
    } else {
      assert IdsOf(s) == {};
    }
  }

  /** The snapshots of some jobs, listed once each. */
  lemma {:induction false} Listed(states: map<JobId, JobState>, ids: set<JobId>) returns (s: seq<JobState>)
    requires WellKeyed(states) && ids <= states.Keys
    ensures forall st :: st in s <==> st.jobId in ids && states[st.jobId] == st
    ensures forall i, j :: 0 <= i < j < |s| ==> s[i].jobId != s[j].jobId
    ensures |s| == |ids|
    decreases |ids|
  {
    if ids == {} {
      s := [];
    } else {
      var id := Pick(ids);
      var rest := Listed(states, ids - {id});
      s := rest + [states[id]];
      forall i | 0 <= i < |rest| ensures rest[i].jobId != id { assert rest[i] in rest; }
    }
  }

  /** The retention rule can always be met. */
  lemma PrunedExists(states: map<JobId, JobState>) returns (after: map<JobId, JobState>)
    requires WellKeyed(states)
    ensures Pruned(states, after)
  {
    hide SortBy, KeyLeq, Pruned;
    if |Finished(states)| <= MAX_RETAINED_FINISHED_JOBS {
      NothingToPrune(states);
      after := states;
    } else {
      var finished := Listed(states, Finished(states));
      var sorted := SortBy(KeyLeq, finished);
      SortedFinished(states, finished, sorted);
      var excess := |sorted| - MAX_RETAINED_FINISHED_JOBS;
      DroppingPrunes(states, sorted, excess);
      after := states - IdsOf(sorted[..excess]);
    }
  }
}
