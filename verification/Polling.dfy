/**
 * The two CI loops that wait for jobs by deleting finished names from the very list they walk:
 * the cluster build wait (ci-scripts/cls_cluster.py) and the physical simulator wait
 * (ci-scripts/cls_physim1.py). Deleting while walking makes the walk skip the name after each
 * deletion, so a pass over n finished jobs only removes every other one.
 */
module Polling {
  import opened Bits

  /** What one status command printed about a job. Both words can occur in the same output. */
  datatype Status = Status(completed: bool, error: bool)

  /** The answer to the t-th status command, if it asks about the given name. */
  type World = (nat, string) -> Status

  datatype Visit = Visit(name: string, status: Status)

  /** A finished walk: the names left, the commands issued, and whether an error ended it. */
  datatype Walk = Walk(jobs: seq<string>, visits: seq<Visit>, failed: bool)

  /** A finished wait: its verdict, the names left, all commands issued and the passes begun. */
  datatype Wait = Wait(ok: bool, jobs: seq<string>, visits: seq<Visit>, passes: nat)

  /** Python's `list.remove`: drops the first occurrence only. */
  function Remove(jobs: seq<string>, name: string): (r: seq<string>)
    requires name in jobs
    ensures |r| == |jobs| - 1
  {
    if jobs[0] == name then jobs[1..] else [jobs[0]] + Remove(jobs[1..], name)
  }

  /** What the list is after the visit at `idx`. */
  function Left(status: Status, jobs: seq<string>, idx: nat): (r: seq<string>)
    requires idx < |jobs|
    ensures |jobs| - 1 <= |r| <= |jobs|
    ensures status.completed ==> |r| == |jobs| - 1
  {
    if status.completed then Remove(jobs, jobs[idx]) else jobs
  }

  /** One walk from position `idx`; `strict` walks stop at the first error. */
  function Pass(w: World, t: nat, jobs: seq<string>, idx: nat, strict: bool): Walk
    decreases |jobs| - idx
  {
    if idx >= |jobs| then
      Walk(jobs, [], false)
    else
      var status := w(t, jobs[idx]);
      var left := Left(status, jobs, idx);
      var visit := Visit(jobs[idx], status);
      if strict && status.error then
        Walk(left, [visit], true)
      else
        var rest := Pass(w, t + 1, left, idx + 1, strict);
        Walk(rest.jobs, [visit] + rest.visits, rest.failed)
  }

  /** Passes until the list is empty, an error stops the wait, or the budget is used up. */
  function Poll(w: World, t: nat, jobs: seq<string>, budget: nat, strict: bool): Wait
    decreases budget
  {
    if budget == 0 then
      Wait(false, jobs, [], 0)
    else
      var p := Pass(w, t, jobs, 0, strict);
      if p.failed || p.jobs == [] then
        Wait(!p.failed, p.jobs, p.visits, 1)
      else
        var rest := Poll(w, t + |p.visits|, p.jobs, budget - 1, strict);
        Wait(rest.ok, rest.jobs, p.visits + rest.visits, rest.passes + 1)
  }

  /** One round of the wait, for callers that must not unfold the rest. */
  lemma PollStep(w: World, t: nat, jobs: seq<string>, budget: nat, strict: bool)
    requires budget > 0
    ensures var p, r := Pass(w, t, jobs, 0, strict), Poll(w, t, jobs, budget, strict);
      if p.failed || p.jobs == [] then
        r == Wait(!p.failed, p.jobs, p.visits, 1)
      else
        var rest := Poll(w, t + |p.visits|, p.jobs, budget - 1, strict);
        r == Wait(rest.ok, rest.jobs, p.visits + rest.visits, rest.passes + 1)
  {
  }

  lemma EmptyBudget(w: World, t: nat, jobs: seq<string>, strict: bool)
    ensures Poll(w, t, jobs, 0, strict) == Wait(false, jobs, [], 0)
  {
  }

  // ---------------------------------------------------------------- soundness of a verdict

  /** The names reported complete, in the order of the reports. */
  function Confirmed(visits: seq<Visit>): (r: seq<string>)
    ensures |r| <= |visits|
  {
    if visits == [] then []
    else (if visits[0].status.completed then [visits[0].name] else []) + Confirmed(visits[1..])
  }

  /** How often a name occurs. */
  function Count(names: seq<string>, name: string): nat {
    multiset(names)[name]
  }

  lemma CountConcat(a: seq<string>, b: seq<string>, name: string)
    ensures Count(a + b, name) == Count(a, name) + Count(b, name)
  {
  }

  /** Every recorded visit is what the cluster really answered. */
  ghost predicate Truthful(w: World, t: nat, visits: seq<Visit>) {
    forall i: nat | i < |visits| :: visits[i].status == w(t + i, visits[i].name)
  }

  predicate NoError(visits: seq<Visit>) {
    forall i | 0 <= i < |visits| :: !visits[i].status.error
  }

  lemma {:induction false} RemoveCount(jobs: seq<string>, name: string, x: string)
    requires name in jobs
    ensures Count(jobs, x) == Count(Remove(jobs, name), x) + Count([name], x)
  {
    assert jobs == [jobs[0]] + jobs[1..];
    CountConcat([jobs[0]], jobs[1..], x);
    if jobs[0] != name {
      RemoveCount(jobs[1..], name, x);
      CountConcat([jobs[0]], Remove(jobs[1..], name), x);
    }
    hide Count;
  }

  lemma {:induction false} ConfirmedConcat(a: seq<Visit>, b: seq<Visit>)
    ensures Confirmed(a + b) == Confirmed(a) + Confirmed(b)
  {
    if a == [] {
      assert a + b == b;
    } else {
      ConfirmedConcat(a[1..], b);
      ConfirmedFirst(a[0], a[1..]);
      ConfirmedFirst(a[0], a[1..] + b);
      assert [a[0]] + a[1..] == a && [a[0]] + (a[1..] + b) == a + b;
      hide Confirmed;
      Associative(if a[0].status.completed then [a[0].name] else [], Confirmed(a[1..]), Confirmed(b));
    }
  }

  lemma Associative(a: seq<string>, b: seq<string>, c: seq<string>)
    ensures a + (b + c) == a + b + c
  {
  }

  /** A walk loses no name and forges none: each removal answers one completion report. */
  lemma {:induction false} PassConserves(w: World, t: nat, jobs: seq<string>, idx: nat, strict: bool, x: string)
    ensures var p := Pass(w, t, jobs, idx, strict);
      Count(jobs, x) == Count(p.jobs, x) + Count(Confirmed(p.visits), x)
    decreases |jobs| - idx
  {
    if idx < |jobs| {
      var status := w(t, jobs[idx]);
      var rest := if strict && status.error then [] else Pass(w, t + 1, Left(status, jobs, idx), idx + 1, strict).visits;
      LeftCount(status, jobs, idx, x);
      ConfirmedFirst(Visit(jobs[idx], status), rest);
      CountConcat(if status.completed then [jobs[idx]] else [], Confirmed(rest), x);
      if !(strict && status.error) {
        PassConserves(w, t + 1, Left(status, jobs, idx), idx + 1, strict, x);
      }
      hide Confirmed, Left, Remove, Count;
    }
  }

  lemma LeftCount(status: Status, jobs: seq<string>, idx: nat, x: string)
    requires idx < |jobs|
    ensures Count(jobs, x)
         == Count(Left(status, jobs, idx), x) + Count(if status.completed then [jobs[idx]] else [], x)
  {
    if status.completed {
      RemoveCount(jobs, jobs[idx], x);
    }
  }

  lemma ConfirmedFirst(visit: Visit, rest: seq<Visit>)
    ensures Confirmed([visit] + rest) == (if visit.status.completed then [visit.name] else []) + Confirmed(rest)
    ensures [visit] + [] == [visit]
  {
    assert ([visit] + rest)[1..] == rest;
  }

  /** The reports of a walk are real, and only an error report fails a strict walk. */
  lemma {:induction false} PassReports(w: World, t: nat, jobs: seq<string>, idx: nat, strict: bool)
    ensures var p := Pass(w, t, jobs, idx, strict);
      && Truthful(w, t, p.visits)
      && (p.failed <==> strict && !NoError(p.visits))
    decreases |jobs| - idx
  {
    if idx < |jobs| {
      var status := w(t, jobs[idx]);
      var visit := Visit(jobs[idx], status);
      if strict && status.error {
        assert [visit][0].status.error;
      } else {
        PassReports(w, t + 1, Left(status, jobs, idx), idx + 1, strict);
        Prepend(w, t, visit, Pass(w, t + 1, Left(status, jobs, idx), idx + 1, strict).visits);
      }
      hide Truthful, NoError, Left, Remove;
    }
  }

  lemma Prepend(w: World, t: nat, visit: Visit, rest: seq<Visit>)
    requires visit.status == w(t, visit.name) && Truthful(w, t + 1, rest)
    ensures Truthful(w, t, [visit] + rest)
    ensures NoError([visit] + rest) <==> !visit.status.error && NoError(rest)
  {
    var all := [visit] + rest;
    forall i: nat | i < |all| ensures all[i].status == w(t + i, all[i].name) {
      if i > 0 {
        assert rest[i - 1].status == w(t + 1 + (i - 1), rest[i - 1].name);
      }
    }
    if NoError(all) {
      assert !all[0].status.error;
      forall i | 0 <= i < |rest| ensures !rest[i].status.error {
        assert !all[i + 1].status.error;
      }
    }
  }

  /** Names are never lost: the initial list is always what is left plus what was confirmed. */
  lemma {:induction false} PollConserves(w: World, t: nat, jobs: seq<string>, budget: nat, strict: bool, x: string)
    ensures var r := Poll(w, t, jobs, budget, strict);
      Count(jobs, x) == Count(r.jobs, x) + Count(Confirmed(r.visits), x)
    decreases budget
  {
    hide Poll, Pass, Confirmed, Count;
    if budget == 0 {
      EmptyBudget(w, t, jobs, strict);
      NothingConfirmed(x);
    } else {
      PollStep(w, t, jobs, budget, strict);
      var p := Pass(w, t, jobs, 0, strict);
      PassConserves(w, t, jobs, 0, strict, x);
      if !p.failed && p.jobs != [] {
        var rest := Poll(w, t + |p.visits|, p.jobs, budget - 1, strict).visits;
        PollConserves(w, t + |p.visits|, p.jobs, budget - 1, strict, x);
        ConfirmedConcat(p.visits, rest);
        CountConcat(Confirmed(p.visits), Confirmed(rest), x);
      }
    }
  }

  lemma NothingConfirmed(x: string)
    ensures Count(Confirmed([]), x) == 0
  {
  }

  lemma NothingReported(w: World, t: nat)
    ensures Truthful(w, t, []) && NoError([])
  {
  }

  lemma {:induction false} PollReports(w: World, t: nat, jobs: seq<string>, budget: nat, strict: bool)
    ensures var r := Poll(w, t, jobs, budget, strict);
      && Truthful(w, t, r.visits)
      && (r.ok ==> r.jobs == [] && (strict ==> NoError(r.visits)))
      && (!r.ok ==> r.passes == budget || (strict && !NoError(r.visits)))
      && r.passes <= budget
    decreases budget
  {
    hide Poll, Pass, Truthful, NoError;
    if budget == 0 {
      EmptyBudget(w, t, jobs, strict);
      NothingReported(w, t);
    } else {
      PollStep(w, t, jobs, budget, strict);
      var p := Pass(w, t, jobs, 0, strict);
      PassReports(w, t, jobs, 0, strict);
      if !p.failed && p.jobs != [] {
        PollReports(w, t + |p.visits|, p.jobs, budget - 1, strict);
        Joined(w, t, p.visits, Poll(w, t + |p.visits|, p.jobs, budget - 1, strict).visits);
      }
    }
  }

  /**
   * A wait says success only if every job was reported complete, counting repeated names as
   * often as they occur, and a strict wait only if no report showed an error as well. It says
   * failure only after an error report or after all its passes.
   */
  lemma SuccessMeansComplete(w: World, t: nat, jobs: seq<string>, budget: nat, strict: bool)
    ensures var r := Poll(w, t, jobs, budget, strict);
      && Truthful(w, t, r.visits)
      && (r.ok ==> (forall x :: Count(Confirmed(r.visits), x) == Count(jobs, x)) && (strict ==> NoError(r.visits)))
      && (!r.ok ==> r.passes == budget || (strict && !NoError(r.visits)))
      && r.passes <= budget
  {
    PollReports(w, t, jobs, budget, strict);
    forall x ensures var r := Poll(w, t, jobs, budget, strict);
        r.ok ==> Count(Confirmed(r.visits), x) == Count(jobs, x) {
      PollConserves(w, t, jobs, budget, strict, x);
      assert Count([], x) == 0;
      hide Poll, Confirmed;
    }
    hide Truthful, NoError, Poll, Confirmed, Count;
  }

  lemma Joined(w: World, t: nat, a: seq<Visit>, b: seq<Visit>)
    requires Truthful(w, t, a) && Truthful(w, t + |a|, b)
    ensures Truthful(w, t, a + b)
    ensures NoError(a + b) <==> NoError(a) && NoError(b)
  {
    forall i: nat | i < |a + b| ensures (a + b)[i].status == w(t + i, (a + b)[i].name) {
      if i >= |a| {
        assert b[i - |a|].status == w(t + |a| + (i - |a|), b[i - |a|].name);
      }
    }
    if NoError(a + b) {
      forall i | 0 <= i < |a| ensures !a[i].status.error {
        assert !(a + b)[i].status.error;
      }
      forall i | 0 <= i < |b| ensures !b[i].status.error {
        assert !(a + b)[|a| + i].status.error;
      }
    }
  }

  // ------------------------------------------------------- draining despite the skipped names

  /** From query `t` on every listed job reports completion (and, to a strict wait, no error). */
  ghost predicate AllDone(w: World, t: nat, jobs: seq<string>, strict: bool) {
    forall u: nat, name: string | u >= t && name in jobs ::
      w(u, name).completed && !(strict && w(u, name).error)
  }

  lemma AllDoneLater(w: World, t: nat, jobs: seq<string>, u: nat, left: seq<string>, strict: bool)
    requires AllDone(w, t, jobs, strict) && t <= u
    requires forall name | name in left :: name in jobs
    ensures AllDone(w, u, left, strict)
  {
  }

  lemma {:induction false} RemoveSubset(jobs: seq<string>, name: string)
    requires name in jobs
    ensures forall x | x in Remove(jobs, name) :: x in jobs
  {
    if jobs[0] != name {
      RemoveSubset(jobs[1..], name);
    }
  }

  lemma {:induction false} PassSubset(w: World, t: nat, jobs: seq<string>, idx: nat, strict: bool)
    ensures forall x | x in Pass(w, t, jobs, idx, strict).jobs :: x in jobs
    decreases |jobs| - idx
  {
    if idx < |jobs| {
      var status := w(t, jobs[idx]);
      RemoveSubset(jobs, jobs[idx]);
      assert forall x | x in Left(status, jobs, idx) :: x in jobs;
      hide Left, Remove;
      if !(strict && status.error) {
        PassSubset(w, t + 1, Left(status, jobs, idx), idx + 1, strict);
      }
    }
  }

  lemma OneMoreDone(w: World, t: nat, jobs: seq<string>, idx: nat, strict: bool)
    requires AllDone(w, t, jobs, strict) && idx < |jobs|
    ensures w(t, jobs[idx]).completed && !(strict && w(t, jobs[idx]).error)
    ensures AllDone(w, t + 1, Left(w(t, jobs[idx]), jobs, idx), strict)
  {
    assert jobs[idx] in jobs;
    RemoveSubset(jobs, jobs[idx]);
    AllDoneLater(w, t, jobs, t + 1, Left(w(t, jobs[idx]), jobs, idx), strict);
  }

  /** Commands issued plus names removed cover the rest of the list: each removal skips a name. */
  lemma {:induction false} VisitsAndRemovals(w: World, t: nat, jobs: seq<string>, idx: nat, strict: bool)
    requires idx <= |jobs| + 1
    ensures var p := Pass(w, t, jobs, idx, strict);
      && |p.jobs| + |Confirmed(p.visits)| == |jobs|
      && (!p.failed ==> |jobs| - idx <= |p.visits| + |Confirmed(p.visits)| <= |jobs| - idx + 1)
    decreases |jobs| - idx
  {
    if idx < |jobs| {
      var status := w(t, jobs[idx]);
      var rest := if strict && status.error then [] else Pass(w, t + 1, Left(status, jobs, idx), idx + 1, strict).visits;
      ConfirmedFirst(Visit(jobs[idx], status), rest);
      if !(strict && status.error) {
        VisitsAndRemovals(w, t + 1, Left(status, jobs, idx), idx + 1, strict);
      }
      hide Confirmed, Left, Remove;
    }
  }

  /** When everything listed is done, every visit removes a name. */
  lemma {:induction false} EveryVisitConfirms(w: World, t: nat, jobs: seq<string>, idx: nat, strict: bool)
    requires AllDone(w, t, jobs, strict)
    ensures var p := Pass(w, t, jobs, idx, strict);
      !p.failed && |Confirmed(p.visits)| == |p.visits|
    decreases |jobs| - idx
  {
    if idx < |jobs| {
      OneMoreDone(w, t, jobs, idx, strict);
      var status := w(t, jobs[idx]);
      var left := Left(status, jobs, idx);
      hide AllDone, Confirmed, Left, Remove;
      EveryVisitConfirms(w, t + 1, left, idx + 1, strict);
      ConfirmedFirst(Visit(jobs[idx], status), Pass(w, t + 1, left, idx + 1, strict).visits);
    }
  }

  /** So a walk over n finished jobs leaves exactly half of them, rounded down. */
  lemma PassHalves(w: World, t: nat, jobs: seq<string>, strict: bool)
    requires AllDone(w, t, jobs, strict)
    ensures var p := Pass(w, t, jobs, 0, strict);
      !p.failed && |p.jobs| == |jobs| / 2 && AllDone(w, t + |p.visits|, p.jobs, strict)
  {
    hide AllDone, Confirmed, Pass;
    EveryVisitConfirms(w, t, jobs, 0, strict);
    VisitsAndRemovals(w, t, jobs, 0, strict);
    PassSubset(w, t, jobs, 0, strict);
    var p := Pass(w, t, jobs, 0, strict);
    AllDoneLater(w, t, jobs, t + |p.visits|, p.jobs, strict);
  }

  predicate Distinct(jobs: seq<string>) {
    forall i, j | 0 <= i < j < |jobs| :: jobs[i] != jobs[j]
  }

  /** The elements at odd positions. */
  function Skipped(jobs: seq<string>): seq<string> {
    if |jobs| < 2 then [] else [jobs[1]] + Skipped(jobs[2..])
  }

  /** It is the first occurrence that is removed, and everything else keeps its order. */
  lemma {:induction false} RemoveFirst(jobs: seq<string>, i: nat)
    requires i < |jobs| && forall j | 0 <= j < i :: jobs[j] != jobs[i]
    ensures Remove(jobs, jobs[i]) == jobs[..i] + jobs[i + 1..]
  {
    if i == 0 {
      assert jobs[..0] + jobs[1..] == jobs[1..];
    } else {
      RemoveFirst(jobs[1..], i - 1);
      assert jobs[1..][i - 1] == jobs[i] && jobs[0] != jobs[i];
      assert [jobs[0]] + (jobs[1..][..i - 1] + jobs[1..][i..]) == jobs[..i] + jobs[i + 1..];
    }
  }

  lemma WithoutOne(jobs: seq<string>, idx: nat)
    requires Distinct(jobs) && idx < |jobs|
    ensures var left := jobs[..idx] + jobs[idx + 1..];
      && Distinct(left)
      && (idx + 1 == |jobs| ==> left == jobs[..idx] + Skipped(jobs[idx..]))
      && (idx + 1 < |jobs| ==>
            left[..idx + 1] + Skipped(left[idx + 1..]) == jobs[..idx] + Skipped(jobs[idx..]))
  {
    var left := jobs[..idx] + jobs[idx + 1..];
    if idx + 1 < |jobs| {
      assert left[..idx + 1] == jobs[..idx] + [jobs[idx + 1]];
      assert left[idx + 1..] == jobs[idx..][2..];
    }
  }

  /** With distinct names, the survivors are exactly the skipped ones, in their order. */
  lemma {:induction false} SurvivorsAreSkipped(w: World, t: nat, jobs: seq<string>, idx: nat, strict: bool)
    requires Distinct(jobs) && AllDone(w, t, jobs, strict) && idx <= |jobs|
    ensures Pass(w, t, jobs, idx, strict).jobs == jobs[..idx] + Skipped(jobs[idx..])
    decreases |jobs| - idx
  {
    if idx < |jobs| {
      OneMoreDone(w, t, jobs, idx, strict);
      RemoveFirst(jobs, idx);
      var left := jobs[..idx] + jobs[idx + 1..];
      assert Left(w(t, jobs[idx]), jobs, idx) == left;
      hide AllDone, Left, Remove;
      WithoutOne(jobs, idx);
      if idx + 1 < |jobs| {
        SurvivorsAreSkipped(w, t + 1, left, idx + 1, strict);
      }
    }
  }

  /** How many passes n finished jobs need; an empty list still needs the pass that notices. */
  function PassesFor(n: nat): (r: nat)
    ensures r >= 1
  {
    if n < 2 then 1 else 1 + PassesFor(n / 2)
  }

  /** PassesFor(n) is floor(log2 n) + 1. */
  lemma {:induction false} PassesForIsLog(n: nat)
    requires n > 0
    ensures Pow2(PassesFor(n) - 1) <= n < Pow2(PassesFor(n))
  {
    if n >= 2 {
      PassesForIsLog(n / 2);
      assert Pow2(PassesFor(n)) == 2 * Pow2(PassesFor(n) - 1);
      assert Pow2(PassesFor(n) - 1) == 2 * Pow2(PassesFor(n / 2) - 1);
    } else {
      assert Pow2(1) == 2 * Pow2(0);
    }
  }

  /**
   * Once the remaining jobs are all complete, the wait succeeds exactly if floor(log2 n) + 1
   * more passes are allowed, and then takes exactly that many.
   */
  lemma {:induction false} DrainsInLogPasses(w: World, t: nat, jobs: seq<string>, budget: nat, strict: bool)
    requires AllDone(w, t, jobs, strict)
    ensures var r := Poll(w, t, jobs, budget, strict);
      && (r.ok <==> PassesFor(|jobs|) <= budget)
      && (r.ok ==> r.passes == PassesFor(|jobs|))
    decreases budget
  {
    hide Poll, Pass, AllDone;
    if budget == 0 {
      EmptyBudget(w, t, jobs, strict);
    } else {
      PollStep(w, t, jobs, budget, strict);
      PassHalves(w, t, jobs, strict);
      var p := Pass(w, t, jobs, 0, strict);
      if p.jobs != [] {
        DrainsInLogPasses(w, t + |p.visits|, p.jobs, budget - 1, strict);
      }
    }
  }

  // --------------------------------------------------------------------- the two wait loops

  /** Passes that fit when every pass costs `interval` seconds of the timeout. */
  function Budget(timeout: int, interval: int): nat
    requires interval > 0
    decreases timeout
  {
    if timeout <= 0 then 0 else 1 + Budget(timeout - interval, interval)
  }

  /** Budget(timeout, interval) is the timeout divided by the interval, rounded up. */
  lemma {:induction false} BudgetIsCeiling(timeout: int, interval: int)
    requires interval > 0
    ensures timeout <= 0 ==> Budget(timeout, interval) == 0
    ensures timeout > 0 ==>
      (Budget(timeout, interval) - 1) * interval < timeout <= Budget(timeout, interval) * interval
    decreases timeout
  {
    if timeout > 0 {
      BudgetIsCeiling(timeout - interval, interval);
      var b := Budget(timeout - interval, interval);
      assert (b + 1) * interval == b * interval + interval;
      assert b > 0 ==> b * interval == (b - 1) * interval + interval;
    }
  }

  /** A Python list: a mutable object whose contents the callee changes for its caller too. */
  class List {
    var items: seq<string>

    constructor (items: seq<string>)
      ensures this.items == items
    {
      this.items := items;
    }
  }

  /** One `for` loop over the list it deletes from: the position advances after every body. */
  method WalkList(jobs: List, w: World, t: nat, strict: bool) returns (failed: bool, asked: nat)
    modifies jobs
    ensures var p := Pass(w, t, old(jobs.items), 0, strict);
      jobs.items == p.jobs && failed == p.failed && asked == |p.visits|
  {
    ghost var was := Pass(w, t, jobs.items, 0, strict);
    var idx := 0;
    asked := 0;
    failed := false;
    while idx < |jobs.items|
      invariant var p := Pass(w, t + asked, jobs.items, idx, strict);
        p.jobs == was.jobs && p.failed == was.failed && asked + |p.visits| == |was.visits|
      decreases |jobs.items| - idx
    {
      var name := jobs.items[idx];
      var status := w(t + asked, name);
      asked := asked + 1;
      if status.completed {
        jobs.items := Remove(jobs.items, name);
      }
      if strict && status.error {
        failed := true;
        return;
      }
      idx := idx + 1;
    }
  }

  /** `_wait_build_end`: the seconds count down, and the caller's own list is emptied. */
  method WaitBuildEnd(jobs: List, w: World, timeout: int, interval: int) returns (ok: bool)
    requires interval > 0
    modifies jobs
    ensures var r := Poll(w, 0, old(jobs.items), Budget(timeout, interval), true);
      ok == r.ok && jobs.items == r.jobs
  {
    hide Pass, Remove;
    ghost var was := Poll(w, 0, jobs.items, Budget(timeout, interval), true);
    var left, t := timeout, 0;
    while left > 0
      invariant var r := Poll(w, t, jobs.items, Budget(left, interval), true);
        r.ok == was.ok && r.jobs == was.jobs
      decreases left
    {
      var failed, asked := WalkList(jobs, w, t, true);
      if failed {
        return false;
      }
      if jobs.items == [] {
        return true;
      }
      t := t + asked;
      left := left - interval;
    }
    ok := false;
  }

  lemma LenientNeverFails(w: World, t: nat, jobs: seq<string>)
    ensures !Pass(w, t, jobs, 0, false).failed
  {
    hide Pass, Truthful, NoError;
    PassReports(w, t, jobs, 0, false);
  }

  /** The simulator wait: works on a copy, ignores errors and makes at most `maxPasses` passes. */
  method WaitPods(podNames: List, w: World, maxPasses: nat) returns (finished: bool)
    ensures finished == Poll(w, 0, podNames.items, maxPasses, false).ok
  {
    hide *;
    var tmp := new List(podNames.items);
    ghost var was := Poll(w, 0, tmp.items, maxPasses, false).ok;
    var count, t := 0, 0;
    finished := false;
    while count < maxPasses && !finished
      invariant fresh(tmp) && count <= maxPasses
      invariant finished ==> was
      invariant !finished ==> Poll(w, t, tmp.items, maxPasses - count, false).ok == was
    {
      PollStep(w, t, tmp.items, maxPasses - count, false);
      LenientNeverFails(w, t, tmp.items);
      var failed, asked := WalkList(tmp, w, t, false);
      if tmp.items == [] {
        finished := true;
      }
      t := t + asked;
      count := count + 1;
    }
    EmptyBudget(w, t, tmp.items, false);
  }

  const MAX_PASSES: nat := 9

  method WaitPhySim(podNames: List, w: World) returns (finished: bool)
    ensures finished == Poll(w, 0, podNames.items, MAX_PASSES, false).ok
  {
    finished := WaitPods(podNames, w, MAX_PASSES);
  }

  /** Nine passes are enough for finished pods exactly if there are fewer than 512 of them. */
  lemma PhySimCapacity(w: World, pods: seq<string>)
    requires AllDone(w, 0, pods, false)
    ensures Poll(w, 0, pods, MAX_PASSES, false).ok <==> |pods| < 512
  {
    hide Poll, AllDone, Pow2;
    DrainsInLogPasses(w, 0, pods, MAX_PASSES, false);
    if |pods| > 0 {
      PassesForIsLog(|pods|);
      Pow2OfNine();
      if PassesFor(|pods|) <= 9 {
        Pow2Mono(PassesFor(|pods|), 9);
      } else {
        Pow2Mono(9, PassesFor(|pods|) - 1);
      }
    }
  }

  lemma Pow2OfNine()
    ensures Pow2(9) == 512
  {
    assert Pow2(3) == 8;
    assert Pow2(6) == 64;
  }
}
