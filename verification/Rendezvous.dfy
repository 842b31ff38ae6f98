/** The multi-RU rendezvous of wakeup_L1s: one mask of reporting radio units per subframe number. */
module Rendezvous {
  import opened Bits

  /** What wakeup_L1s looks at in each attached radio unit. */
  datatype RuStatus = RuStatus(waitCnt: int, syncing: bool, slave: bool)

  /** A waiting unit with one count left is let go by any report except one for subframe 9. */
  function LetGo(u: RuStatus, tti: nat): RuStatus {
    if u.waitCnt == 1 && tti != 9 then u.(waitCnt := 0) else u
  }

  /** Unit i is counted in by a report of unit r: it is the reporter and not waiting, or it is excused
      (synchronising, or a waiting slave other than the reporter). `u` is its status after LetGo. */
  predicate CountedIn(u: RuStatus, i: nat, r: nat) {
    (i == r && u.waitCnt == 0) || u.syncing || (u.slave && u.waitCnt > 0 && i != r)
  }

  /** One wakeup_L1s call: unit r reports subframe tti while the units have statuses `units`. */
  datatype Report = Report(r: nat, tti: nat, units: seq<RuStatus>)

  predicate ValidReport(n: nat, e: Report) {
    e.r < n && e.tti < 10 && |e.units| == n
  }

  ghost predicate AllValid(n: nat, events: seq<Report>) {
    forall e | e in events :: ValidReport(n, e)
  }

  ghost function Counted(n: nat, e: Report): set<nat>
    requires ValidReport(n, e)
  {
    set i: nat | i < n && CountedIn(LetGo(e.units[i], e.tti), i, e.r)
  }

  /** The units counted in for subframe t since its mask was last reset. */
  ghost function Pending(n: nat, t: nat, events: seq<Report>): set<nat>
    requires AllValid(n, events)
  {
    if events == [] then {}
    else
      var k := |events| - 1;
      var before := Pending(n, t, events[..k]);
      if events[k].tti != t then before
      else if Resets(n, before, events[k]) then {}
      else before + Counted(n, events[k])
  }

  /** The report completes the round and resets the mask. */
  ghost predicate Resets(n: nat, before: set<nat>, e: Report)
    requires ValidReport(n, e)
  {
    before + Counted(n, e) == Upto(n)
  }

  /** The report wakes L1: it completes the round and the reporter itself is not waiting. */
  ghost predicate Wakes(n: nat, before: set<nat>, e: Report)
    requires ValidReport(n, e)
  {
    Resets(n, before, e) && LetGo(e.units[e.r], e.tti).waitCnt == 0
  }

  // ----- every interleaving of reports -----

  /** Index of the first report after the last reset of subframe t's mask. */
  ghost function RoundStart(n: nat, t: nat, events: seq<Report>): nat
    requires AllValid(n, events)
  {
    if events == [] then 0
    else
      var k := |events| - 1;
      if events[k].tti == t && Resets(n, Pending(n, t, events[..k]), events[k]) then |events|
      else RoundStart(n, t, events[..k])
  }

  /** Unit i reported or was excused for subframe t at or after event `from`. */
  ghost predicate CountedSince(n: nat, t: nat, events: seq<Report>, from: nat, i: nat)
    requires AllValid(n, events)
  {
    exists j: nat :: from <= j < |events| && CountedAt(n, t, events, j, i)
  }

  ghost predicate CountedAt(n: nat, t: nat, events: seq<Report>, j: nat, i: nat)
    requires AllValid(n, events) && j < |events|
  {
    events[j].tti == t && i in Counted(n, events[j])
  }

  lemma CountedSinceLast(n: nat, t: nat, events: seq<Report>, from: nat, i: nat)
    requires AllValid(n, events) && events != [] && from < |events|
    ensures
      var k := |events| - 1;
      CountedSince(n, t, events, from, i) <==> CountedSince(n, t, events[..k], from, i) || CountedAt(n, t, events, k, i)
  {
    hide Counted;
    var k := |events| - 1;
    if j: nat :| from <= j < k && CountedAt(n, t, events[..k], j, i) {
      assert CountedAt(n, t, events, j, i);
    }
    if j: nat :| from <= j < k && CountedAt(n, t, events, j, i) {
      assert CountedAt(n, t, events[..k], j, i);
    }
  }

  lemma {:induction false} RoundStartBound(n: nat, t: nat, events: seq<Report>)
    requires AllValid(n, events)
    ensures RoundStart(n, t, events) <= |events|
  {
    if events != [] {
      RoundStartBound(n, t, events[..|events| - 1]);
    }
  }

  /** The mask is exactly the set of units that reported or were excused since its last reset. */
  lemma {:induction false} PendingSinceReset(n: nat, t: nat, events: seq<Report>, i: nat)
    requires AllValid(n, events)
    ensures i in Pending(n, t, events) <==> CountedSince(n, t, events, RoundStart(n, t, events), i)
  {
    if events != [] {
      var k := |events| - 1;
      PendingSinceReset(n, t, events[..k], i);
      RoundStartBound(n, t, events[..k]);
      hide Counted;
      if RoundStart(n, t, events) <= k {
        CountedSinceLast(n, t, events, RoundStart(n, t, events), i);
      }
    }
  }

  lemma {:induction false} PendingBound(n: nat, t: nat, events: seq<Report>)
    requires AllValid(n, events)
    ensures Pending(n, t, events) <= Upto(n)
  {
    if events != [] {
      PendingBound(n, t, events[..|events| - 1]);
    }
  }

  /** For any number of units and any interleaving of reports: a round completes (and L1 can be woken)
      exactly when every unit has reported or been excused since the last reset. */
  lemma WakeNeedsEveryone(n: nat, t: nat, events: seq<Report>)
    requires AllValid(n, events) && events != []
    requires events[|events| - 1].tti == t
    ensures
      var k := |events| - 1;
      var before := Pending(n, t, events[..k]);
      Resets(n, before, events[k])
      <==> forall i: nat | i < n :: CountedSince(n, t, events, RoundStart(n, t, events[..k]), i)
  {
    var k := |events| - 1;
    var before, start := Pending(n, t, events[..k]), RoundStart(n, t, events[..k]);
    PendingBound(n, t, events[..k]);
    RoundStartBound(n, t, events[..k]);
    forall i: nat | i < n
      ensures i in before + Counted(n, events[k]) <==> CountedSince(n, t, events, start, i)
    {
      PendingSinceReset(n, t, events[..k], i);
      CountedSinceLast(n, t, events, start, i);
    }
  }

  // ----- who is in the mask, in the units' own fields -----

  /** The unit does not wait, or stops waiting with a report for subframe tti. */
  predicate Free(u: RuStatus, tti: nat) {
    u.waitCnt == 0 || (u.waitCnt == 1 && tti != 9)
  }

  /** The report puts unit i in the mask: it is the unit's own and the unit does not wait, or the unit is
      synchronising, or it is a slave that goes on waiting. */
  predicate Heard(e: Report, i: nat)
    requires i < |e.units|
  {
    var u := e.units[i];
    || (i == e.r && (u.waitCnt == 0 || (u.waitCnt == 1 && e.tti != 9)))
    || u.syncing
    || (i != e.r && u.slave && (u.waitCnt > 1 || (u.waitCnt == 1 && e.tti == 9)))
  }

  lemma CountedIsHeard(n: nat, e: Report, i: nat)
    requires ValidReport(n, e)
    ensures i in Counted(n, e) <==> i < n && Heard(e, i)
  {
  }

  ghost predicate HeardAt(n: nat, t: nat, events: seq<Report>, j: nat, i: nat)
    requires AllValid(n, events) && j < |events|
  {
    && events[j].tti == t
    && i < n && ValidReport(n, events[j]) && Heard(events[j], i)
  }

  ghost predicate HeardSince(n: nat, t: nat, events: seq<Report>, from: nat, i: nat)
    requires AllValid(n, events)
  {
    exists j: nat :: from <= j < |events| && HeardAt(n, t, events, j, i)
  }

  lemma CountedSinceIsHeard(n: nat, t: nat, events: seq<Report>, from: nat, i: nat)
    requires AllValid(n, events)
    ensures CountedSince(n, t, events, from, i) <==> HeardSince(n, t, events, from, i)
  {
    forall j: nat | j < |events| ensures CountedAt(n, t, events, j, i) <==> HeardAt(n, t, events, j, i) {
      CountedIsHeard(n, events[j], i);
    }
    hide CountedAt, HeardAt;
    if j: nat :| from <= j < |events| && CountedAt(n, t, events, j, i) {
      assert HeardAt(n, t, events, j, i);
    }
    if j: nat :| from <= j < |events| && HeardAt(n, t, events, j, i) {
      assert CountedAt(n, t, events, j, i);
    }
  }

  /** In every interleaving: unit i is in the mask exactly if some report since the reset was its own while it
      did not wait, or found it synchronising, or found it a slave that goes on waiting. */
  lemma MaskInFields(n: nat, t: nat, events: seq<Report>, i: nat)
    requires AllValid(n, events)
    ensures i in Pending(n, t, events) <==> HeardSince(n, t, events, RoundStart(n, t, events), i)
  {
    PendingSinceReset(n, t, events, i);
    CountedSinceIsHeard(n, t, events, RoundStart(n, t, events), i);
  }

  /** The last report wakes L1 exactly if that has happened to every unit since the reset and the reporter does
      not wait. */
  lemma WakesInFields(n: nat, t: nat, events: seq<Report>)
    requires AllValid(n, events) && events != [] && events[|events| - 1].tti == t
    ensures
      var k := |events| - 1;
      var e, start := events[k], RoundStart(n, t, events[..k]);
      && ValidReport(n, e)
      && (Resets(n, Pending(n, t, events[..k]), e) <==> forall i: nat | i < n :: HeardSince(n, t, events, start, i))
      && (Wakes(n, Pending(n, t, events[..k]), e)
          <==> Free(e.units[e.r], e.tti) && forall i: nat | i < n :: HeardSince(n, t, events, start, i))
  {
    var k := |events| - 1;
    var start := RoundStart(n, t, events[..k]);
    WakeNeedsEveryone(n, t, events);
    forall i: nat | i < n
      ensures CountedSince(n, t, events, start, i) <==> HeardSince(n, t, events, start, i)
    {
      CountedSinceIsHeard(n, t, events, start, i);
    }
    assert ValidReport(n, events[k]);
    hide CountedSince, HeardSince, Pending, Counted, RoundStart;
  }

  /** A unit that does not wait wakes L1 by itself when all others are synchronising or slaves that go on
      waiting, whatever the mask was; a reporter that goes on waiting never does. */
  lemma ExcusedUnits(n: nat, before: set<nat>, e: Report)
    requires ValidReport(n, e) && before <= Upto(n)
    ensures Free(e.units[e.r], e.tti)
            && (forall i: nat | i < n && i != e.r ::
                  e.units[i].syncing || (e.units[i].slave && e.units[i].waitCnt > 0 && !Free(e.units[i], e.tti)))
            ==> Wakes(n, before, e)
    ensures !Free(e.units[e.r], e.tti) ==> !Wakes(n, before, e)
  {
    forall i: nat | i < n ensures i in Counted(n, e) <==> Heard(e, i) {
      CountedIsHeard(n, e, i);
    }
  }

  // ----- conservation of reports when nobody is excused -----

  /** Nobody waits or synchronises. */
  ghost predicate Quiet(e: Report) {
    forall i | 0 <= i < |e.units| :: e.units[i].waitCnt == 0 && !e.units[i].syncing
  }

  ghost predicate AllQuiet(events: seq<Report>) {
    forall e | e in events :: Quiet(e)
  }

  ghost function Reports(t: nat, i: nat, events: seq<Report>): nat {
    if events == [] then 0
    else
      var e := events[|events| - 1];
      Reports(t, i, events[..|events| - 1]) + if e.tti == t && e.r == i then 1 else 0
  }

  /** Reports of unit i for a round it was already counted in for. */
  ghost function Repeats(n: nat, t: nat, i: nat, events: seq<Report>): nat
    requires AllValid(n, events)
  {
    if events == [] then 0
    else
      var k := |events| - 1;
      Repeats(n, t, i, events[..k])
      + if events[k].tti == t && events[k].r == i && i in Pending(n, t, events[..k]) then 1 else 0
  }

  ghost function WakeUps(n: nat, t: nat, events: seq<Report>): nat
    requires AllValid(n, events)
  {
    if events == [] then 0
    else
      var k := |events| - 1;
      WakeUps(n, t, events[..k])
      + if events[k].tti == t && Wakes(n, Pending(n, t, events[..k]), events[k]) then 1 else 0
  }

  lemma QuietCounted(n: nat, e: Report)
    requires ValidReport(n, e) && Quiet(e)
    ensures Counted(n, e) == {e.r} && LetGo(e.units[e.r], e.tti).waitCnt == 0
  {
  }

  /** Every report of a unit is accounted for: it went into a wake-up, is pending, or repeated one that
      was pending. So wake-ups never exceed any unit's reports. */
  lemma {:induction false} ReportsConserved(n: nat, t: nat, i: nat, events: seq<Report>)
    requires i < n && AllValid(n, events) && AllQuiet(events)
    ensures Reports(t, i, events)
            == WakeUps(n, t, events) + Repeats(n, t, i, events) + if i in Pending(n, t, events) then 1 else 0
  {
    if events != [] {
      var k := |events| - 1;
      ReportsConserved(n, t, i, events[..k]);
      QuietCounted(n, events[k]);
      PendingBound(n, t, events[..k]);
      hide Counted;
      var before := Pending(n, t, events[..k]);
      if events[k].tti == t && before + {events[k].r} == Upto(n) {
        assert i in before + {events[k].r};
        NotFull(n, t, events[..k]);
      }
    }
  }

  /** Between calls the mask is never full. */
  lemma {:induction false} NotFull(n: nat, t: nat, events: seq<Report>)
    requires n > 0 && AllValid(n, events)
    ensures Pending(n, t, events) != Upto(n)
  {
    assert 0 in Upto(n);
    if events != [] {
      NotFull(n, t, events[..|events| - 1]);
    }
  }

  /** Wake-ups never exceed a unit's reports, and equal them (so are the minimum over the units) exactly
      if the unit is not pending and never repeated a report. */
  lemma WakeUpsAtMostReports(n: nat, t: nat, i: nat, events: seq<Report>)
    requires i < n && AllValid(n, events) && AllQuiet(events)
    ensures WakeUps(n, t, events) <= Reports(t, i, events)
    ensures WakeUps(n, t, events) == Reports(t, i, events)
            <==> i !in Pending(n, t, events) && Repeats(n, t, i, events) == 0
  {
    ReportsConserved(n, t, i, events);
  }

  /** No unit is ever more than one report ahead of another. */
  ghost predicate Balanced(n: nat, t: nat, events: seq<Report>) {
    forall k, i: nat, j: nat | 0 <= k <= |events| && i < n && j < n ::
      Reports(t, i, events[..k]) <= Reports(t, j, events[..k]) + 1
  }

  /** When no unit runs more than one report ahead nothing is repeated, and the wake-ups are exactly the
      minimum over the units. */
  lemma {:induction false} BalancedReportsAllCount(n: nat, t: nat, events: seq<Report>)
    requires n > 0 && AllValid(n, events) && AllQuiet(events) && Balanced(n, t, events)
    ensures NothingLost(n, t, events)
    ensures exists i: nat :: i < n && Reports(t, i, events) == WakeUps(n, t, events)
  {
    if events != [] {
      var k := |events| - 1;
      BalancedPrefix(n, t, events);
      BalancedReportsAllCount(n, t, events[..k]);
      forall i: nat | i < n
        ensures Repeats(n, t, i, events) == 0
      {
        NoRepeat(n, t, events, i);
      }
    }
    var i := NotPending(n, t, events);
    ReportsConserved(n, t, i, events);
  }

  ghost predicate NothingLost(n: nat, t: nat, events: seq<Report>)
    requires AllValid(n, events)
  {
    forall i: nat | i < n :: Repeats(n, t, i, events) == 0
  }

  /** Exactly which report orders lose nothing, by report counts alone: no report is repeated if and only
      if no unit ever runs more than one report ahead of another. */
  lemma NothingLostIffBalanced(n: nat, t: nat, events: seq<Report>)
    requires AllValid(n, events) && AllQuiet(events)
    ensures NothingLost(n, t, events) <==> Balanced(n, t, events)
  {
    if Balanced(n, t, events) && n > 0 {
      BalancedReportsAllCount(n, t, events);
    }
    if NothingLost(n, t, events) {
      forall k, i: nat, j: nat | 0 <= k <= |events| && i < n && j < n
        ensures Reports(t, i, events[..k]) <= Reports(t, j, events[..k]) + 1
      {
        RepeatsMonotone(n, t, i, events, k);
        ReportsConserved(n, t, i, events[..k]);
        ReportsConserved(n, t, j, events[..k]);
      }
    }
  }

  lemma {:induction false} RepeatsMonotone(n: nat, t: nat, i: nat, events: seq<Report>, k: nat)
    requires AllValid(n, events) && k <= |events|
    ensures Repeats(n, t, i, events[..k]) <= Repeats(n, t, i, events)
  {
    var m := |events| - 1;
    if k <= m {
      RepeatsMonotone(n, t, i, events[..m], k);
      assert events[..m][..k] == events[..k];
    } else {
      assert events[..k] == events;
    }
  }

  lemma NotPending(n: nat, t: nat, events: seq<Report>) returns (i: nat)
    requires n > 0 && AllValid(n, events)
    ensures i < n && i !in Pending(n, t, events)
  {
    NotFull(n, t, events);
    PendingBound(n, t, events);
    var free := Upto(n) - Pending(n, t, events);
    assert Pending(n, t, events) + free == Upto(n);
    i :| i in free;
  }

  lemma BalancedPrefix(n: nat, t: nat, events: seq<Report>)
    requires events != [] && Balanced(n, t, events)
    ensures Balanced(n, t, events[..|events| - 1])
  {
    hide Reports;
    var m := |events| - 1;
    forall k, i: nat, j: nat | 0 <= k <= m && i < n && j < n
      ensures Reports(t, i, events[..m][..k]) <= Reports(t, j, events[..m][..k]) + 1
    {
      assert events[..m][..k] == events[..k];
    }
  }

  lemma NoRepeat(n: nat, t: nat, events: seq<Report>, i: nat)
    requires events != [] && i < n && AllValid(n, events) && AllQuiet(events) && Balanced(n, t, events)
    requires var earlier := events[..|events| - 1]; forall j: nat | j < n :: Repeats(n, t, j, earlier) == 0
    ensures Repeats(n, t, i, events) == 0
  {
    var k := |events| - 1;
    var earlier := events[..k];
    if events[k].tti == t && events[k].r == i && i in Pending(n, t, earlier) {
      var j := NotPending(n, t, earlier);
      ReportsConserved(n, t, i, earlier);
      ReportsConserved(n, t, j, earlier);
      assert events[..|events|] == events;
      assert Reports(t, i, events[..|events|]) <= Reports(t, j, events[..|events|]) + 1;
    }
  }

  /** A repeated report changes nothing but the unit's own count, */
  lemma RepeatedReportIsLost(n: nat, t: nat, events: seq<Report>, e: Report)
    requires AllValid(n, events) && AllQuiet(events) && ValidReport(n, e) && Quiet(e)
    requires e.tti == t && e.r in Pending(n, t, events)
    ensures AllValid(n, events + [e])
    ensures Pending(n, t, events + [e]) == Pending(n, t, events) && WakeUps(n, t, events + [e]) == WakeUps(n, t, events)
    ensures Reports(t, e.r, events + [e]) == Reports(t, e.r, events) + 1
  {
    OneMoreReport(n, t, events, e);
    NotFull(n, t, events);
    assert Pending(n, t, events) + {e.r} == Pending(n, t, events);
  }

  /** so the wake-ups can stay below every unit's reports: units 0, 0, 1, 1 report, two each, one wake-up. */
  lemma WakeUpsBelowMinimum(t: nat, units: seq<RuStatus>)
    requires t < 10 && |units| == 2 && forall i | 0 <= i < 2 :: units[i].waitCnt == 0 && !units[i].syncing
    ensures
      var events := [Report(0, t, units), Report(0, t, units), Report(1, t, units), Report(1, t, units)];
      Reports(t, 0, events) == Reports(t, 1, events) == 2 && WakeUps(2, t, events) == 1
  {
    var a, b := Report(0, t, units), Report(1, t, units);
    TwoReports(t, a);
    QuietReport(b);
    hide Pending, WakeUps, Reports, Quiet;
    OneMoreReport(2, t, [a, a], b);
    assert [a, a] + [b] == [a, a, b] && [a, a, b] + [b] == [a, a, b, b];
    OneMoreReport(2, t, [a, a, b], b);
  }

  lemma TwoReports(t: nat, a: Report)
    requires ValidReport(2, a) && Quiet(a) && a.tti == t && a.r == 0
    ensures AllValid(2, [a, a]) && Pending(2, t, [a, a]) == {0} && WakeUps(2, t, [a, a]) == 0
    ensures Reports(t, 0, [a, a]) == 2 && Reports(t, 1, [a, a]) == 0
  {
    OneMoreReport(2, t, [], a);
    assert [] + [a] == [a] && [a] + [a] == [a, a];
    hide Pending, WakeUps, Reports, Quiet;
    assert 1 in Upto(2);
    OneMoreReport(2, t, [a], a);
  }

  lemma QuietReport(e: Report)
    requires forall i | 0 <= i < |e.units| :: e.units[i].waitCnt == 0 && !e.units[i].syncing
    ensures Quiet(e)
  {
  }

  lemma OneMoreReport(n: nat, t: nat, events: seq<Report>, e: Report)
    requires AllValid(n, events) && ValidReport(n, e) && e.tti == t && Quiet(e)
    ensures
      var before := Pending(n, t, events);
      && AllValid(n, events + [e])
      && Pending(n, t, events + [e]) == (if before + {e.r} == Upto(n) then {} else before + {e.r})
      && WakeUps(n, t, events + [e]) == WakeUps(n, t, events) + (if before + {e.r} == Upto(n) then 1 else 0)
      && forall i: nat :: Reports(t, i, events + [e]) == Reports(t, i, events) + (if e.r == i then 1 else 0)
  {
    QuietCounted(n, e);
    assert (events + [e])[..|events|] == events;
  }

  // ----- the routine -----

  class L1Proc {
    const n: nat
    const ruMask: array<nat>

    ghost predicate Valid()
      reads this, ruMask
    {
      ruMask.Length == 10 && forall t | 0 <= t < 10 :: ruMask[t] < Pow2(n)
    }

    constructor (n: nat)
      ensures this.n == n && Valid() && fresh(ruMask)
      ensures forall t | 0 <= t < 10 :: ruMask[t] == 0
    {
      this.n := n;
      ruMask := new nat[10](_ => 0);
    }

    method WakeupL1s(r: nat, tti: nat, units: array<RuStatus>) returns (wakes: bool)
      requires Valid() && r < n && tti < 10 && units.Length == n
      modifies ruMask, units
      ensures Valid()
      ensures forall t | 0 <= t < 10 && t != tti :: ruMask[t] == old(ruMask[t])
      ensures forall i | 0 <= i < n :: units[i] == LetGo(old(units[i]), tti)
      ensures
        var e, before := Report(r, tti, old(units[..])), Members(old(ruMask[tti]), n);
        && Members(ruMask[tti], n) == (if Resets(n, before, e) then {} else before + Counted(n, e))
        && (wakes <==> Wakes(n, before, e))
      // the same in the units' fields
      ensures forall i | 0 <= i < n ::
        units[i] == old(units[i]).(waitCnt := if old(units[i]).waitCnt == 1 && tti != 9 then 0 else old(units[i]).waitCnt)
      ensures
        var e, before := Report(r, tti, old(units[..])), Members(old(ruMask[tti]), n);
        var full := forall i: nat | i < n :: i in before || Heard(e, i);
        && (wakes <==> full && Free(e.units[r], tti))
        && Members(ruMask[tti], n) == (if full then {} else set i: nat | i < n && (i in before || Heard(e, i)))
    {
      ghost var e, before := Report(r, tti, units[..]), Members(ruMask[tti], n);
      var m := CountReports(r, tti, units, ruMask[tti]);
      FullMembers(m, n);
      ZeroMembers(n);
      InFields(n, before, e);
      hide Counted, Heard, Members, Pow2, Free;
      wakes := false;
      if m == Pow2(n) - 1 {
        m := 0;
        wakes := units[r].waitCnt == 0;
      }
      ruMask[tti] := m;
    }

    /** The loop over the attached units. */
    method CountReports(r: nat, tti: nat, units: array<RuStatus>, mask: nat) returns (m: nat)
      requires r < n && tti < 10 && units.Length == n && mask < Pow2(n)
      modifies units
      ensures forall i | 0 <= i < n :: units[i] == LetGo(old(units[i]), tti)
      ensures m < Pow2(n) && Members(m, n) == Members(mask, n) + Counted(n, Report(r, tti, old(units[..])))
    {
      ghost var e, before := Report(r, tti, units[..]), Members(mask, n);
      m := mask;
      var i: nat := 0;
      while i < n
        invariant i <= n && m < Pow2(n)
        invariant forall k | 0 <= k < i :: units[k] == LetGo(old(units[k]), tti)
        invariant forall k | i <= k < n :: units[k] == old(units[k])
        invariant Members(m, n) == before + set k: nat | k < i && CountedIn(LetGo(e.units[k], tti), k, r)
      {
        if units[i].waitCnt == 1 && tti != 9 {
          units[i] := units[i].(waitCnt := 0);
        }
        var u := units[i];
        if r == i && u.waitCnt == 0 {
          SetBitMembers(m, i, n);
          m := SetBit(m, i);
        } else if u.syncing || (u.slave && u.waitCnt > 0 && r != i) {
          SetBitMembers(m, i, n);
          m := SetBit(m, i);
        }
        i := i + 1;
      }
    }
  }

  /** One call on a mask, in the units' fields. */
  lemma InFields(n: nat, before: set<nat>, e: Report)
    requires ValidReport(n, e) && before <= Upto(n)
    ensures
      var full := forall i: nat | i < n :: i in before || Heard(e, i);
      && (Resets(n, before, e) <==> full)
      && (Wakes(n, before, e) <==> full && Free(e.units[e.r], e.tti))
      && before + Counted(n, e) == set i: nat | i < n && (i in before || Heard(e, i))
  {
    var s := before + Counted(n, e);
    forall i: nat | i < n ensures i in s <==> i in before || Heard(e, i) {
      CountedIsHeard(n, e, i);
    }
    assert s <= Upto(n);
    hide Counted, Heard;
    if forall i: nat | i < n :: i in before || Heard(e, i) {
      assert s == Upto(n);
    }
  }
}
