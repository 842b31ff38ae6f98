/** The two mailboxes end to end: radio units offer subframes to L1_thread (RxMailbox), which passes
    the arguments it reads on to L1_thread_tx through wakeup_tx (TxMailbox). L1_thread is one thread:
    while it is inside wakeup_tx it takes no step in RxMailbox. */
module Pipeline {
  import R = RxMailbox
  import T = TxMailbox
  import opened Arith
  import opened BurstControl
  import opened SubframeTime

  datatype State = State(r: R.State, t: T.State)

  /** PassOn: all arguments are evaluated, and L1_thread enters wakeup_tx with them. */
  datatype Step = Radio(radio: R.Step) | PassOn | Transmit(tx: T.Step)

  function Init(rSlot: R.Job, producers: nat, tSlot: T.Job): State {
    State(R.Init(rSlot, producers), T.Init(tSlot))
  }

  /** L1_thread has evaluated all arguments of wakeup_tx. */
  predicate Ready(r: R.State) {
    r.work.WArgs? && r.work.args.Keys == R.FIELDS
  }

  predicate Enabled(s: State, a: Step) {
    match a
    case Radio(b) => R.Enabled(s.r, b) && (b.Work? ==> s.t.rx.RIdle? && !Ready(s.r))
    case PassOn => Ready(s.r) && s.t.rx.RIdle?
    case Transmit(b) => T.Enabled(s.t, b) && !b.Enter?
  }

  /** wakeup_tx stores its arguments in its own order and ignores uplink subframes. */
  function CallFrom(d: Duplex, job: R.Job): T.Call
    requires Supported(d)
  {
    T.Call([job[2], job[1], job[4], job[3], job[0]], 0 <= job[4] < 10 && SubframeSelect(d, job[4]) == UL)
  }

  function Field(args: map<nat, int>, f: nat): int {
    if f in args then args[f] else 0
  }

  function Read(args: map<nat, int>): R.Job {
    [Field(args, 0), Field(args, 1), Field(args, 2), Field(args, 3), Field(args, 4)]
  }

  function Apply(d: Duplex, s: State, a: Step): State
    requires Supported(d) && Enabled(s, a)
  {
    match a
    case Radio(b) => s.(r := R.Apply(s.r, b))
    case PassOn => State(R.Apply(s.r, R.Work(0)), T.Apply(s.t, T.Enter(CallFrom(d, Read(s.r.work.args)))))
    case Transmit(b) => s.(t := T.Apply(s.t, b))
  }

  ghost predicate IsRun(d: Duplex, trace: seq<State>, steps: seq<Step>)
    requires Supported(d)
  {
    && |trace| == |steps| + 1
    && (exists rSlot: R.Job, producers: nat, tSlot: T.Job :: trace[0] == Init(rSlot, producers, tSlot))
    && forall i | 0 <= i < |steps| :: Enabled(trace[i], steps[i]) && trace[i + 1] == Apply(d, trace[i], steps[i])
  }

  // ----- invariant -----

  function CallsOf(d: Duplex, passed: seq<R.Passed>): seq<T.Call>
    requires Supported(d)
  {
    seq(|passed|, k requires 0 <= k < |passed| => CallFrom(d, Read(passed[k].args)))
  }

  ghost predicate Inv(d: Duplex, s: State)
    requires Supported(d)
  {
    && R.Inv(s.r) && T.Inv(s.t)
    && s.t.calls == CallsOf(d, s.r.passed)
    && (!s.t.rx.RIdle? ==> s.r.work.WLock?)
  }

  lemma RadioKeepsPassed(s: State, b: R.Step)
    requires R.Enabled(s.r, b) && (b.Work? ==> s.t.rx.RIdle? && !Ready(s.r)) && (!s.t.rx.RIdle? ==> s.r.work.WLock?)
    ensures R.Apply(s.r, b).passed == s.r.passed
    ensures !s.t.rx.RIdle? ==> R.Apply(s.r, b).work.WLock?
  {
  }

  lemma TransmitKeepsCalls(t: T.State, b: T.Step)
    requires T.Enabled(t, b) && !b.Enter?
    ensures T.Apply(t, b).calls == t.calls && (t.rx.RIdle? ==> T.Apply(t, b).rx.RIdle?)
  {
  }

  lemma PassOnAppends(d: Duplex, s: State)
    requires Supported(d) && Ready(s.r) && s.t.rx.RIdle? && s.t.calls == CallsOf(d, s.r.passed)
    ensures
      var s' := Apply(d, s, PassOn);
      s'.t.calls == CallsOf(d, s'.r.passed) && s'.r.work.WLock?
  {
  }

  lemma RadioKeepsInv(d: Duplex, s: State, b: R.Step)
    requires Supported(d) && Inv(d, s) && Enabled(s, Radio(b))
    ensures Inv(d, Apply(d, s, Radio(b)))
  {
    hide R.Inv, T.Inv, R.Apply, R.Enabled, CallsOf;
    R.StepKeepsInv(s.r, b);
    RadioKeepsPassed(s, b);
  }

  lemma PassOnKeepsInv(d: Duplex, s: State)
    requires Supported(d) && Inv(d, s) && Enabled(s, PassOn)
    ensures Inv(d, Apply(d, s, PassOn))
  {
    hide R.Inv, T.Inv, R.Apply, T.Apply, CallsOf, CallFrom, Read;
    R.StepKeepsInv(s.r, R.Work(0));
    T.StepKeepsInv(s.t, T.Enter(CallFrom(d, Read(s.r.work.args))));
    PassOnAppends(d, s);
  }

  lemma TransmitKeepsInv(d: Duplex, s: State, b: T.Step)
    requires Supported(d) && Inv(d, s) && Enabled(s, Transmit(b))
    ensures Inv(d, Apply(d, s, Transmit(b)))
  {
    hide R.Inv, T.Inv, T.Apply, T.Enabled, CallsOf;
    T.StepKeepsInv(s.t, b);
    TransmitKeepsCalls(s.t, b);
  }

  lemma StepKeepsInv(d: Duplex, s: State, a: Step)
    requires Supported(d) && Inv(d, s) && Enabled(s, a)
    ensures Inv(d, Apply(d, s, a))
  {
    hide Inv, Enabled, Apply;
    match a
    case Radio(b) => RadioKeepsInv(d, s, b);
    case PassOn => PassOnKeepsInv(d, s);
    case Transmit(b) => TransmitKeepsInv(d, s, b);
  }

  lemma {:induction false} RunKeepsInv(d: Duplex, trace: seq<State>, steps: seq<Step>, i: nat)
    requires Supported(d) && IsRun(d, trace, steps) && i < |trace|
    ensures Inv(d, trace[i])
  {
    if i == 0 {
      var rSlot: R.Job, producers: nat, tSlot: T.Job :| trace[0] == Init(rSlot, producers, tSlot);
      R.InitInv(rSlot, producers);
      T.InitInv(tSlot);
      hide R.Inv, T.Inv;
    } else {
      RunKeepsInv(d, trace, steps, i - 1);
      hide Inv, Apply, Enabled;
      StepKeepsInv(d, trace[i - 1], steps[i - 1]);
    }
  }

  // ----- what reaches L1_thread_tx -----

  /** Call k was made with the arguments of job k: none was overwritten, or only with equal values. */
  ghost predicate Intact(acc: seq<seq<int>>, passed: seq<R.Passed>, k: nat)
    requires k < |passed|
  {
    passed[k].fromNext == {} || (k + 1 < |acc| && R.Agree(acc[k], acc[k + 1], passed[k].fromNext))
  }

  lemma CallIntact(d: Duplex, acc: seq<seq<int>>, passed: seq<R.Passed>, k: nat)
    requires Supported(d) && k < |passed| && R.GoodPass(acc, k, passed[k])
    ensures k < |acc| && |acc[k]| == 5
    ensures CallFrom(d, Read(passed[k].args)) == CallFrom(d, acc[k]) <==> Intact(acc, passed, k)
  {
    var a := passed[k];
    R.GoodPassMeans(acc, k, a);
    var r := Read(a.args);
    assert forall f | f in R.FIELDS :: r[f] == a.args[f];
    hide SubframeSelect, R.GoodPass;
    if CallFrom(d, r) == CallFrom(d, acc[k]) {
      CallInjective(d, r, acc[k]);
    } else {
      assert r != acc[k];
    }
  }

  /** The calls L1_thread should make for the first n accepted jobs. */
  ghost function Due(d: Duplex, acc: seq<seq<int>>, n: nat): seq<T.Call>
    requires Supported(d) && n <= |acc| && forall k | 0 <= k < |acc| :: |acc[k]| == 5
  {
    seq(n, k requires 0 <= k < n => CallFrom(d, acc[k]))
  }

  /** In every interleaving of the radio units, L1_thread and L1_thread_tx: L1_thread_tx processes the
      non-uplink calls in order and once each, and the calls are those due for the accepted jobs
      exactly if every call is intact. */
  lemma EndToEnd(d: Duplex, trace: seq<State>, steps: seq<Step>, i: nat)
    requires Supported(d) && IsRun(d, trace, steps) && i < |trace|
    ensures
      var r, t := trace[i].r, trace[i].t;
      var acc, n := R.Taken(r.offers), |r.passed|;
      && |t.calls| == n <= |acc| && (forall k | 0 <= k < |acc| :: |acc[k]| == 5)
      && T.InOrder(t)
      && (t.calls == Due(d, acc, n) <==> forall k | 0 <= k < n :: Intact(acc, r.passed, k))
  {
    RunKeepsInv(d, trace, steps, i);
    var r, t := trace[i].r, trace[i].t;
    T.InvInOrder(t);
    CallsAreDue(d, r);
    hide T.Inv, T.InOrder, R.Inv;
  }

  lemma AllPasses(r: R.State)
    requires R.Inv(r)
    ensures
      var acc := R.Taken(r.offers);
      && |r.passed| <= |acc| && (forall k | 0 <= k < |acc| :: |acc[k]| == 5)
      && (forall k | 0 <= k < |r.passed| :: R.GoodPass(acc, k, r.passed[k]))
  {
    hide R.GoodPass, R.Contents, R.Prefix, R.ReadingInv, R.Control;
    R.AcceptedLengths(r.offers);
  }

  lemma CallsAreDue(d: Duplex, r: R.State)
    requires Supported(d) && R.Inv(r)
    ensures
      var acc, n := R.Taken(r.offers), |r.passed|;
      && n <= |acc| && (forall k | 0 <= k < |acc| :: |acc[k]| == 5)
      && (CallsOf(d, r.passed) == Due(d, acc, n) <==> forall k | 0 <= k < n :: Intact(acc, r.passed, k))
  {
    hide R.Inv, R.GoodPass, R.Taken;
    AllPasses(r);
    PassesAreDue(d, R.Taken(r.offers), r.passed);
  }

  lemma PassesAreDue(d: Duplex, acc: seq<seq<int>>, passed: seq<R.Passed>)
    requires Supported(d) && |passed| <= |acc| && (forall k | 0 <= k < |acc| :: |acc[k]| == 5)
    requires forall k | 0 <= k < |passed| :: R.GoodPass(acc, k, passed[k])
    ensures CallsOf(d, passed) == Due(d, acc, |passed|) <==> forall k | 0 <= k < |passed| :: Intact(acc, passed, k)
  {
    hide R.GoodPass, Intact, CallFrom, Read;
    forall k | 0 <= k < |passed|
      ensures CallFrom(d, Read(passed[k].args)) == CallFrom(d, acc[k]) <==> Intact(acc, passed, k)
    {
      CallIntact(d, acc, passed, k);
    }
    if CallsOf(d, passed) == Due(d, acc, |passed|) {
      forall k | 0 <= k < |passed| ensures Intact(acc, passed, k) {
        assert CallsOf(d, passed)[k] == Due(d, acc, |passed|)[k];
      }
    }
  }

  lemma WholeJob(acc: seq<seq<int>>, k: nat, a: R.Passed)
    requires R.GoodPass(acc, k, a)
    ensures a.fromNext == {} ==> |acc[k]| == 5 && Read(a.args) == acc[k]
    ensures a.fromNext == R.FIELDS ==> k + 1 < |acc| && |acc[k + 1]| == 5 && Read(a.args) == acc[k + 1]
  {
    assert 0 in R.FIELDS && forall f | f in R.FIELDS :: Read(a.args)[f] == a.args[f];
  }

  /** A call read after the next job was completely published, followed by an intact one, sends that
      next job twice, the first time in the place of the processed one. */
  lemma SentTwice(d: Duplex, trace: seq<State>, steps: seq<Step>, i: nat, k: nat)
    requires Supported(d) && IsRun(d, trace, steps) && i < |trace| && k + 1 < |trace[i].r.passed|
    requires trace[i].r.passed[k].fromNext == R.FIELDS && trace[i].r.passed[k + 1].fromNext == {}
    ensures
      var acc := R.Taken(trace[i].r.offers);
      && k + 1 < |acc| && |acc[k + 1]| == 5 && |trace[i].t.calls| > k + 1
      && trace[i].t.calls[k] == trace[i].t.calls[k + 1] == CallFrom(d, acc[k + 1])
      && |acc[k]| == 5 && (acc[k] != acc[k + 1] ==> trace[i].t.calls[k] != CallFrom(d, acc[k]))
  {
    RunKeepsInv(d, trace, steps, i);
    hide IsRun, R.Inv, T.Inv, R.GoodPass, R.Taken, CallFrom, Read;
    AllPasses(trace[i].r);
    var acc, passed := R.Taken(trace[i].r.offers), trace[i].r.passed;
    WholeJob(acc, k, passed[k]);
    WholeJob(acc, k + 1, passed[k + 1]);
    if CallFrom(d, acc[k]) == CallFrom(d, acc[k + 1]) {
      CallInjective(d, acc[k], acc[k + 1]);
    }
  }

  lemma CallInjective(d: Duplex, a: R.Job, b: R.Job)
    requires Supported(d) && CallFrom(d, a).job == CallFrom(d, b).job
    ensures a == b
  {
    var x, y := CallFrom(d, a).job, CallFrom(d, b).job;
    assert x[0] == y[0] && x[1] == y[1] && x[2] == y[2] && x[3] == y[3] && x[4] == y[4];
  }

  // ----- rest -----

  ghost predicate Resting(s: State) {
    R.Resting(s.r) && s.t.rx.RIdle? && s.t.tx.TSleep? && s.t.cnt == -1
  }

  /** Neither a call from outside nor a spurious wake-up. */
  predicate Progressing(a: Step) {
    match a
    case Radio(b) => b.Prod? || b.Work?
    case PassOn => true
    case Transmit(b) => b.Rx? || b.Tx?
  }

  lemma SomeStep(d: Duplex, s: State) returns (a: Step)
    requires Supported(d) && Inv(d, s) && !Resting(s)
    ensures Progressing(a) && Enabled(s, a)
  {
    T.Quiescent(s.t);
    hide R.Inv, T.Inv;
    if T.Enabled(s.t, T.Rx) {
      a := Transmit(T.Rx);
    } else if T.Enabled(s.t, T.Tx) {
      a := Transmit(T.Tx);
    } else {
      var b := R.SomeStep(s.r);
      a := if b.Work? && Ready(s.r) then PassOn else Radio(b);
    }
  }

  /** No deadlock across the two mailboxes: while anything is left to do, some thread can move. At rest,
      every accepted job has been passed on, and every non-uplink call processed and forwarded. */
  lemma DeadlockFree(d: Duplex, trace: seq<State>, steps: seq<Step>, i: nat)
    requires Supported(d) && IsRun(d, trace, steps) && i < |trace|
    ensures !Resting(trace[i]) ==> exists a :: Progressing(a) && Enabled(trace[i], a)
    ensures Resting(trace[i]) ==>
              && |trace[i].r.passed| == |R.Taken(trace[i].r.offers)|
              && trace[i].t.processed == T.NonUplink(trace[i].t.calls)
              && |trace[i].t.forwarded| == |trace[i].t.processed|
  {
    RunKeepsInv(d, trace, steps, i);
    if Resting(trace[i]) {
      AtRest(trace[i]);
    } else {
      var a := SomeStep(d, trace[i]);
    }
  }

  lemma AtRest(s: State)
    requires R.Inv(s.r) && T.Inv(s.t) && Resting(s)
    ensures |s.r.passed| == |R.Taken(s.r.offers)|
    ensures s.t.processed == T.NonUplink(s.t.calls) && |s.t.forwarded| == |s.t.processed|
  {
    T.Quiescent(s.t);
    hide T.Inv, R.Contents, R.Prefix, R.PassedInv, R.Control;
    assert R.Counting(s.r);
    assert !s.r.work.WReleaseUnlock? && !s.r.work.WArgs?;
    hide R.Inv;
  }

  /** The jobs in wakeup_tx's field order. */
  ghost function Sent(d: Duplex, acc: seq<seq<int>>): seq<seq<int>>
    requires Supported(d) && forall k | 0 <= k < |acc| :: |acc[k]| == 5
  {
    seq(|acc|, k requires 0 <= k < |acc| => CallFrom(d, acc[k]).job)
  }

  /** In FDD, where no subframe is uplink only: at rest L1_thread_tx has processed exactly the accepted
      jobs, in order and once each, if and only if every call was intact. */
  lemma ExactlyOnceInFdd(trace: seq<State>, steps: seq<Step>, i: nat)
    requires IsRun(FDD, trace, steps) && i < |trace| && Resting(trace[i])
    ensures
      var r, t := trace[i].r, trace[i].t;
      var acc := R.Taken(r.offers);
      && |r.passed| == |acc| && (forall k | 0 <= k < |acc| :: |acc[k]| == 5)
      && (t.processed == Sent(FDD, acc) <==> forall k | 0 <= k < |acc| :: Intact(acc, r.passed, k))
  {
    EndToEnd(FDD, trace, steps, i);
    DeadlockFree(FDD, trace, steps, i);
    RunKeepsInv(FDD, trace, steps, i);
    var r, t := trace[i].r, trace[i].t;
    var acc := R.Taken(r.offers);
    assert t.calls == CallsOf(FDD, r.passed);
    hide Inv, IsRun, Resting, T.InOrder, R.Taken, Intact;
    FddCalls(t.calls, r.passed);
    FddEqual(t.calls, acc);
  }

  /** In every duplex mode: at rest, intact calls mean that L1_thread_tx has processed exactly the accepted
      jobs that are not uplink only, in order and once each. */
  lemma ExactlyOnceIfIntact(d: Duplex, trace: seq<State>, steps: seq<Step>, i: nat)
    requires Supported(d) && IsRun(d, trace, steps) && i < |trace| && Resting(trace[i])
    ensures
      var r, t := trace[i].r, trace[i].t;
      var acc := R.Taken(r.offers);
      && |r.passed| == |acc| && (forall k | 0 <= k < |acc| :: |acc[k]| == 5)
      && ((forall k | 0 <= k < |acc| :: Intact(acc, r.passed, k))
          ==> t.processed == T.NonUplink(Due(d, acc, |acc|)) && |t.forwarded| == |t.processed|)
  {
    hide IsRun, Resting, Intact, T.InOrder, R.Taken;
    EndToEnd(d, trace, steps, i);
    DeadlockFree(d, trace, steps, i);
  }

  lemma FddCalls(calls: seq<T.Call>, passed: seq<R.Passed>)
    requires calls == CallsOf(FDD, passed)
    ensures forall k | 0 <= k < |calls| :: !calls[k].uplink
  {
  }

  lemma FddEqual(calls: seq<T.Call>, acc: seq<seq<int>>)
    requires |calls| == |acc| && (forall k | 0 <= k < |acc| :: |acc[k]| == 5)
    requires forall k | 0 <= k < |calls| :: !calls[k].uplink
    ensures T.NonUplink(calls) == Sent(FDD, acc) <==> calls == Due(FDD, acc, |acc|)
  {
    NoneFiltered(calls);
    var due := Due(FDD, acc, |acc|);
    if T.NonUplink(calls) == Sent(FDD, acc) {
      forall k | 0 <= k < |calls| ensures calls[k] == due[k] {
        assert T.NonUplink(calls)[k] == Sent(FDD, acc)[k];
      }
    }
  }

  lemma {:induction false} NoneFiltered(calls: seq<T.Call>)
    requires forall k | 0 <= k < |calls| :: !calls[k].uplink
    ensures |T.NonUplink(calls)| == |calls|
    ensures forall k | 0 <= k < |calls| :: T.NonUplink(calls)[k] == calls[k].job
  {
    if calls != [] {
      NoneFiltered(calls[..|calls| - 1]);
    }
  }

  // ----- the fields that arrive -----

  /** subframe_tx is an uplink subframe. */
  predicate UplinkOnly(d: Duplex, subframeTx: int)
    requires Supported(d)
  {
    0 <= subframeTx < 10 && SubframeSelect(d, subframeTx) == UL
  }

  /** Field f of the arguments of call k: of the processed job, or of the next one if overwritten in time. */
  ghost function Argument(acc: seq<seq<int>>, passed: seq<R.Passed>, k: nat, f: nat): int
    requires k < |passed| && f < 5 && k < |acc| && |acc[k]| == 5
    requires f in passed[k].fromNext ==> k + 1 < |acc| && |acc[k + 1]| == 5
  {
    if f in passed[k].fromNext then acc[k + 1][f] else acc[k][f]
  }

  /** In every run, what the k-th wakeup_tx call stores, field by field: subframe_rx, frame_rx, subframe_tx,
      frame_tx and timestamp_tx of the offer, whose order is timestamp_tx, frame_rx, subframe_rx, frame_tx,
      subframe_tx. It is ignored exactly if subframe_tx is an uplink subframe. */
  lemma CallsInFields(d: Duplex, trace: seq<State>, steps: seq<Step>, i: nat, k: nat)
    requires Supported(d) && IsRun(d, trace, steps) && i < |trace| && k < |trace[i].r.passed|
    ensures
      var acc, passed, calls := R.Taken(trace[i].r.offers), trace[i].r.passed, trace[i].t.calls;
      && |calls| == |passed| && k < |acc| && |acc[k]| == 5
      && (passed[k].fromNext != {} ==> k + 1 < |acc| && |acc[k + 1]| == 5)
      && calls[k].job == [Argument(acc, passed, k, 2), Argument(acc, passed, k, 1), Argument(acc, passed, k, 4),
                          Argument(acc, passed, k, 3), Argument(acc, passed, k, 0)]
      && calls[k].uplink == UplinkOnly(d, Argument(acc, passed, k, 4))
  {
    RunKeepsInv(d, trace, steps, i);
    hide IsRun, R.Inv, T.Inv, R.GoodPass, R.Taken, CallFrom, Read, Argument, UplinkOnly;
    AllPasses(trace[i].r);
    CallInFields(d, R.Taken(trace[i].r.offers), trace[i].r.passed, k);
  }

  lemma CallInFields(d: Duplex, acc: seq<seq<int>>, passed: seq<R.Passed>, k: nat)
    requires Supported(d) && k < |passed| && R.GoodPass(acc, k, passed[k])
    ensures k < |acc| && |acc[k]| == 5 && (passed[k].fromNext != {} ==> k + 1 < |acc| && |acc[k + 1]| == 5)
    ensures
      var c := CallFrom(d, Read(passed[k].args));
      && c.job == [Argument(acc, passed, k, 2), Argument(acc, passed, k, 1), Argument(acc, passed, k, 4),
                   Argument(acc, passed, k, 3), Argument(acc, passed, k, 0)]
      && c.uplink == UplinkOnly(d, Argument(acc, passed, k, 4))
  {
    hide SubframeSelect;
    assert forall f | f in R.FIELDS :: Read(passed[k].args)[f] == Argument(acc, passed, k, f);
    assert 0 in R.FIELDS && 1 in R.FIELDS && 2 in R.FIELDS && 3 in R.FIELDS && 4 in R.FIELDS;
  }

  /** The accepted jobs that are not uplink only. */
  ghost function Downlink(d: Duplex, acc: seq<seq<int>>): seq<seq<int>>
    requires Supported(d) && forall k | 0 <= k < |acc| :: |acc[k]| == 5
  {
    if acc == [] then []
    else
      var n := |acc| - 1;
      Downlink(d, acc[..n]) + if UplinkOnly(d, acc[n][4]) then [] else [acc[n]]
  }

  /** What L1_thread_tx works on and what it hands to wakeup_txfh, for these jobs. */
  ghost predicate Delivered(due: seq<seq<int>>, processed: seq<seq<int>>, forwarded: seq<seq<int>>) {
    && |processed| == |forwarded| == |due|
    && forall k | 0 <= k < |due| ::
         var a := due[k];
         && |a| == 5
         && processed[k] == [a[2], a[1], a[4], a[3], a[0]]
         && forwarded[k] == [a[4], a[3], a[0]]
  }

  /** At rest and with every call intact: L1_thread_tx has worked on exactly the accepted jobs that are not
      uplink only, in order, with every field in its place, and has handed their subframe_tx, frame_tx and
      timestamp_tx to wakeup_txfh. */
  lemma DeliveredInFields(d: Duplex, trace: seq<State>, steps: seq<Step>, i: nat)
    requires Supported(d) && IsRun(d, trace, steps) && i < |trace| && Resting(trace[i])
    ensures
      var r, t := trace[i].r, trace[i].t;
      var acc := R.Taken(r.offers);
      && |r.passed| == |acc| && (forall k | 0 <= k < |acc| :: |acc[k]| == 5)
      && ((forall k | 0 <= k < |acc| :: Intact(acc, r.passed, k))
          ==> Delivered(Downlink(d, acc), t.processed, t.forwarded))
  {
    ExactlyOnceIfIntact(d, trace, steps, i);
    EndToEnd(d, trace, steps, i);
    hide IsRun, Resting, Intact, R.Taken, Delivered, Downlink, T.NonUplink, Due;
    var t, acc := trace[i].t, R.Taken(trace[i].r.offers);
    if forall k | 0 <= k < |acc| :: Intact(acc, trace[i].r.passed, k) {
      AllDelivered(d, acc, t.processed, t.forwarded);
    }
  }

  lemma AllDelivered(d: Duplex, acc: seq<seq<int>>, processed: seq<seq<int>>, forwarded: seq<seq<int>>)
    requires Supported(d) && forall k | 0 <= k < |acc| :: |acc[k]| == 5
    requires processed == T.NonUplink(Due(d, acc, |acc|)) && |forwarded| == |processed|
    requires forall k | 0 <= k < |forwarded| :: |processed[k]| == 5 && forwarded[k] == processed[k][2..]
    ensures Delivered(Downlink(d, acc), processed, forwarded)
  {
    DueInFields(d, acc, |acc|);
    assert acc[..|acc|] == acc;
    hide T.NonUplink, Due, Downlink;
  }

  lemma {:induction false} DueInFields(d: Duplex, acc: seq<seq<int>>, n: nat)
    requires Supported(d) && n <= |acc| && forall k | 0 <= k < |acc| :: |acc[k]| == 5
    ensures
      var jobs, due := T.NonUplink(Due(d, acc, n)), Downlink(d, acc[..n]);
      && |jobs| == |due|
      && forall k | 0 <= k < |due| ::
           |due[k]| == 5 && jobs[k] == [due[k][2], due[k][1], due[k][4], due[k][3], due[k][0]]
  {
    if n > 0 {
      DueInFields(d, acc, n - 1);
      assert Due(d, acc, n)[..n - 1] == Due(d, acc, n - 1);
      assert acc[..n][..n - 1] == acc[..n - 1];
      hide SubframeSelect;
    }
  }

  /** What wakeup_rxtx offers for a radio unit that has received `rx` at timestampRx. */
  function OfferOf(spt: int, ahead: nat, timestampRx: int, rx: Sfn): R.Job {
    [timestampRx + ahead * spt, rx.frame, rx.tti, LookAhead(rx, ahead).frame, LookAhead(rx, ahead).tti]
  }

  /** The job is the offer of a unit in step, at some non-negative timestamp. */
  ghost predicate InStepOffer(spt: int, ahead: nat, a: seq<int>)
    requires spt > 0
  {
    exists ts: int :: ts >= 0 && a == OfferOf(spt, ahead, ts, Decode(ts, spt))
  }

  /** What such an offer says: the unit's own subframe as received, its transmit subframe `ahead` later modulo
      10240, and the timestamp of that one. */
  lemma OfferInFields(spt: int, ahead: nat, ts: int)
    requires spt > 0 && ahead <= 10 && ts >= 0
    ensures
      var a, rx := OfferOf(spt, ahead, ts, Decode(ts, spt)), Decode(ts, spt);
      && a[0] == ts + ahead * spt && a[1] == rx.frame && a[2] == rx.tti
      && 0 <= a[4] < 10 && 0 <= a[3] < 1024 && a[3] * 10 + a[4] == Hyper(a[1] * 10 + a[2] + ahead)
  {
    hide Decode, LookAhead, Hyper;
    LookAheadUpToTen(ts, spt, ahead);
    MulNonNegative(ahead, spt);
    DecodeShift(ts, spt, ahead);
  }

  /** So every triple that reaches wakeup_txfh is consistent: the frame and subframe are those its timestamp
      decodes to, if the units were in step, the look-ahead is at most ten and every call was intact. */
  lemma ForwardedDecodes(d: Duplex, spt: int, ahead: nat, trace: seq<State>, steps: seq<Step>, i: nat, k: nat)
    requires Supported(d) && IsRun(d, trace, steps) && i < |trace| && Resting(trace[i])
    requires spt > 0 && ahead <= 10 && k < |trace[i].t.forwarded|
    requires
      var acc := R.Taken(trace[i].r.offers);
      && (forall j | 0 <= j < |acc| :: InStepOffer(spt, ahead, acc[j]))
      && (forall j | 0 <= j < |acc| && j < |trace[i].r.passed| :: Intact(acc, trace[i].r.passed, j))
    ensures
      var f := trace[i].t.forwarded[k];
      |f| == 3 && Sfn(f[1], f[0]) == Decode(f[2], spt)
  {
    DeliveredInFields(d, trace, steps, i);
    hide IsRun, Resting, Intact, R.Taken, Downlink, InStepOffer;
    var acc := R.Taken(trace[i].r.offers);
    var a := Downlink(d, acc)[k];
    DownlinkSubset(d, acc, k);
    OfferDecodes(spt, ahead, a);
  }

  lemma {:induction false} DownlinkSubset(d: Duplex, acc: seq<seq<int>>, k: nat)
    requires Supported(d) && (forall j | 0 <= j < |acc| :: |acc[j]| == 5) && k < |Downlink(d, acc)|
    ensures exists j :: 0 <= j < |acc| && Downlink(d, acc)[k] == acc[j]
  {
    var n := |acc| - 1;
    hide UplinkOnly;
    if k < |Downlink(d, acc[..n])| {
      DownlinkSubset(d, acc[..n], k);
      var j :| 0 <= j < n && Downlink(d, acc[..n])[k] == acc[..n][j];
      assert Downlink(d, acc)[k] == acc[j];
    } else {
      assert Downlink(d, acc)[k] == acc[n];
    }
  }

  lemma OfferDecodes(spt: int, ahead: nat, a: seq<int>)
    requires spt > 0 && ahead <= 10 && InStepOffer(spt, ahead, a)
    ensures |a| == 5 && Sfn(a[3], a[4]) == Decode(a[0], spt)
  {
    hide Decode, LookAhead;
    var ts: int :| ts >= 0 && a == OfferOf(spt, ahead, ts, Decode(ts, spt));
    LookAheadUpToTen(ts, spt, ahead);
  }

  // ----- progress -----

  ghost function Rank(s: State): int {
    43 * R.Rank(s.r) + T.Rank(s.t)
  }

  lemma PassOnProgress(d: Duplex, s: State)
    requires Supported(d) && Inv(d, s) && Enabled(s, PassOn)
    ensures Rank(Apply(d, s, PassOn)) < Rank(s)
  {
    R.StepProgress(s.r, R.Work(0));
    var c := CallFrom(d, Read(s.r.work.args));
    EnterRank(s.t, c);
    hide R.Rank, T.Rank, R.Inv, T.Inv, R.Apply, T.Apply;
  }

  lemma EnterRank(t: T.State, c: T.Call)
    requires t.rx.RIdle?
    ensures T.Rank(T.Apply(t, T.Enter(c))) <= T.Rank(t) + 42
  {
    var t' := T.Apply(t, T.Enter(c));
    assert T.Pending(t') == T.Pending(t);
  }

  lemma StepProgress(d: Duplex, s: State, a: Step)
    requires Supported(d) && Inv(d, s) && Enabled(s, a) && Progressing(a)
    ensures Rank(Apply(d, s, a)) < Rank(s)
  {
    match a
    case Radio(b) =>
      R.StepProgress(s.r, b);
      hide R.Rank, T.Rank, R.Inv, T.Inv, R.Apply;
    case PassOn =>
      PassOnProgress(d, s);
    case Transmit(b) =>
      if b.Rx? { T.RxProgress(s.t); } else { T.TxProgress(s.t); }
      hide R.Rank, T.Rank, R.Inv, T.Inv;
  }

  /** Bounded draining end to end: once new offers and spurious wake-ups cease, the whole pipeline comes
      to rest within Rank further steps, from every reachable state. */
  lemma {:induction false} Drains(d: Duplex, trace: seq<State>, steps: seq<Step>, from: nat)
    requires Supported(d) && IsRun(d, trace, steps) && from < |trace|
    requires forall i | from <= i < |steps| :: Progressing(steps[i])
    ensures |steps| - from <= Rank(trace[from])
    decreases |trace| - from
  {
    RunKeepsInv(d, trace, steps, from);
    if from < |steps| {
      hide Inv, Apply, Enabled, Rank, Progressing;
      StepProgress(d, trace[from], steps[from]);
      Drains(d, trace, steps, from + 1);
    } else {
      R.RankBounds(trace[from].r);
      T.RankNonNegative(trace[from].t);
      hide R.Inv, T.Inv, R.Rank, T.Rank;
    }
  }

  // ----- a run that breaks exactly-once -----

  lemma Extend(d: Duplex, trace: seq<State>, steps: seq<Step>, a: Step) returns (trace': seq<State>, steps': seq<Step>)
    requires Supported(d) && IsRun(d, trace, steps) && Enabled(trace[|steps|], a)
    ensures IsRun(d, trace', steps') && |trace'| == |steps'| + 1 && trace <= trace'
    ensures trace'[|steps'|] == Apply(d, trace[|steps|], a)
  {
    hide Enabled, Apply;
    trace', steps' := trace + [Apply(d, trace[|steps|], a)], steps + [a];
    assert trace'[0] == trace[0];
  }

  lemma RunLength(d: Duplex, trace: seq<State>, steps: seq<Step>)
    requires Supported(d) && IsRun(d, trace, steps)
    ensures |trace| == |steps| + 1
  {
  }

  /** One step of RxMailbox passes arguments on exactly if L1_thread moves when it is ready. */
  lemma PassedBy(r: R.State, a: R.Step)
    requires R.Enabled(r, a)
    ensures r.passed <= R.Apply(r, a).passed
    ensures |R.Apply(r, a).passed| == |r.passed| + if a.Work? && Ready(r) then 1 else 0
  {
  }

  lemma {:induction false} PassedGrows(rtrace: seq<R.State>, rsteps: seq<R.Step>, n: nat)
    requires R.IsRun(rtrace, rsteps) && n <= |rsteps|
    ensures |rtrace[n].passed| <= |rtrace[|rsteps|].passed|
    decreases |rsteps| - n
  {
    if n < |rsteps| {
      PassedBy(rtrace[n], rsteps[n]);
      PassedGrows(rtrace, rsteps, n + 1);
    }
  }

  /** A stretch of an RxMailbox run in which nothing is passed on is a stretch of a run here, as long as
      L1_thread is not inside wakeup_tx. */
  lemma {:induction false} Lift(d: Duplex, trace: seq<State>, steps: seq<Step>,
                                rtrace: seq<R.State>, rsteps: seq<R.Step>, n: nat)
    returns (trace': seq<State>, steps': seq<Step>)
    requires Supported(d) && IsRun(d, trace, steps) && R.IsRun(rtrace, rsteps) && n <= |rsteps|
    requires trace[|steps|].r == rtrace[n] && trace[|steps|].t.rx.RIdle?
    requires |rtrace[n].passed| == |rtrace[|rsteps|].passed|
    ensures IsRun(d, trace', steps') && |trace'| == |steps'| + 1
    ensures trace'[|steps'|] == State(rtrace[|rsteps|], trace[|steps|].t)
    decreases |rsteps| - n
  {
    RunLength(d, trace, steps);
    if n == |rsteps| {
      trace', steps' := trace, steps;
    } else {
      PassedBy(rtrace[n], rsteps[n]);
      PassedGrows(rtrace, rsteps, n + 1);
      assert R.Enabled(rtrace[n], rsteps[n]) && rtrace[n + 1] == R.Apply(rtrace[n], rsteps[n]);
      hide IsRun, R.IsRun, R.Apply, R.Enabled;
      trace', steps' := Extend(d, trace, steps, Radio(rsteps[n]));
      trace', steps' := Lift(d, trace', steps', rtrace, rsteps, n + 1);
    }
  }

  lemma TransmitStep(t: T.State) returns (b: T.Step)
    requires T.Inv(t) && !t.rx.RIdle?
    ensures (b.Rx? || b.Tx?) && T.Enabled(t, b) && T.Rank(T.Apply(t, b)) < T.Rank(t)
  {
    T.Quiescent(t);
    assert T.Control(t);
    hide T.Inv, T.Rank;
    if T.Enabled(t, T.Rx) {
      T.RxProgress(t);
      b := T.Rx;
    } else {
      T.TxProgress(t);
      b := T.Tx;
    }
  }

  /** A wakeup_tx call returns once L1_thread_tx is given time. */
  lemma {:induction false} ReturnFromWakeup(d: Duplex, trace: seq<State>, steps: seq<Step>)
    returns (trace': seq<State>, steps': seq<Step>)
    requires Supported(d) && IsRun(d, trace, steps)
    ensures IsRun(d, trace', steps') && |trace'| == |steps'| + 1
    ensures trace'[|steps'|].r == trace[|steps|].r && trace'[|steps'|].t.rx.RIdle?
    decreases T.Rank(trace[|steps|].t)
  {
    RunLength(d, trace, steps);
    RunKeepsInv(d, trace, steps, |steps|);
    var s := trace[|steps|];
    if s.t.rx.RIdle? {
      trace', steps' := trace, steps;
    } else {
      T.RankNonNegative(s.t);
      hide IsRun, R.Inv, T.Inv, T.Rank, T.Apply;
      var b := TransmitStep(s.t);
      trace', steps' := Extend(d, trace, steps, Transmit(b));
      trace', steps' := ReturnFromWakeup(d, trace', steps');
    }
  }

  predicate AllIdle(r: R.State) {
    forall i | 0 <= i < |r.prods| :: r.prods[i].PIdle?
  }

  lemma OffersKept(d: Duplex, s: State, a: Step)
    requires Supported(d) && Enabled(s, a) && Progressing(a) && AllIdle(s.r)
    ensures
      var s' := Apply(d, s, a);
      s'.r.offers == s.r.offers && AllIdle(s'.r) && s.r.passed <= s'.r.passed
  {
  }

  /** Every run with no offer under way can be continued to rest, without another offer. */
  lemma {:induction false} ComesToRest(d: Duplex, trace: seq<State>, steps: seq<Step>)
    returns (trace': seq<State>, steps': seq<Step>)
    requires Supported(d) && IsRun(d, trace, steps) && AllIdle(trace[|steps|].r)
    ensures IsRun(d, trace', steps') && |trace'| == |steps'| + 1 && Resting(trace'[|steps'|])
    ensures trace'[|steps'|].r.offers == trace[|steps|].r.offers
    ensures trace[|steps|].r.passed <= trace'[|steps'|].r.passed
    decreases Rank(trace[|steps|])
  {
    RunLength(d, trace, steps);
    RunKeepsInv(d, trace, steps, |steps|);
    var s := trace[|steps|];
    if Resting(s) {
      trace', steps' := trace, steps;
    } else {
      RankNonNegative(d, s);
      hide IsRun, Inv, Rank, Apply, Enabled, Progressing, AllIdle, Resting;
      var a := SomeStep(d, s);
      StepProgress(d, s, a);
      OffersKept(d, s, a);
      trace', steps' := Extend(d, trace, steps, a);
      trace', steps' := ComesToRest(d, trace', steps');
    }
  }

  lemma RankNonNegative(d: Duplex, s: State)
    requires Supported(d) && Inv(d, s)
    ensures Rank(s) >= 0
  {
    R.RankBounds(s.r);
    T.RankNonNegative(s.t);
    hide R.Inv, T.Inv, R.Rank, T.Rank;
  }

  /** The RxMailbox side: `first` is processed and released, and `second` is published before L1_thread
      reads the arguments. */
  lemma RadioFirst(first: R.Job, second: R.Job) returns (rtrace: seq<R.State>, rsteps: seq<R.Step>)
    ensures R.IsRun(rtrace, rsteps) && |rtrace| == |rsteps| + 1 && rtrace[0] == R.Init(first, 1)
    ensures
      var r := rtrace[|rsteps|];
      && Ready(r) && r.work.fromNext == R.FIELDS && r.cnt == 0 && r.owner == R.Producer(0)
      && r.prods == [R.PWrite(second, 5)] && r.slot == second
      && r.offers == [R.Offer(first, true), R.Offer(second, true)] && r.passed == []
  {
    hide R.IsRun, R.Overwritten, R.Taken;
    rtrace, rsteps := R.FirstRelease(first, 1, 0, first);
    rtrace, rsteps := R.Publish(rtrace, rsteps, 0, second);
    ghost var mid := rtrace[|rsteps|];
    assert mid.prods == [R.PWrite(second, 5)] && mid.offers == [R.Offer(first, true), R.Offer(second, true)];
    AllOverwritten(mid, first, second);
    rtrace, rsteps := R.ReadSome(rtrace, rsteps, R.FIELDS);
    AllRead(mid, rtrace[|rsteps|]);
  }

  /** What L1_thread has read once it read everything. */
  lemma AllRead(s: R.State, c: R.State)
    requires R.ReadingFrom(s, c, R.FIELDS) && R.OverwrittenOf(s, c, R.FIELDS) && s.work == R.WArgs(map[], {})
    ensures Ready(c) && c == s.(work := c.work)
    ensures (forall f | f in R.FIELDS :: R.Overwritten(s, f)) ==> c.work.fromNext == R.FIELDS
    ensures (forall f | f in R.FIELDS :: !R.Overwritten(s, f)) ==> c.work.fromNext == {}
  {
    hide R.Overwritten;
  }

  /** Up to the first call, which is made with `second`. The RxMailbox side of the run comes with it. */
  lemma FirstCall(d: Duplex, first: R.Job, second: R.Job)
    returns (trace: seq<State>, steps: seq<Step>, rtrace: seq<R.State>, rsteps: seq<R.Step>)
    requires Supported(d)
    ensures IsRun(d, trace, steps) && |trace| == |steps| + 1 && trace[|steps|].t.rx.RIdle?
    ensures R.IsRun(rtrace, rsteps) && |rtrace| == |rsteps| + 1 && trace[|steps|].r == rtrace[|rsteps|]
    ensures
      var r := trace[|steps|].r;
      && r.work.WLock? && r.cnt == 0 && r.owner == R.Producer(0) && r.prods == [R.PWrite(second, 5)]
      && r.slot == second && r.offers == [R.Offer(first, true), R.Offer(second, true)]
      && |r.passed| == 1 && r.passed[0].fromNext == R.FIELDS
  {
    hide R.IsRun, IsRun, CallFrom, T.Apply;
    rtrace, rsteps := RadioFirst(first, second);
    trace, steps := Begin(d, first);
    trace, steps := Lift(d, trace, steps, rtrace, rsteps, 0);
    trace, steps := Extend(d, trace, steps, PassOn);
    rtrace, rsteps := R.Finish(rtrace, rsteps);
    trace, steps := ReturnFromWakeup(d, trace, steps);
  }

  lemma Begin(d: Duplex, slot: R.Job) returns (trace: seq<State>, steps: seq<Step>)
    requires Supported(d)
    ensures IsRun(d, trace, steps) && |trace| == |steps| + 1 && steps == []
    ensures trace[0].r == R.Init(slot, 1) && trace[0].t.rx.RIdle?
  {
    var tSlot: T.Job := [0, 0, 0, 0, 0];
    trace, steps := [Init(slot, 1, tSlot)], [];
  }

  lemma AllOverwritten(r: R.State, first: R.Job, second: R.Job)
    requires r.prods == [R.PWrite(second, 5)] && r.owner == R.Producer(0) && r.passed == []
    requires r.offers == [R.Offer(first, true), R.Offer(second, true)]
    ensures R.Taken(r.offers) == [first, second]
    ensures forall f | f in R.FIELDS :: R.Overwritten(r, f)
  {
    TwoTaken(first, second);
  }

  lemma TwoTaken(first: R.Job, second: R.Job)
    ensures R.Taken([R.Offer(first, true), R.Offer(second, true)]) == [first, second]
  {
    R.TakenAppend([], R.Offer(first, true));
    R.TakenAppend([R.Offer(first, true)], R.Offer(second, true));
    assert [] + [R.Offer(first, true)] == [R.Offer(first, true)];
    assert [R.Offer(first, true)] + [R.Offer(second, true)] == [R.Offer(first, true), R.Offer(second, true)];
  }

  /** The RxMailbox side up to the second call: `second` is processed and released, and read undisturbed. */
  lemma RadioSecond(rtrace: seq<R.State>, rsteps: seq<R.Step>, first: R.Job, second: R.Job)
    returns (rtrace': seq<R.State>, rsteps': seq<R.Step>)
    requires R.IsRun(rtrace, rsteps)
    requires
      var r := rtrace[|rsteps|];
      && r.work.WLock? && r.cnt == 0 && r.owner == R.Producer(0) && r.prods == [R.PWrite(second, 5)]
      && r.offers == [R.Offer(first, true), R.Offer(second, true)] && |r.passed| == 1
    ensures R.IsRun(rtrace', rsteps') && |rtrace'| == |rsteps'| + 1 && rtrace <= rtrace'
    ensures
      var r, r' := rtrace[|rsteps|], rtrace'[|rsteps'|];
      && Ready(r') && r'.work.fromNext == {} && r'.prods == [R.PIdle]
      && r'.offers == r.offers && r'.passed == r.passed
  {
    R.RunLength(rtrace, rsteps);
    hide R.IsRun, R.Overwritten, R.Taken;
    rtrace', rsteps' := R.Extend(rtrace, rsteps, R.Prod(0));
    rtrace', rsteps' := R.Extend(rtrace', rsteps', R.Prod(0));
    hide R.Apply, R.Enabled;
    rtrace', rsteps' := R.Process(rtrace', rsteps');
    ghost var mid := rtrace'[|rsteps'|];
    NoneOverwritten(mid, first, second);
    rtrace', rsteps' := R.ReadSome(rtrace', rsteps', R.FIELDS);
    AllRead(mid, rtrace'[|rsteps'|]);
  }

  /** Up to the second call, which is intact. */
  lemma SecondCall(d: Duplex, first: R.Job, second: R.Job) returns (trace: seq<State>, steps: seq<Step>)
    requires Supported(d)
    ensures IsRun(d, trace, steps) && |trace| == |steps| + 1
    ensures
      var r := trace[|steps|].r;
      && AllIdle(r) && r.offers == [R.Offer(first, true), R.Offer(second, true)]
      && |r.passed| == 2 && r.passed[0].fromNext == R.FIELDS && r.passed[1].fromNext == {}
  {
    hide R.IsRun, IsRun, CallFrom, T.Apply;
    var rtrace, rsteps;
    trace, steps, rtrace, rsteps := FirstCall(d, first, second);
    ghost var n := |rsteps|;
    rtrace, rsteps := RadioSecond(rtrace, rsteps, first, second);
    trace, steps := Lift(d, trace, steps, rtrace, rsteps, n);
    trace, steps := Extend(d, trace, steps, PassOn);
  }

  lemma NoneOverwritten(r: R.State, first: R.Job, second: R.Job)
    requires r.offers == [R.Offer(first, true), R.Offer(second, true)] && |r.passed| == 1
    ensures forall f | f in R.FIELDS :: !R.Overwritten(r, f)
  {
    TwoTaken(first, second);
  }

  /** Exactly-once fails: for any two jobs there is a run, at rest, in which both were offered, accepted and
      processed by L1_thread, and in which L1_thread_tx got the second one twice. */
  lemma DuplicateRun(d: Duplex, first: R.Job, second: R.Job) returns (trace: seq<State>, steps: seq<Step>)
    requires Supported(d)
    ensures IsRun(d, trace, steps) && |trace| == |steps| + 1 && Resting(trace[|steps|])
    ensures
      var r, t, c := trace[|steps|].r, trace[|steps|].t, CallFrom(d, second);
      && R.Taken(r.offers) == r.processed == [first, second]
      && t.calls == [c, c] && t.processed == if c.uplink then [] else [c.job, c.job]
  {
    hide IsRun, Resting, Enabled, Apply, AllIdle, CallFrom, T.InOrder, Due, Intact, R.Taken, T.NonUplink;
    trace, steps := SecondCall(d, first, second);
    ghost var passed := trace[|steps|].r.passed;
    trace, steps := ComesToRest(d, trace, steps);
    TwoTaken(first, second);
    DeadlockFree(d, trace, steps, |steps|);
    ghost var s := trace[|steps|];
    assert s.r.passed == passed;
    SentTwice(d, trace, steps, |steps|, 0);
    EndToEnd(d, trace, steps, |steps|);
    assert s.t.calls == [CallFrom(d, second), CallFrom(d, second)];
    TwoCalls(CallFrom(d, second));
    AtRestProcessed(s);
  }

  lemma AtRestProcessed(s: State)
    requires Resting(s)
    ensures s.r.processed == R.Taken(s.r.offers)
  {
  }

  lemma TwoCalls(c: T.Call)
    ensures T.NonUplink([c, c]) == if c.uplink then [] else [c.job, c.job]
  {
    assert [c, c][..1] == [c] && [c][..0] == [];
    assert T.NonUplink([c]) == if c.uplink then [] else [c.job];
  }

  /** In FDD, for any two different jobs: what L1_thread_tx processed is not the accepted jobs. */
  lemma ExactlyOnceFails(first: R.Job, second: R.Job) returns (trace: seq<State>, steps: seq<Step>)
    requires first != second
    ensures IsRun(FDD, trace, steps) && |trace| == |steps| + 1 && Resting(trace[|steps|])
    ensures R.Taken(trace[|steps|].r.offers) == [first, second]
    ensures trace[|steps|].t.processed != Sent(FDD, [first, second])
  {
    trace, steps := DuplicateRun(FDD, first, second);
    hide IsRun, Resting;
    assert trace[|steps|].t.processed[0] == CallFrom(FDD, second).job;
    assert Sent(FDD, [first, second])[0] == CallFrom(FDD, first).job;
    if CallFrom(FDD, first).job == CallFrom(FDD, second).job {
      CallInjective(FDD, first, second);
    }
  }

  // ----- in TDD, damage that cancels out -----

  /** As RadioSecond, with `third` published before L1_thread reads the arguments for `second`. */
  lemma RadioChain(rtrace: seq<R.State>, rsteps: seq<R.Step>, first: R.Job, second: R.Job, third: R.Job)
    returns (rtrace': seq<R.State>, rsteps': seq<R.Step>)
    requires R.IsRun(rtrace, rsteps)
    requires
      var r := rtrace[|rsteps|];
      && r.work.WLock? && r.cnt == 0 && r.owner == R.Producer(0) && r.prods == [R.PWrite(second, 5)]
      && r.offers == [R.Offer(first, true), R.Offer(second, true)] && |r.passed| == 1
    ensures R.IsRun(rtrace', rsteps') && |rtrace'| == |rsteps'| + 1 && rtrace <= rtrace'
    ensures
      var r, r' := rtrace[|rsteps|], rtrace'[|rsteps'|];
      && Ready(r') && r'.work.fromNext == R.FIELDS && r'.cnt == 0 && r'.owner == R.Producer(0)
      && r'.prods == [R.PWrite(third, 5)] && r'.offers == r.offers + [R.Offer(third, true)] && r'.passed == r.passed
  {
    R.RunLength(rtrace, rsteps);
    hide R.IsRun, R.Overwritten, R.Taken;
    rtrace', rsteps' := R.Extend(rtrace, rsteps, R.Prod(0));
    rtrace', rsteps' := R.Extend(rtrace', rsteps', R.Prod(0));
    hide R.Apply, R.Enabled;
    rtrace', rsteps' := R.Process(rtrace', rsteps');
    rtrace', rsteps' := R.Publish(rtrace', rsteps', 0, third);
    ghost var mid := rtrace'[|rsteps'|];
    assert mid.prods == [R.PWrite(third, 5)];
    ThirdOverwrites(mid, first, second, third);
    rtrace', rsteps' := R.ReadSome(rtrace', rsteps', R.FIELDS);
    AllRead(mid, rtrace'[|rsteps'|]);
  }

  lemma ThirdOverwrites(r: R.State, first: R.Job, second: R.Job, third: R.Job)
    requires r.prods == [R.PWrite(third, 5)] && r.owner == R.Producer(0) && |r.passed| == 1
    requires r.offers == [R.Offer(first, true), R.Offer(second, true)] + [R.Offer(third, true)]
    ensures forall f | f in R.FIELDS :: R.Overwritten(r, f)
  {
    ThreeTaken(first, second, third);
  }

  lemma ThreeTaken(first: R.Job, second: R.Job, third: R.Job)
    ensures R.Taken([R.Offer(first, true), R.Offer(second, true)] + [R.Offer(third, true)]) == [first, second, third]
  {
    TwoTaken(first, second);
    R.TakenAppend([R.Offer(first, true), R.Offer(second, true)], R.Offer(third, true));
  }

  /** A run whose first two calls are made with the second and third job. */
  lemma TwoDamaged(d: Duplex, first: R.Job, second: R.Job, third: R.Job) returns (trace: seq<State>, steps: seq<Step>)
    requires Supported(d)
    ensures IsRun(d, trace, steps) && |trace| == |steps| + 1
    ensures
      var r := trace[|steps|].r;
      && AllIdle(r) && R.Taken(r.offers) == [first, second, third] && |r.passed| == 2
      && r.passed[0].fromNext == R.FIELDS && r.passed[1].fromNext == R.FIELDS
  {
    hide R.IsRun, IsRun, CallFrom, T.Apply, R.Taken;
    ThreeTaken(first, second, third);
    var rtrace, rsteps;
    trace, steps, rtrace, rsteps := FirstCall(d, first, second);
    ghost var n := |rsteps|;
    rtrace, rsteps := RadioChain(rtrace, rsteps, first, second, third);
    trace, steps := Lift(d, trace, steps, rtrace, rsteps, n);
    trace, steps := Extend(d, trace, steps, PassOn);
    trace, steps := Release(d, trace, steps, third);
  }

  /** The producer finishes its call. */
  lemma Release(d: Duplex, trace: seq<State>, steps: seq<Step>, job: R.Job) returns (trace': seq<State>, steps': seq<Step>)
    requires Supported(d) && IsRun(d, trace, steps)
    requires var r := trace[|steps|].r; r.owner == R.Producer(0) && r.prods == [R.PWrite(job, 5)]
    ensures IsRun(d, trace', steps') && |trace'| == |steps'| + 1
    ensures
      var r, r' := trace[|steps|].r, trace'[|steps'|].r;
      AllIdle(r') && r'.offers == r.offers && r'.passed == r.passed
  {
    RunLength(d, trace, steps);
    hide IsRun;
    trace', steps' := Extend(d, trace, steps, Radio(R.Prod(0)));
    trace', steps' := Extend(d, trace', steps', Radio(R.Prod(0)));
  }

  /** Whatever the third call is: the first is not intact, and if the first and third job are uplink only and
      the second is not, L1_thread_tx has nevertheless processed exactly what was due. */
  lemma DamageCancelsOut(d: Duplex, first: R.Job, second: R.Job, third: R.Job)
    returns (trace: seq<State>, steps: seq<Step>)
    requires Supported(d) && CallFrom(d, first).uplink && !CallFrom(d, second).uplink && CallFrom(d, third).uplink
    ensures IsRun(d, trace, steps) && |trace| == |steps| + 1 && Resting(trace[|steps|])
    ensures
      var r, t, acc := trace[|steps|].r, trace[|steps|].t, [first, second, third];
      && R.Taken(r.offers) == acc && |r.passed| == 3 && !Intact(acc, r.passed, 0)
      && t.processed == T.NonUplink(Due(d, acc, 3)) == [CallFrom(d, second).job]
  {
    hide IsRun, Resting, Enabled, Apply, AllIdle, CallFrom, T.InOrder, Intact, R.Taken, T.NonUplink, Due;
    trace, steps := TwoDamaged(d, first, second, third);
    ghost var passed := trace[|steps|].r.passed;
    trace, steps := ComesToRest(d, trace, steps);
    DeadlockFree(d, trace, steps, |steps|);
    ghost var s, acc := trace[|steps|], [first, second, third];
    assert s.r.passed[0] == passed[0] && s.r.passed[1] == passed[1];
    DamagedCalls(d, trace, steps, first, second, third);
    ThreeCalls(s.t.calls[0], s.t.calls[1], s.t.calls[2]);
    DueCalls(d, first, second, third);
    ThreeCalls(CallFrom(d, first), CallFrom(d, second), CallFrom(d, third));
  }

  lemma DueCalls(d: Duplex, a: R.Job, b: R.Job, c: R.Job)
    requires Supported(d)
    ensures Due(d, [a, b, c], 3) == [CallFrom(d, a), CallFrom(d, b), CallFrom(d, c)]
  {
    hide CallFrom;
  }

  lemma ThreeCalls(a: T.Call, b: T.Call, c: T.Call)
    ensures T.NonUplink([a, b, c])
         == (if a.uplink then [] else [a.job]) + (if b.uplink then [] else [b.job]) + (if c.uplink then [] else [c.job])
  {
    assert [a, b, c][..2] == [a, b] && [a, b][..1] == [a] && [a][..0] == [];
    assert T.NonUplink([a]) == if a.uplink then [] else [a.job];
    assert T.NonUplink([a, b]) == T.NonUplink([a]) + if b.uplink then [] else [b.job];
  }

  /** The calls of such a run at rest: the third can only be the third job. */
  lemma DamagedCalls(d: Duplex, trace: seq<State>, steps: seq<Step>, first: R.Job, second: R.Job, third: R.Job)
    requires Supported(d) && IsRun(d, trace, steps) && CallFrom(d, first) != CallFrom(d, second)
    requires
      var r := trace[|steps|].r;
      && R.Taken(r.offers) == [first, second, third] && |r.passed| == 3
      && r.passed[0].fromNext == R.FIELDS && r.passed[1].fromNext == R.FIELDS
    ensures trace[|steps|].t.calls == [CallFrom(d, second), CallFrom(d, third), CallFrom(d, third)]
    ensures !Intact([first, second, third], trace[|steps|].r.passed, 0)
  {
    RunLength(d, trace, steps);
    RunKeepsInv(d, trace, steps, |steps|);
    var s := trace[|steps|];
    AllPasses(s.r);
    assert s.t.calls == CallsOf(d, s.r.passed);
    hide *;
    DamagedPasses(d, R.Taken(s.r.offers), s.r.passed);
  }

  lemma DamagedPasses(d: Duplex, acc: seq<seq<int>>, passed: seq<R.Passed>)
    requires Supported(d) && |acc| == |passed| == 3 && |acc[0]| == |acc[1]| == |acc[2]| == 5
    requires forall k | 0 <= k < |passed| :: R.GoodPass(acc, k, passed[k])
    requires passed[0].fromNext == R.FIELDS && passed[1].fromNext == R.FIELDS
    requires CallFrom(d, acc[0]) != CallFrom(d, acc[1])
    ensures CallsOf(d, passed) == [CallFrom(d, acc[1]), CallFrom(d, acc[2]), CallFrom(d, acc[2])]
    ensures !Intact(acc, passed, 0)
  {
    hide R.GoodPass, CallFrom, Read, Intact;
    WholeJob(acc, 0, passed[0]);
    WholeJob(acc, 1, passed[1]);
    LastPass(acc, 2, passed[2]);
    WholeJob(acc, 2, passed[2]);
    CallIntact(d, acc, passed, 0);
  }

  /** Nothing can have overwritten the last accepted job. */
  lemma LastPass(acc: seq<seq<int>>, k: nat, a: R.Passed)
    requires R.GoodPass(acc, k, a) && k + 1 == |acc|
    ensures a.fromNext == {}
  {
  }
}
