/** The RX-to-TX mailbox between L1_thread (calling wakeup_tx) and L1_thread_tx.
    A transition system over individual lock, test, sleep, field-write, signal and unlock steps of
    the two threads, which share one mutex and one condition variable. */
module TxMailbox {

  /** The five fields written by wakeup_tx, in its order:
      subframe_rx, frame_rx, subframe_tx, frame_tx, timestamp_tx. */
  type Job = j: seq<int> | |j| == 5 witness [0, 0, 0, 0, 0]

  /** Who holds the mutex. */
  datatype Owner = Free | RxThread | TxThread

  /** Program counter of L1_thread inside wakeup_tx. */
  datatype RxPc =
    | RIdle
    | RLock(job: Job)            // about to lock
    | RTest(job: Job)            // holds the mutex, tests instance_cnt == 0
    | RSleep(job: Job)           // in pthread_cond_wait, not notified
    | RWake(job: Job)            // woken, must take the mutex again
    | RWrite(job: Job, k: nat)   // instance_cnt is set, k fields written
    | RUnlock                    // signalled

  /** Program counter of L1_thread_tx: wait_on_condition, processing, completion, wakeup_txfh. */
  datatype TxPc =
    | TLock | TTest | TSleep | TWake | TUnlock
    | TRun(seen: seq<int>)       // phy_procedures_eNB_TX reads the fields without the mutex
    | TLock2
    | TCopy(copy: seq<int>)      // copies subframe_tx, frame_tx, timestamp_tx
    | TSignal(copy: seq<int>)    // instance_cnt is cleared
    | TUnlock2(copy: seq<int>)
    | TForward(copy: seq<int>)   // calls wakeup_txfh

  datatype Call = Call(job: Job, uplink: bool)

  datatype State = State(
    cnt: int,
    slot: Job,
    owner: Owner,
    rx: RxPc,
    tx: TxPc,
    calls: seq<Call>,            // every wakeup_tx call, in order
    processed: seq<seq<int>>,    // what phy_procedures_eNB_TX saw, one entry a run
    forwarded: seq<seq<int>>)    // what was handed to wakeup_txfh

  /** init_eNB_proc. */
  function Init(slot: Job): State {
    State(-1, slot, Free, RIdle, TLock, [], [], [])
  }

  /** Enter: L1_thread calls wakeup_tx. Spurious: a sleeping thread returns without a signal. */
  datatype Step = Enter(call: Call) | Rx | Tx | SpuriousRx | SpuriousTx

  predicate Enabled(s: State, a: Step) {
    match a
    case Enter(_) => s.rx.RIdle?
    case Rx => !s.rx.RIdle? && !s.rx.RSleep? && (s.rx.RLock? || s.rx.RWake? ==> s.owner.Free?)
               && (s.rx.RWrite? ==> s.rx.k <= 5)
    case Tx => !s.tx.TSleep? && (s.tx.TLock? || s.tx.TWake? || s.tx.TLock2? ==> s.owner.Free?)
               && (s.tx.TRun? ==> |s.tx.seen| <= 5) && (s.tx.TCopy? ==> |s.tx.copy| <= 3)
    case SpuriousRx => s.rx.RSleep?
    case SpuriousTx => s.tx.TSleep?
  }

  function Apply(s: State, a: Step): State
    requires Enabled(s, a)
  {
    match a
    case Enter(c) => s.(calls := s.calls + [c], rx := if c.uplink then RIdle else RLock(c.job))
    case Rx => RxStep(s)
    case Tx => TxStep(s)
    case SpuriousRx => s.(rx := RWake(s.rx.job))
    case SpuriousTx => s.(tx := TWake)
  }

  function RxStep(s: State): State
    requires Enabled(s, Rx)
  {
    match s.rx
    case RLock(j) => s.(owner := RxThread, rx := RTest(j))
    case RWake(j) => s.(owner := RxThread, rx := RTest(j))
    case RTest(j) =>
      if s.cnt == 0 then s.(owner := Free, rx := RSleep(j)) else s.(cnt := 0, rx := RWrite(j, 0))
    case RWrite(j, k) =>
      if k < 5 then s.(slot := s.slot[k := j[k]], rx := RWrite(j, k + 1))
      else s.(tx := if s.tx.TSleep? then TWake else s.tx, rx := RUnlock)
    case RUnlock => s.(owner := Free, rx := RIdle)
  }

  function TxStep(s: State): State
    requires Enabled(s, Tx)
  {
    match s.tx
    case TLock => s.(owner := TxThread, tx := TTest)
    case TWake => s.(owner := TxThread, tx := TTest)
    case TTest => if s.cnt < 0 then s.(owner := Free, tx := TSleep) else s.(tx := TUnlock)
    case TUnlock => s.(owner := Free, tx := TRun([]))
    case TRun(seen) =>
      if |seen| < 5 then s.(tx := TRun(seen + [s.slot[|seen|]]))
      else s.(processed := s.processed + [seen], tx := TLock2)
    case TLock2 => s.(owner := TxThread, tx := TCopy([]))
    case TCopy(copy) =>
      if |copy| < 3 then s.(tx := TCopy(copy + [s.slot[2 + |copy|]]))
      else s.(cnt := -1, tx := TSignal(copy))
    case TSignal(copy) => s.(rx := if s.rx.RSleep? then RWake(s.rx.job) else s.rx, tx := TUnlock2(copy))
    case TUnlock2(copy) => s.(owner := Free, tx := TForward(copy))
    case TForward(copy) => s.(forwarded := s.forwarded + [copy], tx := TLock)
  }

  // ----- what every reachable state satisfies -----

  /** The jobs of the calls that are not uplink-only. */
  ghost function NonUplink(calls: seq<Call>): seq<seq<int>> {
    if calls == [] then []
    else
      var n := |calls| - 1;
      NonUplink(calls[..n]) + if calls[n].uplink then [] else [calls[n].job]
  }

  predicate RxHolds(s: State) {
    s.rx.RTest? || s.rx.RWrite? || s.rx.RUnlock?
  }

  predicate TxHolds(s: State) {
    s.tx.TTest? || s.tx.TUnlock? || s.tx.TCopy? || s.tx.TSignal? || s.tx.TUnlock2?
  }

  /** L1_thread_tx is working on the mailbox contents, with or without the mutex. */
  predicate TxBusy(s: State) {
    s.tx.TUnlock? || s.tx.TRun? || s.tx.TLock2? || s.tx.TCopy?
  }

  /** The job is recorded as processed but its triple has not been forwarded yet. */
  predicate TxFinishing(s: State) {
    s.tx.TLock2? || s.tx.TCopy? || s.tx.TSignal? || s.tx.TUnlock2? || s.tx.TForward?
  }

  /** The call L1_thread is still publishing, if any. */
  ghost function InFlight(s: State): seq<seq<int>> {
    if s.rx.RIdle? || s.rx.RUnlock? then [] else [s.rx.job]
  }

  /** The published job that has not been processed yet, if any. */
  ghost function Pending(s: State): seq<seq<int>> {
    if s.cnt == 0 && !s.rx.RWrite? && !s.tx.TLock2? && !s.tx.TCopy? then [s.slot] else []
  }

  ghost predicate Control(s: State) {
    && (s.cnt == -1 || s.cnt == 0)
    && (s.owner == RxThread <==> RxHolds(s))
    && (s.owner == TxThread <==> TxHolds(s))
    && (TxBusy(s) ==> s.cnt == 0 && !s.rx.RWrite?)
    && (s.tx.TSignal? ==> s.cnt == -1)
    && (s.rx.RWrite? ==> s.cnt == 0 && s.rx.k <= 5 && s.slot[..s.rx.k] == s.rx.job[..s.rx.k])
    && (s.rx.RSleep? ==> s.cnt == 0 || s.tx.TSignal?)
    && (s.tx.TSleep? ==> s.cnt == -1 || s.rx.RWrite?)
  }

  ghost predicate Locals(s: State) {
    && (s.tx.TRun? ==> |s.tx.seen| <= 5 && s.tx.seen == s.slot[..|s.tx.seen|])
    && (s.tx.TLock2? || s.tx.TCopy? ==> s.processed != [] && s.processed[|s.processed| - 1] == s.slot)
    && (s.tx.TCopy? ==> |s.tx.copy| <= 3 && s.tx.copy == s.slot[2..2 + |s.tx.copy|])
    && (s.tx.TSignal? || s.tx.TUnlock2? || s.tx.TForward? ==>
          s.processed != [] && |s.processed[|s.processed| - 1]| == 5
          && s.tx.copy == s.processed[|s.processed| - 1][2..])
  }

  ghost predicate Forwarding(s: State) {
    && |s.processed| == |s.forwarded| + (if TxFinishing(s) then 1 else 0)
    && (forall i | 0 <= i < |s.processed| :: |s.processed[i]| == 5)
    && (forall i | 0 <= i < |s.forwarded| :: s.forwarded[i] == s.processed[i][2..])
  }

  /** Nothing lost, nothing duplicated, nothing reordered. */
  ghost predicate Accounted(s: State) {
    NonUplink(s.calls) == s.processed + Pending(s) + InFlight(s)
  }

  ghost predicate Inv(s: State) {
    Control(s) && Locals(s) && Forwarding(s) && Accounted(s)
  }

  lemma InitInv(slot: Job)
    ensures Inv(Init(slot))
  {
  }

  lemma RxKeepsControl(s: State)
    requires Control(s) && Enabled(s, Rx)
    ensures Control(RxStep(s))
  {
  }

  lemma RxKeepsLocals(s: State)
    requires Control(s) && Locals(s) && Enabled(s, Rx)
    ensures Locals(RxStep(s))
  {
  }

  lemma RxKeepsAccounted(s: State)
    requires Control(s) && Accounted(s) && Enabled(s, Rx)
    ensures Accounted(RxStep(s))
  {
    var s' := RxStep(s);
    if s.rx.RWrite? && s.rx.k == 5 {
      assert s.slot[..5] == s.slot && s.rx.job[..5] == s.rx.job;
      assert s.processed + [] + [s.slot] == s.processed + [s.slot] + [];
    } else {
      assert Pending(s') == Pending(s) && InFlight(s') == InFlight(s);
    }
  }

  lemma RxKeepsInv(s: State)
    requires Inv(s) && Enabled(s, Rx)
    ensures Inv(RxStep(s))
  {
    hide Control, Locals, Accounted;
    RxKeepsControl(s);
    RxKeepsLocals(s);
    RxKeepsAccounted(s);
  }

  lemma TxKeepsControl(s: State)
    requires Control(s) && Enabled(s, Tx)
    ensures Control(TxStep(s))
  {
  }

  lemma TxKeepsLocals(s: State)
    requires Control(s) && Locals(s) && Enabled(s, Tx)
    ensures Locals(TxStep(s))
  {
    if s.tx.TRun? && |s.tx.seen| == 5 {
      assert s.slot[..5] == s.slot;
    } else if s.tx.TCopy? && |s.tx.copy| == 3 {
      assert s.slot[2..5] == s.slot[2..];
    }
  }

  lemma TxKeepsForwarding(s: State)
    requires Control(s) && Locals(s) && Forwarding(s) && Enabled(s, Tx)
    ensures Forwarding(TxStep(s))
  {
    hide Control;
  }

  lemma TxKeepsAccounted(s: State)
    requires Control(s) && Locals(s) && Accounted(s) && Enabled(s, Tx)
    ensures Accounted(TxStep(s))
  {
    var s' := TxStep(s);
    if s.tx.TRun? && |s.tx.seen| == 5 {
      assert s.slot[..5] == s.slot;
      assert s.processed + [s.slot] + InFlight(s) == (s.processed + [s.slot]) + [] + InFlight(s);
    } else {
      assert Pending(s') == Pending(s) && InFlight(s') == InFlight(s);
    }
  }

  lemma TxKeepsInv(s: State)
    requires Inv(s) && Enabled(s, Tx)
    ensures Inv(TxStep(s))
  {
    hide Control, Locals, Forwarding, Accounted;
    TxKeepsControl(s);
    TxKeepsLocals(s);
    TxKeepsForwarding(s);
    TxKeepsAccounted(s);
  }

  lemma EnterKeepsInv(s: State, c: Call)
    requires Inv(s) && s.rx.RIdle?
    ensures Inv(Apply(s, Enter(c)))
  {
    var s' := Apply(s, Enter(c));
    assert s'.calls[..|s.calls|] == s.calls;
    assert s.processed + Pending(s) + [] + [c.job] == s.processed + Pending(s) + [c.job];
  }

  lemma StepKeepsInv(s: State, a: Step)
    requires Inv(s) && Enabled(s, a)
    ensures Inv(Apply(s, a))
  {
    match a
    case Enter(c) => EnterKeepsInv(s, c);
    case Rx => RxKeepsInv(s);
    case Tx => TxKeepsInv(s);
    case SpuriousRx =>
    case SpuriousTx =>
  }

  // ----- every run -----

  /** `trace` is the states of a run of the two threads taking the steps `steps` in this order. */
  ghost predicate IsRun(trace: seq<State>, steps: seq<Step>) {
    && |trace| == |steps| + 1
    && (exists slot: Job :: trace[0] == Init(slot))
    && forall i | 0 <= i < |steps| :: Enabled(trace[i], steps[i]) && trace[i + 1] == Apply(trace[i], steps[i])
  }

  lemma {:induction false} RunKeepsInv(trace: seq<State>, steps: seq<Step>, i: nat)
    requires IsRun(trace, steps) && i < |trace|
    ensures Inv(trace[i])
  {
    if i == 0 {
      var slot: Job :| trace[0] == Init(slot);
      InitInv(slot);
    } else {
      RunKeepsInv(trace, steps, i - 1);
      StepKeepsInv(trace[i - 1], steps[i - 1]);
    }
  }

  /** Lossless, ordered and exactly once: in every interleaving, what L1_thread_tx has processed is
      the sequence of non-uplink calls except for at most one published and one waiting call, and
      every triple handed to wakeup_txfh is that of the job processed at the same position. */
  lemma Lossless(trace: seq<State>, steps: seq<Step>, i: nat)
    requires IsRun(trace, steps) && i < |trace|
    ensures InOrder(trace[i])
  {
    RunKeepsInv(trace, steps, i);
    InvInOrder(trace[i]);
  }

  ghost predicate InOrder(s: State) {
    var offered := NonUplink(s.calls);
    && |s.processed| <= |offered| <= |s.processed| + 2
    && s.processed == offered[..|s.processed|]
    && |s.forwarded| <= |s.processed| <= |s.forwarded| + 1
    && forall k | 0 <= k < |s.forwarded| :: |offered[k]| == 5 && s.forwarded[k] == offered[k][2..]
  }

  lemma InvInOrder(s: State)
    requires Inv(s)
    ensures InOrder(s)
  {
    assert NonUplink(s.calls)[..|s.processed|] == s.processed;
  }

  /** While L1_thread_tx works on a job the mailbox cannot change, and L1_thread is not writing it. */
  lemma StableWhileProcessed(trace: seq<State>, steps: seq<Step>, i: nat)
    requires IsRun(trace, steps) && i < |steps| && TxBusy(trace[i])
    ensures trace[i + 1].slot == trace[i].slot && !trace[i].rx.RWrite? && trace[i].cnt == 0
  {
    RunKeepsInv(trace, steps, i);
  }

  /** If neither thread can move, nothing is being offered and everything offered has been forwarded. */
  lemma Quiescent(s: State)
    requires Inv(s)
    ensures !(s.rx.RSleep? && s.tx.TSleep?)
    ensures !Enabled(s, Rx) && !Enabled(s, Tx) ==>
              && s.rx.RIdle? && s.tx.TSleep? && s.cnt == -1
              && s.processed == NonUplink(s.calls) && |s.forwarded| == |s.processed|
  {
    assert s.owner.Free? || s.owner.RxThread? || s.owner.TxThread?;
  }

  /** No lost wake-up: the two threads are never both asleep, and if neither can move then nothing
      is being offered and everything offered has been processed and forwarded. */
  lemma DeadlockFree(trace: seq<State>, steps: seq<Step>, i: nat)
    requires IsRun(trace, steps) && i < |trace|
    ensures !(trace[i].rx.RSleep? && trace[i].tx.TSleep?)
    ensures
      var s := trace[i];
      !Enabled(s, Rx) && !Enabled(s, Tx) ==>
        && s.rx.RIdle? && s.tx.TSleep? && s.cnt == -1
        && s.processed == NonUplink(s.calls) && |s.forwarded| == |s.processed|
  {
    RunKeepsInv(trace, steps, i);
    hide Inv;
    Quiescent(trace[i]);
  }

  // ----- progress -----

  /** An upper bound on the steps left before both threads rest, spurious wake-ups and new calls apart. */
  ghost function Rank(s: State): int {
    20 * |Pending(s) + InFlight(s)| + RxRank(s.rx) + TxRank(s.tx)
  }

  ghost function RxRank(pc: RxPc): int {
    match pc
    case RIdle => 0
    case RUnlock => 1
    case RWrite(_, k) => 20 - k
    case RSleep(_) => 20
    case RTest(_) => 21
    case RLock(_) => 22
    case RWake(_) => 22
  }

  ghost function TxRank(pc: TxPc): int {
    match pc
    case TSleep => 0
    case TRun(seen) => 9 - |seen|
    case TUnlock => 10
    case TTest => 11
    case TLock => 12
    case TWake => 12
    case TForward(_) => 13
    case TUnlock2(_) => 14
    case TSignal(_) => 17
    case TCopy(copy) => 21 - |copy|
    case TLock2 => 22
  }

  lemma RxProgress(s: State)
    requires Control(s) && Enabled(s, Rx)
    ensures Rank(RxStep(s)) < Rank(s)
  {
    var s' := RxStep(s);
    if s.rx.RWrite? && s.rx.k == 5 {
      assert |Pending(s) + InFlight(s)| == 1 == |Pending(s') + InFlight(s')|;
    } else {
      assert Pending(s') == Pending(s) && InFlight(s') == InFlight(s);
    }
  }

  lemma TxProgress(s: State)
    requires Control(s) && Enabled(s, Tx)
    ensures Rank(TxStep(s)) < Rank(s)
  {
    var s' := TxStep(s);
    assert InFlight(s') == InFlight(s);
    if s.tx.TRun? && |s.tx.seen| == 5 {
      assert |Pending(s)| == 1 && |Pending(s')| == 0;
    } else {
      assert Pending(s') == Pending(s);
    }
  }

  /** Bounded draining: from any reachable state, once the calls and the spurious wake-ups cease, the
      two threads take at most Rank further steps; DeadlockFree says what the state is then. */
  lemma {:induction false} Drains(trace: seq<State>, steps: seq<Step>, from: nat)
    requires IsRun(trace, steps) && from < |trace|
    requires forall i | from <= i < |steps| :: steps[i] == Rx || steps[i] == Tx
    ensures |steps| - from <= Rank(trace[from])
    decreases |trace| - from
  {
    RunKeepsInv(trace, steps, from);
    if from < |steps| {
      if steps[from] == Rx {
        RxProgress(trace[from]);
      } else {
        TxProgress(trace[from]);
      }
      Drains(trace, steps, from + 1);
    } else {
      RankNonNegative(trace[from]);
    }
  }

  lemma RankNonNegative(s: State)
    requires Control(s) && Locals(s)
    ensures Rank(s) >= 0
  {
  }
}
