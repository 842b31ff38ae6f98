/** The two-worker lock-step of UE_thread with UE_thread_rxn_txnp4 in RF-simulator mode.
    UE_thread waits until both workers are idle, then publishes one subframe to the worker whose turn
    it is. Each worker has its own mutex and condition variable, shared with UE_thread; a worker holds
    its mutex while it processes. */
module LockStep {

  /** Who holds a worker's mutex. */
  datatype Owner = Free | Main | Self

  /** Program counter of UE_thread in its streaming part. `w` is the worker being waited for. */
  datatype MainPc =
    | MNext                      // top of the loop
    | MLock(w: nat) | MTest(w: nat) | MSleep(w: nat) | MWake(w: nat) | MUnlock(w: nat)
    | MPublishLock
    | MBump(i: nat)              // frame_rx++ of worker i at subframe 0, then the fields
    | MCount                     // fields written, about to raise instance_cnt_rxtx
    | MSignal | MPublishUnlock

  datatype WorkerPc =
    | WLock | WTest | WSleep | WWake
    | WRead                      // subframe_rx has been looked at, frame_rx not yet
    | WDone                      // processed, about to lower instance_cnt_rxtx
    | WSignal | WUnlock

  /** The fields of one proc_rxtx entry. */
  datatype Proc = Proc(cnt: int, owner: Owner, pc: WorkerPc,
                       frameRx: int, subframeRx: int, frameTx: int, subframeTx: int, timestampTx: int)

  /** One processed subframe, as the worker saw it. */
  datatype Entry = Entry(worker: nat, frameRx: int, subframeRx: int, frameTx: int, subframeTx: int, timestampTx: int)

  /** What streaming starts from: the frame_rx of both workers, and for every subframe to come the transmit
      timestamp that UE_thread derives from the device timestamp of its read. */
  datatype Start = Start(frame: int, stamps: nat -> int)

  /** `granted` counts the subframes published by raising instance_cnt_rxtx. */
  datatype State = State(main: MainPc, subframe: int, turn: nat, p0: Proc, p1: Proc, granted: nat, done: seq<Entry>,
                         stamps: nat -> int)

  function Get(s: State, w: nat): Proc {
    if w == 0 then s.p0 else s.p1
  }

  function Set(s: State, w: nat, p: Proc): State {
    if w == 0 then s.(p0 := p) else s.(p1 := p)
  }

  /** init_UE_threads. */
  function Init(start: Start): State {
    var p := Proc(-1, Free, WLock, start.frame, 0, 0, 0, 0);
    State(MNext, -1, 0, p, p, 0, [], start.stamps)
  }

  datatype Step = MainStep | WorkerStep(w: nat) | SpuriousMain | SpuriousWorker(w: nat)

  /** The worker whose mutex UE_thread must find free for its next step. */
  function Wanted(m: MainPc, turn: nat): int {
    match m
    case MLock(w) => w
    case MWake(w) => w
    case MPublishLock => turn
    case _ => -1
  }

  predicate Enabled(s: State, a: Step) {
    match a
    case MainStep =>
      var w := Wanted(s.main, s.turn);
      !s.main.MSleep? && (w >= 0 ==> Get(s, w).owner.Free?)
    case WorkerStep(w) =>
      && w < 2 && !Get(s, w).pc.WSleep?
      && (Get(s, w).pc.WLock? || Get(s, w).pc.WWake? ==> Get(s, w).owner.Free?)
    case SpuriousMain => s.main.MSleep?
    case SpuriousWorker(w) => w < 2 && Get(s, w).pc.WSleep?
  }

  function Apply(s: State, a: Step): State
    requires Enabled(s, a)
  {
    match a
    case MainStep => MainNext(s)
    case WorkerStep(w) => WorkerNext(s, w)
    case SpuriousMain => s.(main := MWake(s.main.w))
    case SpuriousWorker(w) => Set(s, w, Get(s, w).(pc := WWake))
  }

  // ----- UE_thread -----

  /** UE_thread's next program counter; `busy` is the outcome of testing instance_cnt_rxtx >= 0. */
  function NextMain(m: MainPc, busy: bool): MainPc {
    match m
    case MNext => MLock(0)
    case MLock(w) => MTest(w)
    case MSleep(w) => MSleep(w)
    case MWake(w) => MTest(w)
    case MTest(w) => if busy then MSleep(w) else MUnlock(w)
    case MUnlock(w) => if w == 0 then MLock(1) else MPublishLock
    case MPublishLock => MBump(0)
    case MBump(i) => if i < 2 then MBump(i + 1) else MCount
    case MCount => MSignal
    case MSignal => MPublishUnlock
    case MPublishUnlock => MNext
  }

  /** What UE_thread's step does to the proc_rxtx entry of worker w. */
  function MainEffect(m: MainPc, subframe: int, stamp: int, turn: nat, p: Proc, w: nat): Proc {
    match m
    case MLock(v) => if v == w then p.(owner := Main) else p
    case MWake(v) => if v == w then p.(owner := Main) else p
    case MTest(v) => if v == w && p.cnt >= 0 then p.(owner := Free) else p
    case MUnlock(v) => if v == w then p.(owner := Free) else p
    case MPublishLock => if turn == w then p.(owner := Main) else p
    case MBump(i) =>
      if i < 2 then (if i == w && subframe == 0 then p.(frameRx := p.frameRx + 1) else p)
      else if turn == w then
        p.(subframeRx := subframe, subframeTx := (subframe + 4) % 10,
           frameTx := p.frameRx + (if subframe > 5 then 1 else 0), timestampTx := stamp)
      else p
    case MCount => if turn == w then p.(cnt := p.cnt + 1) else p
    case MSignal => if turn == w && p.pc.WSleep? then p.(pc := WWake) else p
    case MPublishUnlock => if turn == w then p.(owner := Free) else p
    case _ => p
  }

  function MainNext(s: State): State
    requires Enabled(s, MainStep)
  {
    State(
      NextMain(s.main, s.main.MTest? && Get(s, s.main.w).cnt >= 0),
      if !s.main.MNext? then s.subframe else if s.subframe == 9 then 0 else s.subframe + 1,
      if !s.main.MPublishUnlock? then s.turn else if s.turn == 0 then 1 else 0,
      MainEffect(s.main, s.subframe, s.stamps(s.granted), s.turn, s.p0, 0),
      MainEffect(s.main, s.subframe, s.stamps(s.granted), s.turn, s.p1, 1),
      if s.main.MCount? then s.granted + 1 else s.granted,
      s.done, s.stamps)
  }

  // ----- UE_thread_rxn_txnp4 -----

  function WorkerEffect(p: Proc): Proc {
    match p.pc
    case WLock => p.(owner := Self, pc := WTest)
    case WSleep => p
    case WWake => p.(owner := Self, pc := WTest)
    case WTest => if p.cnt < 0 then p.(owner := Free, pc := WSleep) else p.(pc := WRead)
    case WRead => p.(pc := WDone)
    case WDone => p.(cnt := p.cnt - 1, pc := WSignal)
    case WSignal => p.(pc := WUnlock)
    case WUnlock => p.(owner := Free, pc := WLock)
  }

  function Seen(p: Proc, w: nat): Entry {
    Entry(w, p.frameRx, p.subframeRx, p.frameTx, p.subframeTx, p.timestampTx)
  }

  function WorkerNext(s: State, w: nat): State
    requires Enabled(s, WorkerStep(w))
  {
    var p := Get(s, w);
    Set(s, w, WorkerEffect(p)).(
      main := if p.pc.WSignal? && s.main == MSleep(w) then MWake(w) else s.main,
      done := if p.pc.WRead? then s.done + [Seen(p, w)] else s.done)
  }

  // ----- the plan: which worker gets which subframe -----

  datatype Place = Place(turn: nat, frame: int, subframe: int, stamp: int)

  /** The k-th subframe streamed. */
  ghost function Plan(start: Start, k: nat): Place {
    if k == 0 then Place(0, start.frame + 1, 0, start.stamps(k))
    else
      var p := Plan(start, k - 1);
      Place(if p.turn == 0 then 1 else 0,
            if p.subframe == 9 then p.frame + 1 else p.frame,
            if p.subframe == 9 then 0 else p.subframe + 1,
            start.stamps(k))
  }

  lemma PlanRange(start: Start, k: nat)
    ensures Plan(start, k).turn < 2 && 0 <= Plan(start, k).subframe < 10
  {
  }

  /** Closed form: workers alternate and absolute subframes are consecutive. */
  lemma {:induction false} PlanIsConsecutive(start: Start, k: nat)
    ensures
      var p := Plan(start, k);
      p.turn == k % 2 && 0 <= p.subframe < 10 && 10 * p.frame + p.subframe == 10 * (start.frame + 1) + k
      && p.stamp == start.stamps(k)
  {
    if k > 0 {
      PlanIsConsecutive(start, k - 1);
    }
  }

  /** What a worker should see for a place: the received subframe and the one four later. */
  ghost function Expected(p: Place): Entry {
    Entry(p.turn, p.frame, p.subframe, p.frame + (if p.subframe > 5 then 1 else 0), (p.subframe + 4) % 10, p.stamp)
  }

  lemma FourAhead(p: Place)
    requires 0 <= p.subframe < 10
    ensures
      var e := Expected(p);
      10 * e.frameTx + e.subframeTx == 10 * e.frameRx + e.subframeRx + 4 && 0 <= e.subframeTx < 10
  {
  }

  /** frame_rx of a worker once n subframes have been published and no further bump was made. */
  ghost function FrameAfter(start: Start, n: nat): int {
    if n == 0 then start.frame else Plan(start, n - 1).frame
  }

  lemma PlanBump(start: Start, n: nat)
    ensures Plan(start, n).frame == FrameAfter(start, n) + if Plan(start, n).subframe == 0 then 1 else 0
  {
    hide Plan;
    PlanFirst(start);
    if n > 0 {
      PlanRange(start, n - 1);
      PlanNext(start, n);
    }
  }

  lemma PlanFirst(start: Start)
    ensures Plan(start, 0).frame == start.frame + 1 && Plan(start, 0).subframe == 0
  {
  }

  lemma PlanNext(start: Start, n: nat)
    requires n > 0
    ensures
      var p, p' := Plan(start, n - 1), Plan(start, n);
      && p'.frame == (if p.subframe == 9 then p.frame + 1 else p.frame)
      && p'.subframe == (if p.subframe == 9 then 0 else p.subframe + 1)
  {
  }

  lemma PlanStamp(start: Start, n: nat)
    ensures Plan(start, n).stamp == start.stamps(n)
  {
  }

  // ----- invariants -----

  /** UE_thread has left the waiting loop of worker w for the subframe it prepares. */
  predicate Passed(m: MainPc, w: nat) {
    match m
    case MUnlock(v) => w <= v
    case MLock(v) => w < v
    case MTest(v) => w < v
    case MSleep(v) => w < v
    case MWake(v) => w < v
    case MPublishLock => true
    case MBump(_) => true
    case MCount => true
    case _ => false
  }

  predicate Publishing(m: MainPc) {
    m.MBump? || m.MCount? || m.MSignal? || m.MPublishUnlock?
  }

  predicate WaitIndex(m: MainPc) {
    && (m.MLock? || m.MTest? || m.MSleep? || m.MWake? || m.MUnlock? ==> m.w < 2)
    && (m.MBump? ==> m.i <= 2)
  }

  predicate AfterGrant(m: MainPc) {
    m.MSignal? || m.MPublishUnlock?
  }

  ghost predicate MainInv(s: State, start: Start) {
    && s.turn < 2 && WaitIndex(s.main) && s.stamps == start.stamps
    && (AfterGrant(s.main) ==> s.granted > 0)
    && s.turn == Plan(start, if AfterGrant(s.main) then s.granted - 1 else s.granted).turn
    && s.subframe ==
       if s.main.MNext? || AfterGrant(s.main) then (if s.granted == 0 then -1 else Plan(start, s.granted - 1).subframe)
       else Plan(start, s.granted).subframe
  }

  predicate Holding(pc: WorkerPc) {
    pc.WTest? || pc.WRead? || pc.WDone? || pc.WSignal? || pc.WUnlock?
  }

  predicate MainHolds(m: MainPc, turn: nat, w: nat) {
    m == MTest(w) || m == MUnlock(w) || (w == turn && Publishing(m))
  }

  ghost predicate LockInv(m: MainPc, turn: nat, p: Proc, w: nat) {
    && (p.owner == Self <==> Holding(p.pc))
    && (p.owner == Main <==> MainHolds(m, turn, w))
    && (p.cnt == -1 || p.cnt == 0)
    && (Passed(m, w) ==> p.cnt == -1)
    && (p.pc.WRead? || p.pc.WDone? ==> p.cnt == 0)
    && (p.pc.WSignal? || p.pc.WUnlock? ==> p.cnt == -1)
    && (m == MSleep(w) ==> p.cnt == 0 || p.pc.WSignal?)
    && (p.pc.WSleep? ==> p.cnt == -1 || (m.MSignal? && turn == w))
  }

  /** frame_rx while UE_thread is at m: bumped for the new subframe or not yet. */
  ghost function FrameNow(m: MainPc, start: Start, granted: nat, w: nat): int {
    if (m.MBump? && w < m.i) || m.MCount? then Plan(start, granted).frame else FrameAfter(start, granted)
  }

  ghost predicate FieldInv(m: MainPc, turn: nat, granted: nat, start: Start, p: Proc, w: nat) {
    && p.frameRx == FrameNow(m, start, granted, w)
    && (m.MCount? && w == turn ==> Seen(p, w) == Expected(Plan(start, granted)))
    && (p.cnt == 0 ==> granted > 0 && Seen(p, w) == Expected(Plan(start, granted - 1)))
  }

  /** Processing done by worker w but not yet accounted in its instance_cnt_rxtx. */
  ghost predicate DoneInv(s: State, start: Start) {
    && (forall k | 0 <= k < |s.done| :: s.done[k] == Expected(Plan(start, k)))
    && |s.done| + (if Unprocessed(s.p0) || Unprocessed(s.p1) then 1 else 0) == s.granted
  }

  predicate Unprocessed(p: Proc) {
    p.cnt == 0 && !p.pc.WDone?
  }

  ghost predicate Inv(s: State, start: Start) {
    && MainInv(s, start) && DoneInv(s, start)
    && LockInv(s.main, s.turn, s.p0, 0) && LockInv(s.main, s.turn, s.p1, 1)
    && FieldInv(s.main, s.turn, s.granted, start, s.p0, 0) && FieldInv(s.main, s.turn, s.granted, start, s.p1, 1)
  }

  lemma InitInv(start: Start)
    ensures Inv(Init(start), start)
  {
  }

  // ----- steps of UE_thread -----

  lemma MainKeepsMain(s: State, start: Start)
    requires MainInv(s, start) && Enabled(s, MainStep)
    ensures MainInv(MainNext(s), start)
  {
    PlanRange(start, s.granted);
    if s.granted > 0 {
      PlanRange(start, s.granted - 1);
    }
  }

  lemma MainKeepsLock(s: State, start: Start, w: nat)
    requires MainInv(s, start) && Enabled(s, MainStep) && w < 2 && LockInv(s.main, s.turn, Get(s, w), w)
    ensures var s' := MainNext(s); LockInv(s'.main, s'.turn, Get(s', w), w)
  {
    hide Plan;
  }

  lemma MainKeepsField(s: State, start: Start, w: nat)
    requires MainInv(s, start) && Enabled(s, MainStep) && w < 2
    requires LockInv(s.main, s.turn, Get(s, w), w) && FieldInv(s.main, s.turn, s.granted, start, Get(s, w), w)
    ensures var s' := MainNext(s); FieldInv(s'.main, s'.turn, s'.granted, start, Get(s', w), w)
  {
    PlanBump(start, s.granted);
    PlanStamp(start, s.granted);
    hide Plan;
  }

  lemma MainKeepsDone(s: State, start: Start)
    requires Inv(s, start) && Enabled(s, MainStep)
    ensures DoneInv(MainNext(s), start)
  {
    hide Plan, Expected, FieldInv;
  }

  // ----- steps of the workers -----

  lemma OnlyOneActive(s: State, start: Start)
    requires Inv(s, start)
    ensures s.p0.cnt == -1 || s.p1.cnt == -1
  {
    hide Plan, DoneInv;
  }

  lemma WorkerKeepsLock(s: State, v: nat, w: nat)
    requires Enabled(s, WorkerStep(v)) && w < 2 && LockInv(s.main, s.turn, Get(s, w), w)
    ensures var s' := WorkerNext(s, v); LockInv(s'.main, s'.turn, Get(s', w), w)
  {
  }

  lemma WorkerKeepsField(s: State, start: Start, v: nat, w: nat)
    requires Enabled(s, WorkerStep(v)) && w < 2
    requires LockInv(s.main, s.turn, Get(s, w), w) && FieldInv(s.main, s.turn, s.granted, start, Get(s, w), w)
    ensures var s' := WorkerNext(s, v); FieldInv(s'.main, s'.turn, s'.granted, start, Get(s', w), w)
  {
    hide Plan, Expected;
  }

  lemma WorkerKeepsDone(s: State, start: Start, v: nat)
    requires Inv(s, start) && Enabled(s, WorkerStep(v))
    ensures DoneInv(WorkerNext(s, v), start)
  {
    hide Plan, Expected;
    OnlyOneActive(s, start);
  }

  lemma SpuriousMainKeepsInv(s: State, start: Start)
    requires Inv(s, start) && Enabled(s, SpuriousMain)
    ensures Inv(Apply(s, SpuriousMain), start)
  {
    hide Plan, Expected;
  }

  lemma SpuriousWorkerKeepsInv(s: State, start: Start, v: nat)
    requires Inv(s, start) && Enabled(s, SpuriousWorker(v))
    ensures Inv(Apply(s, SpuriousWorker(v)), start)
  {
    hide Plan, Expected;
  }

  lemma MainKeepsInv(s: State, start: Start)
    requires Inv(s, start) && Enabled(s, MainStep)
    ensures Inv(MainNext(s), start)
  {
    hide Plan, Expected, MainInv, LockInv, FieldInv, DoneInv, NextMain, MainEffect;
    MainKeepsMain(s, start);
    MainKeepsLock(s, start, 0);
    MainKeepsLock(s, start, 1);
    MainKeepsField(s, start, 0);
    MainKeepsField(s, start, 1);
    MainKeepsDone(s, start);
  }

  lemma WorkerKeepsInv(s: State, start: Start, v: nat)
    requires Inv(s, start) && Enabled(s, WorkerStep(v))
    ensures Inv(WorkerNext(s, v), start)
  {
    hide Plan, Expected, LockInv, FieldInv, DoneInv, WorkerEffect;
    WorkerKeepsLock(s, v, 0);
    WorkerKeepsLock(s, v, 1);
    WorkerKeepsField(s, start, v, 0);
    WorkerKeepsField(s, start, v, 1);
    WorkerKeepsDone(s, start, v);
  }

  lemma StepKeepsInv(s: State, start: Start, a: Step)
    requires Inv(s, start) && Enabled(s, a)
    ensures Inv(Apply(s, a), start)
  {
    hide Inv;
    match a
    case MainStep => MainKeepsInv(s, start);
    case WorkerStep(v) => WorkerKeepsInv(s, start, v);
    case SpuriousMain => SpuriousMainKeepsInv(s, start);
    case SpuriousWorker(v) => SpuriousWorkerKeepsInv(s, start, v);
  }

  // ----- every run -----

  ghost predicate IsRun(trace: seq<State>, steps: seq<Step>, start: Start) {
    && |trace| == |steps| + 1 && trace[0] == Init(start)
    && forall i | 0 <= i < |steps| :: Enabled(trace[i], steps[i]) && trace[i + 1] == Apply(trace[i], steps[i])
  }

  lemma {:induction false} RunKeepsInv(trace: seq<State>, steps: seq<Step>, start: Start, i: nat)
    requires IsRun(trace, steps, start) && i < |trace|
    ensures Inv(trace[i], start)
  {
    hide Inv, Enabled, Apply;
    if i == 0 {
      InitInv(start);
    } else {
      RunKeepsInv(trace, steps, start, i - 1);
      StepKeepsInv(trace[i - 1], start, steps[i - 1]);
    }
  }

  /** In every run: instance_cnt_rxtx of each worker stays in {-1, 0} and at most one worker is active;
      at most one published subframe is unprocessed. */
  lemma AtMostOneActive(trace: seq<State>, steps: seq<Step>, start: Start, i: nat)
    requires IsRun(trace, steps, start) && i < |trace|
    ensures
      var s := trace[i];
      && s.p0.cnt in {-1, 0} && s.p1.cnt in {-1, 0} && (s.p0.cnt == -1 || s.p1.cnt == -1)
      && |s.done| <= s.granted <= |s.done| + 1
  {
    RunKeepsInv(trace, steps, start, i);
    OnlyOneActive(trace[i], start);
  }

  /** The workers together process consecutive absolute subframes, each exactly once, in turn, and each
      with the transmit subframe four later. */
  lemma ConsecutiveAlternating(trace: seq<State>, steps: seq<Step>, start: Start, i: nat, k: nat)
    requires IsRun(trace, steps, start) && i < |trace| && k < |trace[i].done|
    ensures
      var e := trace[i].done[k];
      && e.worker == k % 2 && 0 <= e.subframeRx < 10 && 0 <= e.subframeTx < 10
      && 10 * e.frameRx + e.subframeRx == 10 * (start.frame + 1) + k
      && 10 * e.frameTx + e.subframeTx == 10 * (start.frame + 1) + k + 4
      && e.timestampTx == start.stamps(k)
  {
    RunKeepsInv(trace, steps, start, i);
    assert trace[i].done[k] == Expected(Plan(start, k));
    hide Plan, Inv;
    PlanIsConsecutive(start, k);
    FourAhead(Plan(start, k));
  }

  /** UE_thread changes a worker's fields only while that worker is idle, although it bumps frame_rx of
      both workers while holding only one of the two mutexes. */
  lemma WrittenOnlyWhileIdle(trace: seq<State>, steps: seq<Step>, start: Start, i: nat, w: nat)
    requires IsRun(trace, steps, start) && i < |steps| && w < 2
    requires Seen(Get(trace[i + 1], w), w) != Seen(Get(trace[i], w), w)
    ensures steps[i] == MainStep
    ensures Get(trace[i], w).cnt == -1 && !Get(trace[i], w).pc.WRead? && !Get(trace[i], w).pc.WDone?
  {
    RunKeepsInv(trace, steps, start, i);
    var s := trace[i];
    if steps[i] != MainStep {
      OthersLeaveFields(s, steps[i], w);
    } else {
      hide MainInv, DoneInv, FieldInv, LockInv, MainEffect;
      EffectWrites(s.main, s.subframe, s.stamps(s.granted), s.turn, Get(s, w), w);
    }
  }

  lemma OthersLeaveFields(s: State, a: Step, w: nat)
    requires Enabled(s, a) && a != MainStep && w < 2
    ensures Seen(Get(Apply(s, a), w), w) == Seen(Get(s, w), w)
  {
  }

  lemma EffectWrites(m: MainPc, subframe: int, stamp: int, turn: nat, p: Proc, w: nat)
    requires LockInv(m, turn, p, w) && Seen(MainEffect(m, subframe, stamp, turn, p, w), w) != Seen(p, w)
    ensures p.cnt == -1 && !p.pc.WRead? && !p.pc.WDone?
  {
  }

  /** No deadlock: UE_thread or a worker can always move. */
  lemma DeadlockFree(trace: seq<State>, steps: seq<Step>, start: Start, i: nat)
    requires IsRun(trace, steps, start) && i < |trace|
    ensures exists a: Step :: (a == MainStep || a.WorkerStep?) && Enabled(trace[i], a)
  {
    RunKeepsInv(trace, steps, start, i);
    var a := SomeStep(trace[i], start);
  }

  lemma SomeStep(s: State, start: Start) returns (a: Step)
    requires Inv(s, start)
    ensures (a == MainStep || a.WorkerStep?) && Enabled(s, a)
  {
    hide Plan, Expected, FieldInv, DoneInv;
    if Enabled(s, MainStep) {
      a := MainStep;
    } else if s.main.MSleep? {
      a := WorkerStep(s.main.w);
    } else {
      a := WorkerStep(Wanted(s.main, s.turn));
    }
  }

  // ----- progress -----

  ghost function MainRank(m: MainPc): int {
    match m
    case MNext => 0
    case MPublishUnlock => 1
    case MSignal => 4
    case MCount => 13
    case MBump(i) => 16 - i
    case MPublishLock => 17
    case MUnlock(w) => 21 - 3 * w
    case MTest(w) => 22 - 3 * w
    case MSleep(w) => 21 - 3 * w
    case MLock(w) => 23 - 3 * w
    case MWake(w) => 23 - 3 * w
  }

  ghost function WorkerRank(p: Proc): int {
    match p.pc
    case WSleep => if p.cnt >= 0 then 8 else 0
    case WTest => if p.cnt >= 0 then 9 else 1
    case WLock => if p.cnt >= 0 then 10 else 2
    case WWake => if p.cnt >= 0 then 10 else 2
    case WUnlock => 3
    case WSignal => 6
    case WDone => 7
    case WRead => 8
  }

  ghost function Rank(s: State): int {
    MainRank(s.main) + WorkerRank(s.p0) + WorkerRank(s.p1)
  }

  lemma EffectRank(m: MainPc, subframe: int, stamp: int, turn: nat, p: Proc, w: nat)
    requires LockInv(m, turn, p, w)
    ensures WorkerRank(MainEffect(m, subframe, stamp, turn, p, w))
            <= WorkerRank(p) + if turn != w then 0 else if m.MCount? then 8 else if m.MSignal? then 2 else 0
  {
  }

  lemma MainProgress(s: State, start: Start)
    requires Inv(s, start) && Enabled(s, MainStep) && !s.main.MNext?
    ensures Rank(MainNext(s)) < Rank(s)
  {
    EffectRank(s.main, s.subframe, s.stamps(s.granted), s.turn, s.p0, 0);
    EffectRank(s.main, s.subframe, s.stamps(s.granted), s.turn, s.p1, 1);
    hide Plan, Expected, FieldInv, DoneInv, LockInv, WorkerRank, MainEffect;
  }

  lemma WorkerProgress(s: State, w: nat)
    requires Enabled(s, WorkerStep(w)) && LockInv(s.main, s.turn, Get(s, w), w)
    ensures Rank(WorkerNext(s, w)) < Rank(s)
  {
    var p := Get(s, w);
    assert WorkerRank(WorkerEffect(p)) < WorkerRank(p) - if p.pc.WSignal? then 2 else 0;
    hide LockInv, WorkerRank, WorkerEffect;
  }

  /** Every step that is neither a spurious wake-up nor the start of the next subframe brings the
      start of the next subframe closer. */
  lemma Progress(s: State, start: Start, a: Step)
    requires Inv(s, start) && Enabled(s, a) && (a.WorkerStep? || (a == MainStep && !s.main.MNext?))
    ensures Rank(Apply(s, a)) < Rank(s)
  {
    if a == MainStep {
      MainProgress(s, start);
    } else {
      WorkerProgress(s, a.w);
    }
  }

  /** In every run, 44 consecutive steps without a spurious wake-up include the start of a subframe. */
  lemma {:induction false} NextSubframeWithin(trace: seq<State>, steps: seq<Step>, start: Start, from: nat)
    requires IsRun(trace, steps, start) && from < |trace|
    requires forall i | from <= i < |steps| ::
               steps[i].WorkerStep? || (steps[i] == MainStep && !trace[i].main.MNext?)
    ensures |steps| - from <= Rank(trace[from]) <= 43
    decreases |trace| - from
  {
    RunKeepsInv(trace, steps, start, from);
    hide Apply, Enabled, Inv, Rank;
    RankBounds(trace[from], start);
    if from < |steps| {
      Progress(trace[from], start, steps[from]);
      NextSubframeWithin(trace, steps, start, from + 1);
    }
  }

  lemma RankBounds(s: State, start: Start)
    requires Inv(s, start)
    ensures 0 <= Rank(s) <= 43
  {
    hide Plan, Expected, FieldInv, DoneInv;
  }
}
