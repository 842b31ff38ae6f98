/** The droppable mailbox between the ru_threads (calling wakeup_rxtx) and L1_thread.
    Any number of radio-unit threads offer subframes; an offer made while the previous one is
    unreleased is dropped. After release_thread, L1_thread evaluates the arguments of wakeup_tx from
    the same fields without the mutex. */
module RxMailbox {

  /** The five fields in the order wakeup_rxtx writes them:
      timestamp_tx, frame_rx, subframe_rx, frame_tx, subframe_tx. */
  type Job = j: seq<int> | |j| == 5 witness [0, 0, 0, 0, 0]

  datatype Owner = Free | Worker | Producer(i: nat)

  datatype ProducerPc =
    | PIdle
    | PLock(job: Job)
    | PTest(job: Job)
    | PDrop                      // the offer was refused, about to unlock
    | PWrite(job: Job, k: nat)   // instance_cnt is raised, k fields written
    | PUnlock

  datatype WorkerPc =
    | WLock | WTest | WSleep | WWake | WUnlock         // wait_on_condition
    | WRun(seen: seq<int>)                             // rxtx reads the fields without the mutex
    | WReleaseLock | WRelease | WReleaseUnlock         // release_thread
    | WArgs(args: map<nat, int>, fromNext: set<nat>)   // evaluates the arguments of wakeup_tx

  datatype Offer = Offer(job: Job, taken: bool)

  /** Arguments passed on to wakeup_tx; `fromNext` is the fields that the next accepted offer had
      already overwritten when they were read. */
  datatype Passed = Passed(args: map<nat, int>, fromNext: set<nat>)

  datatype State = State(
    cnt: int,
    slot: Job,
    owner: Owner,
    prods: seq<ProducerPc>,
    work: WorkerPc,
    offers: seq<Offer>,          // every offer, in the order instance_cnt was tested
    processed: seq<seq<int>>,    // what rxtx saw
    released: nat,               // calls of release_thread
    passed: seq<Passed>)

  function Init(slot: Job, producers: nat): State {
    State(-1, slot, Free, seq(producers, _ => PIdle), WLock, [], [], 0, [])
  }

  /** Work(f): the worker's next step; f chooses the field read while evaluating arguments. */
  datatype Step = Call(i: nat, job: Job) | Prod(i: nat) | Work(f: nat) | Spurious

  function Writing(s: State): bool {
    s.owner.Producer? && s.owner.i < |s.prods| && s.prods[s.owner.i].PWrite?
  }

  function Taken(offers: seq<Offer>): (jobs: seq<seq<int>>)
    ensures forall j | j in jobs :: |j| == 5
  {
    if offers == [] then []
    else
      var n := |offers| - 1;
      Taken(offers[..n]) + if offers[n].taken then [offers[n].job] else []
  }

  /** Field f has been overwritten since the release L1_thread is reading arguments for: another offer
      was accepted, and its producer is past the field. */
  predicate Overwritten(s: State, f: nat) {
    && |Taken(s.offers)| == |s.passed| + 2
    && (Writing(s) ==> f < s.prods[s.owner.i].k)
  }

  predicate Enabled(s: State, a: Step) {
    match a
    case Call(i, _) => i < |s.prods| && s.prods[i].PIdle?
    case Prod(i) => i < |s.prods| && !s.prods[i].PIdle? && (s.prods[i].PLock? ==> s.owner.Free?)
                    && (s.prods[i].PWrite? ==> s.prods[i].k <= 5)
    case Work(f) => !s.work.WSleep? && (s.work.WLock? || s.work.WWake? || s.work.WReleaseLock? ==> s.owner.Free?)
                    && (s.work.WRun? ==> |s.work.seen| <= 5)
                    && (s.work.WArgs? ==> s.work.args.Keys == FIELDS || (f in FIELDS && f !in s.work.args))
    case Spurious => s.work.WSleep?
  }

  const FIELDS: set<nat> := {0, 1, 2, 3, 4}

  function Apply(s: State, a: Step): State
    requires Enabled(s, a)
  {
    match a
    case Call(i, job) => s.(prods := s.prods[i := PLock(job)])
    case Prod(i) => ProducerStep(s, i)
    case Work(f) => WorkerStep(s, f)
    case Spurious => s.(work := WWake)
  }

  function ProducerStep(s: State, i: nat): State
    requires Enabled(s, Prod(i))
  {
    match s.prods[i]
    case PLock(j) => s.(owner := Producer(i), prods := s.prods[i := PTest(j)])
    case PTest(j) =>
      if s.cnt == 0 then s.(offers := s.offers + [Offer(j, false)], prods := s.prods[i := PDrop])
      else s.(cnt := s.cnt + 1, offers := s.offers + [Offer(j, true)], prods := s.prods[i := PWrite(j, 0)])
    case PDrop => s.(owner := Free, prods := s.prods[i := PIdle])
    case PWrite(j, k) =>
      if k < 5 then s.(slot := s.slot[k := j[k]], prods := s.prods[i := PWrite(j, k + 1)])
      else s.(work := if s.work.WSleep? then WWake else s.work, prods := s.prods[i := PUnlock])
    case PUnlock => s.(owner := Free, prods := s.prods[i := PIdle])
  }

  function WorkerStep(s: State, f: nat): State
    requires Enabled(s, Work(f))
  {
    match s.work
    case WLock => s.(owner := Worker, work := WTest)
    case WWake => s.(owner := Worker, work := WTest)
    case WTest => if s.cnt < 0 then s.(owner := Free, work := WSleep) else s.(work := WUnlock)
    case WUnlock => s.(owner := Free, work := WRun([]))
    case WRun(seen) =>
      if |seen| < 5 then s.(work := WRun(seen + [s.slot[|seen|]]))
      else s.(processed := s.processed + [seen], work := WReleaseLock)
    case WReleaseLock => s.(owner := Worker, work := WRelease)
    case WRelease => s.(cnt := -1, released := s.released + 1, work := WReleaseUnlock)
    case WReleaseUnlock => s.(owner := Free, work := WArgs(map[], {}))
    case WArgs(args, fromNext) =>
      if args.Keys == FIELDS then s.(passed := s.passed + [Passed(args, fromNext)], work := WLock)
      else s.(work := WArgs(args[f := s.slot[f]], if Overwritten(s, f) then fromNext + {f} else fromNext))
  }

  // ----- invariants -----

  predicate Holds(pc: ProducerPc) {
    pc.PTest? || pc.PDrop? || pc.PWrite? || pc.PUnlock?
  }

  /** L1_thread works on an accepted job that it has not released. */
  predicate Working(s: State) {
    s.work.WUnlock? || s.work.WRun? || s.work.WReleaseLock? || s.work.WRelease?
  }

  ghost predicate Control(s: State) {
    && (s.cnt == -1 || s.cnt == 0)
    && (s.owner == Worker <==>
          s.work.WTest? || s.work.WUnlock? || s.work.WRelease? || s.work.WReleaseUnlock?)
    && (forall i | 0 <= i < |s.prods| :: s.owner == Producer(i) <==> Holds(s.prods[i]))
    && (s.owner.Producer? ==> s.owner.i < |s.prods|)
    && (Working(s) ==> s.cnt == 0 && !Writing(s))
    && (s.work.WReleaseUnlock? ==> s.cnt == -1)
    && (Writing(s) ==> s.cnt == 0 && s.prods[s.owner.i].k <= 5)
    && (s.work.WSleep? ==> s.cnt == -1 || Writing(s))
  }

  ghost predicate Counting(s: State) {
    && |Taken(s.offers)| == s.released + (if s.cnt == 0 then 1 else 0)
    && |s.processed| == s.released + (if s.work.WReleaseLock? || s.work.WRelease? then 1 else 0)
    && |s.passed| + (if s.work.WReleaseUnlock? || s.work.WArgs? then 1 else 0) == s.released
  }

  /** The job being written and the number of its fields already in place, if any. */
  ghost function Writer(s: State): seq<(Job, nat)> {
    if Writing(s) then [(s.prods[s.owner.i].job, s.prods[s.owner.i].k)] else []
  }

  /** The mailbox holds the latest accepted job, or is being overwritten with it field by field. */
  ghost predicate Filled(acc: seq<seq<int>>, slot: Job, w: seq<(Job, nat)>) {
    var n := |acc|;
    if w != [] then
      var (job, k) := w[0];
      && k <= 5 && n >= 1 && acc[n - 1] == job && slot[..k] == job[..k]
      && (n >= 2 ==> |acc[n - 2]| == 5 && slot[k..] == acc[n - 2][k..])
    else n >= 1 ==> slot == acc[n - 1]
  }

  ghost predicate Contents(s: State) {
    Filled(Taken(s.offers), s.slot, Writer(s))
  }

  ghost predicate Prefix(s: State) {
    && |s.processed| <= |Taken(s.offers)|
    && s.processed == Taken(s.offers)[..|s.processed|]
    && (s.work.WRun? ==> |s.work.seen| <= 5 && s.work.seen == s.slot[..|s.work.seen|])
  }

  /** Arguments read after the release of job `i`: each field is that of job `i`, or of the next
      accepted one if it had been overwritten by then. */
  ghost predicate GoodArgs(acc: seq<seq<int>>, i: nat, args: map<nat, int>, fromNext: set<nat>) {
    && i < |acc| && fromNext <= args.Keys <= FIELDS
    && (forall j | 0 <= j < |acc| :: |acc[j]| == 5)
    && (fromNext != {} ==> i + 1 < |acc|)
    && (forall f | f in args :: args[f] == if f in fromNext then acc[i + 1][f] else acc[i][f])
  }

  ghost predicate ReadingInv(s: State) {
    s.work.WArgs? ==>
      && |s.passed| < |Taken(s.offers)| <= |s.passed| + 2
      && GoodArgs(Taken(s.offers), |s.passed|, s.work.args, s.work.fromNext)
  }

  ghost predicate GoodPass(acc: seq<seq<int>>, i: nat, p: Passed) {
    p.args.Keys == FIELDS && GoodArgs(acc, i, p.args, p.fromNext)
  }

  ghost predicate PassedInv(s: State) {
    forall i | 0 <= i < |s.passed| :: GoodPass(Taken(s.offers), i, s.passed[i])
  }

  ghost predicate Inv(s: State) {
    Control(s) && Counting(s) && Contents(s) && Prefix(s) && ReadingInv(s) && PassedInv(s)
  }

  lemma InitInv(slot: Job, producers: nat)
    ensures Inv(Init(slot, producers))
  {
  }

  lemma TakenAppend(offers: seq<Offer>, o: Offer)
    ensures Taken(offers + [o]) == Taken(offers) + if o.taken then [o.job] else []
  {
    assert (offers + [o])[..|offers|] == offers;
  }

  lemma ProducerKeepsControl(s: State, i: nat)
    requires Control(s) && Enabled(s, Prod(i))
    ensures Control(ProducerStep(s, i))
  {
  }

  lemma ProducerKeepsCounting(s: State, i: nat)
    requires Control(s) && Counting(s) && Enabled(s, Prod(i))
    ensures Counting(ProducerStep(s, i))
  {
    if s.prods[i].PTest? {
      TakenAppend(s.offers, Offer(s.prods[i].job, s.cnt != 0));
    }
  }

  lemma StartFill(acc: seq<seq<int>>, slot: Job, job: Job)
    requires Filled(acc, slot, [])
    ensures Filled(acc + [job], slot, [(job, 0)])
  {
    assert slot[..0] == job[..0];
    if acc != [] {
      assert slot[0..] == slot == acc[|acc| - 1] == acc[|acc| - 1][0..];
    }
  }

  lemma FillOne(acc: seq<seq<int>>, slot: Job, job: Job, k: nat)
    requires Filled(acc, slot, [(job, k)])
    ensures k == 5 ==> Filled(acc, slot, [])
    ensures k < 5 ==> Filled(acc, slot[k := job[k]], [(job, k + 1)])
  {
    if k == 5 {
      assert slot[..5] == slot && job[..5] == job;
    } else {
      var slot' := slot[k := job[k]];
      assert slot'[..k + 1] == slot[..k] + [job[k]] == job[..k + 1];
      assert slot'[k + 1..] == slot[k..][1..];
    }
  }

  /** Who writes after a producer has tested instance_cnt. */
  lemma TestWriter(s: State, i: nat)
    requires Control(s) && Enabled(s, Prod(i)) && s.prods[i].PTest?
    ensures Writer(s) == []
    ensures Writer(ProducerStep(s, i)) == if s.cnt == 0 then [] else [(s.prods[i].job, 0)]
  {
    assert s.owner == Producer(i);
  }

  lemma TestKeepsContents(s: State, i: nat)
    requires Control(s) && Contents(s) && Enabled(s, Prod(i)) && s.prods[i].PTest?
    ensures Contents(ProducerStep(s, i))
  {
    hide Filled, Control, Taken, Writer;
    TestWriter(s, i);
    var s', job := ProducerStep(s, i), s.prods[i].job;
    if s.cnt == 0 {
      TakenAppend(s.offers, Offer(job, false));
      assert Taken(s'.offers) == Taken(s.offers);
    } else {
      TakenAppend(s.offers, Offer(job, true));
      StartFill(Taken(s.offers), s.slot, job);
    }
  }

  lemma WriteKeepsContents(s: State, i: nat)
    requires Control(s) && Contents(s) && Enabled(s, Prod(i)) && s.prods[i].PWrite?
    ensures Contents(ProducerStep(s, i))
  {
    hide Filled;
    assert s.owner == Producer(i) && Writer(s) == [(s.prods[i].job, s.prods[i].k)];
    FillOne(Taken(s.offers), s.slot, s.prods[i].job, s.prods[i].k);
  }

  lemma ProducerKeepsContents(s: State, i: nat)
    requires Control(s) && Contents(s) && Enabled(s, Prod(i))
    ensures Contents(ProducerStep(s, i))
  {
    if s.prods[i].PTest? {
      TestKeepsContents(s, i);
    } else if s.prods[i].PWrite? {
      WriteKeepsContents(s, i);
    } else {
      hide Filled;
      QuietProducer(s, i);
    }
  }

  /** The lock and unlock steps of a producer leave the writing of the mailbox alone. */
  lemma QuietProducer(s: State, i: nat)
    requires Control(s) && Enabled(s, Prod(i)) && !s.prods[i].PTest? && !s.prods[i].PWrite?
    ensures !Writing(s) && !Writing(ProducerStep(s, i))
  {
  }

  /** While rxtx reads the fields no producer step changes them. */
  lemma ProducerLeavesRun(s: State, i: nat)
    requires Control(s) && Enabled(s, Prod(i)) && s.work.WRun?
    ensures ProducerStep(s, i).work == s.work && ProducerStep(s, i).slot == s.slot
  {
    assert s.prods[i].PWrite? ==> s.owner == Producer(i);
  }

  lemma ProducerKeepsPrefix(s: State, i: nat)
    requires Control(s) && Prefix(s) && Enabled(s, Prod(i))
    ensures Prefix(ProducerStep(s, i))
  {
    hide Control;
    var s' := ProducerStep(s, i);
    if s.work.WRun? {
      ProducerLeavesRun(s, i);
    }
    if s.prods[i].PTest? {
      TakenAppend(s.offers, Offer(s.prods[i].job, s.cnt != 0));
      assert Taken(s'.offers)[..|s.processed|] == Taken(s.offers)[..|s.processed|];
    }
  }

  lemma GoodArgsMono(acc: seq<seq<int>>, more: seq<seq<int>>, i: nat, args: map<nat, int>, fromNext: set<nat>)
    requires GoodArgs(acc, i, args, fromNext) && forall j | j in more :: |j| == 5
    ensures GoodArgs(acc + more, i, args, fromNext)
  {
  }

  lemma ProducerKeepsReading(s: State, i: nat)
    requires Control(s) && Counting(s) && ReadingInv(s) && Enabled(s, Prod(i))
    ensures ReadingInv(ProducerStep(s, i))
  {
    hide GoodArgs;
    if s.work.WArgs? && s.prods[i].PTest? {
      TestKeepsReading(s, i);
    }
  }

  lemma TestKeepsReading(s: State, i: nat)
    requires Control(s) && Counting(s) && ReadingInv(s) && Enabled(s, Prod(i)) && s.prods[i].PTest? && s.work.WArgs?
    ensures ReadingInv(ProducerStep(s, i))
  {
    hide Control;
    var job := s.prods[i].job;
    TakenAppend(s.offers, Offer(job, s.cnt != 0));
    if s.cnt != 0 {
      GoodArgsMono(Taken(s.offers), [job], |s.passed|, s.work.args, s.work.fromNext);
    }
  }

  lemma ProducerKeepsPassed(s: State, i: nat)
    requires PassedInv(s) && Enabled(s, Prod(i))
    ensures PassedInv(ProducerStep(s, i))
  {
    hide GoodArgs;
    if s.prods[i].PTest? {
      var job, acc := s.prods[i].job, Taken(s.offers);
      var more: seq<seq<int>> := if s.cnt != 0 then [job] else [];
      TakenAppend(s.offers, Offer(job, s.cnt != 0));
      forall k | 0 <= k < |s.passed|
        ensures GoodPass(acc + more, k, s.passed[k])
      {
        assert GoodPass(acc, k, s.passed[k]);
        GoodArgsMono(acc, more, k, s.passed[k].args, s.passed[k].fromNext);
      }
    }
  }

  lemma WorkerKeepsControl(s: State, f: nat)
    requires Control(s) && Enabled(s, Work(f))
    ensures Control(WorkerStep(s, f))
  {
  }

  lemma WorkerKeepsCounting(s: State, f: nat)
    requires Control(s) && Counting(s) && Enabled(s, Work(f))
    ensures Counting(WorkerStep(s, f))
  {
  }

  lemma WorkerKeepsContents(s: State, f: nat)
    requires Control(s) && Contents(s) && Enabled(s, Work(f))
    ensures Contents(WorkerStep(s, f))
  {
    hide Filled;
    var s' := WorkerStep(s, f);
    assert s'.prods == s.prods && s'.offers == s.offers && s'.slot == s.slot;
    assert s.owner.Producer? || s'.owner.Producer? ==> s'.owner == s.owner;
    hide Control, Enabled;
    assert Writer(s') == Writer(s);
  }

  lemma RunKeepsPrefix(s: State, f: nat)
    requires Control(s) && Counting(s) && Contents(s) && Prefix(s) && Enabled(s, Work(f)) && s.work.WRun?
    ensures Prefix(WorkerStep(s, f))
  {
    var acc, n := Taken(s.offers), |s.processed|;
    assert !Writing(s) && |acc| == n + 1 && s.slot == acc[n];
    hide Control, Contents, Counting, Taken;
    if |s.work.seen| == 5 {
      assert s.slot[..5] == s.slot;
      assert acc[..n + 1] == acc[..n] + [acc[n]];
    } else {
      assert s.slot[..|s.work.seen| + 1] == s.slot[..|s.work.seen|] + [s.slot[|s.work.seen|]];
    }
  }

  lemma WorkerKeepsPrefix(s: State, f: nat)
    requires Control(s) && Counting(s) && Contents(s) && Prefix(s) && Enabled(s, Work(f))
    ensures Prefix(WorkerStep(s, f))
  {
    hide Control, Contents, Counting;
    if s.work.WRun? {
      RunKeepsPrefix(s, f);
    } else {
      var s' := WorkerStep(s, f);
      assert s'.processed == s.processed && s'.offers == s.offers && s'.slot == s.slot;
      assert s'.work.WRun? ==> s'.work.seen == [];
    }
  }

  /** A field read without the mutex after a release. */
  lemma SlotField(s: State, f: nat)
    requires Control(s) && Counting(s) && Contents(s) && s.work.WArgs? && f in FIELDS
    requires |s.passed| < |Taken(s.offers)|
    ensures
      var acc, i := Taken(s.offers), |s.passed|;
      s.slot[f] == if Overwritten(s, f) then acc[i + 1][f] else acc[i][f]
  {
    if Writing(s) {
      var w, acc := s.prods[s.owner.i], Taken(s.offers);
      if f < w.k {
        assert s.slot[f] == s.slot[..w.k][f] == w.job[..w.k][f];
      } else {
        assert s.slot[f] == s.slot[w.k..][f - w.k] == acc[|acc| - 2][w.k..][f - w.k];
      }
    }
  }

  lemma ReadKeepsReading(s: State, f: nat)
    requires Control(s) && Counting(s) && Contents(s) && ReadingInv(s) && Enabled(s, Work(f))
    requires s.work.WArgs? && s.work.args.Keys != FIELDS
    ensures ReadingInv(WorkerStep(s, f))
  {
    SlotField(s, f);
    hide Control, Contents, Counting, Taken, Overwritten;
    AcceptedLengths(s.offers);
    if Overwritten(s, f) {
      OverwrittenMeans(s, f);
    }
  }

  lemma OverwrittenMeans(s: State, f: nat)
    requires Overwritten(s, f)
    ensures |Taken(s.offers)| == |s.passed| + 2
  {
  }

  lemma AcceptedLengths(offers: seq<Offer>)
    ensures forall j | 0 <= j < |Taken(offers)| :: |Taken(offers)[j]| == 5
  {
  }

  lemma WorkerKeepsReading(s: State, f: nat)
    requires Control(s) && Counting(s) && Contents(s) && ReadingInv(s) && Enabled(s, Work(f))
    ensures ReadingInv(WorkerStep(s, f))
  {
    hide Control, Contents;
    if s.work.WArgs? && s.work.args.Keys != FIELDS {
      ReadKeepsReading(s, f);
    } else if s.work.WReleaseUnlock? {
      AcceptedLengths(s.offers);
    }
  }

  lemma WorkerKeepsPassed(s: State, f: nat)
    requires ReadingInv(s) && PassedInv(s) && Enabled(s, Work(f))
    ensures PassedInv(WorkerStep(s, f))
  {
    hide GoodArgs;
  }

  lemma ProducerKeepsInv(s: State, i: nat)
    requires Inv(s) && Enabled(s, Prod(i))
    ensures Inv(ProducerStep(s, i))
  {
    hide Control, Counting, Contents, Prefix, ReadingInv, PassedInv;
    ProducerKeepsControl(s, i);
    ProducerKeepsCounting(s, i);
    ProducerKeepsContents(s, i);
    ProducerKeepsPrefix(s, i);
    ProducerKeepsReading(s, i);
    ProducerKeepsPassed(s, i);
  }

  lemma WorkerKeepsInv(s: State, f: nat)
    requires Inv(s) && Enabled(s, Work(f))
    ensures Inv(WorkerStep(s, f))
  {
    hide Control, Counting, Contents, Prefix, ReadingInv, PassedInv;
    WorkerKeepsControl(s, f);
    WorkerKeepsCounting(s, f);
    WorkerKeepsContents(s, f);
    WorkerKeepsPrefix(s, f);
    WorkerKeepsReading(s, f);
    WorkerKeepsPassed(s, f);
  }

  lemma CallKeepsInv(s: State, i: nat, job: Job)
    requires Inv(s) && Enabled(s, Call(i, job))
    ensures Inv(Apply(s, Call(i, job)))
  {
    hide GoodArgs, Filled;
    assert Writer(Apply(s, Call(i, job))) == Writer(s);
  }

  lemma StepKeepsInv(s: State, a: Step)
    requires Inv(s) && Enabled(s, a)
    ensures Inv(Apply(s, a))
  {
    match a
    case Call(i, job) => CallKeepsInv(s, i, job);
    case Prod(i) => ProducerKeepsInv(s, i);
    case Work(f) => WorkerKeepsInv(s, f);
    case Spurious => hide GoodArgs, Filled;
  }

  // ----- every run -----

  ghost predicate IsRun(trace: seq<State>, steps: seq<Step>) {
    && |trace| == |steps| + 1
    && (exists slot: Job, producers: nat :: trace[0] == Init(slot, producers))
    && forall i | 0 <= i < |steps| :: Enabled(trace[i], steps[i]) && trace[i + 1] == Apply(trace[i], steps[i])
  }

  lemma {:induction false} RunKeepsInv(trace: seq<State>, steps: seq<Step>, i: nat)
    requires IsRun(trace, steps) && i < |trace|
    ensures Inv(trace[i])
  {
    if i == 0 {
      var slot: Job, producers: nat :| trace[0] == Init(slot, producers);
      InitInv(slot, producers);
    } else {
      RunKeepsInv(trace, steps, i - 1);
      StepKeepsInv(trace[i - 1], steps[i - 1]);
    }
  }

  /** In every interleaving of any number of producers with L1_thread: instance_cnt stays in {-1, 0},
      and the processed jobs are the accepted offers in order, once each, with at most one pending. */
  lemma InOrderOnce(trace: seq<State>, steps: seq<Step>, i: nat)
    requires IsRun(trace, steps) && i < |trace|
    ensures
      var s, accepted := trace[i], Taken(trace[i].offers);
      && (s.cnt == -1 || s.cnt == 0)
      && |s.processed| <= |accepted| <= |s.processed| + 1
      && s.processed == accepted[..|s.processed|]
  {
    RunKeepsInv(trace, steps, i);
  }

  /** An offer is dropped exactly when the previously accepted one has not been released. */
  lemma DroppedOnlyWhileUnreleased(trace: seq<State>, steps: seq<Step>, i: nat)
    requires IsRun(trace, steps) && i < |steps| && steps[i].Prod?
    requires trace[i].prods[steps[i].i].PTest?
    ensures
      var s, s' := trace[i], trace[i + 1];
      && |s'.offers| == |s.offers| + 1
      && s'.offers[|s.offers|].job == s.prods[steps[i].i].job
      && (s'.offers[|s.offers|].taken <==> s.released == |Taken(s.offers)|)
      && (!s'.offers[|s.offers|].taken <==> s.released + 1 == |Taken(s.offers)|)
  {
    RunKeepsInv(trace, steps, i);
  }

  /** From the moment L1_thread has seen the wake-up until it releases, the mailbox is the accepted
      job at the position being processed and no step changes it. */
  lemma StableUntilRelease(trace: seq<State>, steps: seq<Step>, i: nat)
    requires IsRun(trace, steps) && i < |steps| && Working(trace[i])
    ensures
      var s := trace[i];
      && trace[i + 1].slot == s.slot
      && s.released < |Taken(s.offers)| && s.slot == Taken(s.offers)[s.released]
  {
    RunKeepsInv(trace, steps, i);
    hide GoodArgs;
    var s := trace[i];
    if steps[i].Prod? {
      var q := s.prods[steps[i].i];
      assert Holds(q) <==> s.owner == Producer(steps[i].i);
    }
  }

  /** Two jobs agree on some fields. */
  ghost predicate Agree(a: seq<int>, b: seq<int>, fields: set<nat>) {
    |a| == 5 && |b| == 5 && forall f | f in fields && f < 5 :: a[f] == b[f]
  }

  /** What wakeup_tx is called with after the k-th release: evaluated outside the mutex, every argument
      is that of job k, or of job k + 1 if that one had overwritten the field when it was read. So they
      are the processed job exactly if the two jobs agree on the fields overwritten in time. */
  lemma LateArguments(trace: seq<State>, steps: seq<Step>, i: nat, k: nat)
    requires IsRun(trace, steps) && i < |trace| && k < |trace[i].passed|
    ensures
      var a, acc := trace[i].passed[k], Taken(trace[i].offers);
      && k < |acc| && |acc[k]| == 5 && a.fromNext <= a.args.Keys == FIELDS
      && (a.fromNext != {} ==> k + 1 < |acc| && |acc[k + 1]| == 5)
      && (forall f | f in FIELDS :: a.args[f] == if f in a.fromNext then acc[k + 1][f] else acc[k][f])
      && ((forall f | f in FIELDS :: a.args[f] == acc[k][f])
          <==> a.fromNext == {} || Agree(acc[k], acc[k + 1], a.fromNext))
  {
    RunKeepsInv(trace, steps, i);
    GoodPassMeans(Taken(trace[i].offers), k, trace[i].passed[k]);
  }

  lemma GoodPassMeans(acc: seq<seq<int>>, k: nat, a: Passed)
    requires GoodPass(acc, k, a)
    ensures (forall f | f in FIELDS :: a.args[f] == acc[k][f])
            <==> a.fromNext == {} || Agree(acc[k], acc[k + 1], a.fromNext)
  {
  }

  /** Nothing left to do: no offer under way, L1_thread asleep, every accepted offer processed. */
  ghost predicate Resting(s: State) {
    && (forall p | 0 <= p < |s.prods| :: s.prods[p].PIdle?)
    && s.work.WSleep? && s.cnt == -1 && s.processed == Taken(s.offers)
  }

  lemma SomeStep(s: State) returns (a: Step)
    requires Inv(s) && !Resting(s)
    ensures (a.Prod? || a.Work?) && Enabled(s, a)
  {
    hide GoodArgs, Contents;
    if s.owner.Producer? {
      assert Holds(s.prods[s.owner.i]);
      a := Prod(s.owner.i);
    } else if s.owner.Worker? {
      a := Work(0);
    } else if p :| 0 <= p < |s.prods| && !s.prods[p].PIdle? {
      assert !Holds(s.prods[p]);
      a := Prod(p);
    } else {
      a := WorkerCanMove(s);
    }
  }

  lemma WorkerCanMove(s: State) returns (a: Step)
    requires Inv(s) && !Resting(s) && s.owner.Free? && forall p | 0 <= p < |s.prods| :: s.prods[p].PIdle?
    ensures a.Work? && Enabled(s, a)
  {
    hide Contents;
    assert !s.work.WSleep?;
    if s.work.WArgs? && s.work.args.Keys != FIELDS {
      var f := MissingField(s.work.args.Keys);
      a := Work(f);
    } else {
      a := Work(0);
    }
  }

  lemma MissingField(keys: set<nat>) returns (f: nat)
    requires keys <= FIELDS && keys != FIELDS
    ensures f in FIELDS && f !in keys
  {
    f := 0;
    while f < 4 && f in keys
      invariant f <= 4 && forall g: nat | g < f :: g in keys
    {
      f := f + 1;
    }
    assert f in keys ==> FIELDS <= keys;
  }

  /** No lost wake-up: as long as anything is left to do, some thread can move. */
  lemma DeadlockFree(trace: seq<State>, steps: seq<Step>, i: nat)
    requires IsRun(trace, steps) && i < |trace| && !Resting(trace[i])
    ensures exists a: Step :: (a.Prod? || a.Work?) && Enabled(trace[i], a)
  {
    RunKeepsInv(trace, steps, i);
    var a := SomeStep(trace[i]);
  }

  // ----- progress -----

  /** Steps a producer's call can still cause, L1_thread's round for it included. */
  ghost function ProducerRank(pc: ProducerPc): int {
    match pc
    case PIdle => 0
    case PDrop => 1
    case PUnlock => 1
    case PWrite(_, k) => 9 - k
    case PTest(_) => 28
    case PLock(_) => 29
  }

  ghost function ProducersRank(prods: seq<ProducerPc>): int {
    if prods == [] then 0 else ProducersRank(prods[..|prods| - 1]) + ProducerRank(prods[|prods| - 1])
  }

  ghost function WorkerRank(pc: WorkerPc): int {
    match pc
    case WSleep => 0
    case WTest => 1
    case WLock => 2
    case WWake => 2
    case WArgs(args, _) => 8 - |args.Keys|
    case WReleaseUnlock => 9
    case WRelease => 10
    case WReleaseLock => 11
    case WRun(seen) => 17 - |seen|
    case WUnlock => 18
  }

  /** An upper bound on the steps left before all threads rest, spurious wake-ups and new calls apart. */
  ghost function Rank(s: State): int {
    ProducersRank(s.prods) + WorkerRank(s.work) + if s.cnt == 0 && !Working(s) then 18 else 0
  }

  lemma {:induction false} RankUpdate(prods: seq<ProducerPc>, i: nat, pc: ProducerPc)
    requires i < |prods|
    ensures ProducersRank(prods[i := pc]) == ProducersRank(prods) - ProducerRank(prods[i]) + ProducerRank(pc)
  {
    var n := |prods| - 1;
    hide ProducerRank;
    if i == n {
      assert prods[i := pc][..n] == prods[..n];
    } else {
      assert prods[i := pc][..n] == prods[..n][i := pc];
      RankUpdate(prods[..n], i, pc);
    }
  }

  lemma ProducerProgress(s: State, i: nat)
    requires Control(s) && Enabled(s, Prod(i))
    ensures Rank(ProducerStep(s, i)) < Rank(s)
  {
    var s' := ProducerStep(s, i);
    RankUpdate(s.prods, i, s'.prods[i]);
    assert s'.prods == s.prods[i := s'.prods[i]];
    assert s.prods[i].PTest? || s.prods[i].PWrite? ==> s.owner == Producer(i);
    hide ProducersRank;
  }

  lemma WorkerProgress(s: State, f: nat)
    requires Control(s) && Enabled(s, Work(f))
    ensures Rank(WorkerStep(s, f)) < Rank(s)
  {
    hide ProducersRank;
    if s.work.WArgs? && s.work.args.Keys != FIELDS {
      assert s.work.args[f := s.slot[f]].Keys == s.work.args.Keys + {f};
    } else if s.work.WArgs? {
      assert |FIELDS| == 5;
    }
  }

  lemma {:induction false} ProducersRankBounds(prods: seq<ProducerPc>)
    requires forall i | 0 <= i < |prods| :: prods[i].PWrite? ==> prods[i].k <= 5
    ensures 0 <= ProducersRank(prods) <= 29 * |prods|
  {
    if prods != [] {
      ProducersRankBounds(prods[..|prods| - 1]);
    }
  }

  lemma RankBounds(s: State)
    requires Control(s) && Prefix(s) && ReadingInv(s)
    ensures 0 <= Rank(s) <= 29 * |s.prods| + 26
  {
    forall i | 0 <= i < |s.prods| && s.prods[i].PWrite? ensures s.prods[i].k <= 5 {
      assert Holds(s.prods[i]);
    }
    ProducersRankBounds(s.prods);
    hide ProducersRank, Taken;
    if s.work.WArgs? {
      FieldsAtMost(s.work.args.Keys);
    }
  }

  lemma FieldsAtMost(keys: set<nat>)
    requires keys <= FIELDS
    ensures |keys| <= 5
  {
    assert |FIELDS| == |keys| + |FIELDS - keys| by { assert keys + (FIELDS - keys) == FIELDS; }
    assert |FIELDS| == 5;
  }

  /** Bounded draining: from any reachable state, once calls and spurious wake-ups cease, the threads take
      at most Rank further steps, which is at most 29 for each radio unit and 26 more; DeadlockFree
      says what the state is then. */
  lemma {:induction false} Drains(trace: seq<State>, steps: seq<Step>, from: nat)
    requires IsRun(trace, steps) && from < |trace|
    requires forall i | from <= i < |steps| :: steps[i].Prod? || steps[i].Work?
    ensures |steps| - from <= Rank(trace[from]) <= 29 * |trace[from].prods| + 26
    decreases |trace| - from
  {
    RunKeepsInv(trace, steps, from);
    RankBounds(trace[from]);
    if from < |steps| {
      StepProgress(trace[from], steps[from]);
      Drains(trace, steps, from + 1);
    }
  }

  lemma StepProgress(s: State, a: Step)
    requires Control(s) && (a.Prod? || a.Work?) && Enabled(s, a)
    ensures Rank(Apply(s, a)) < Rank(s)
  {
    if a.Prod? {
      ProducerProgress(s, a.i);
    } else {
      WorkerProgress(s, a.f);
    }
  }

  // ----- overwritten arguments do occur -----

  lemma Extend(trace: seq<State>, steps: seq<Step>, a: Step) returns (trace': seq<State>, steps': seq<Step>)
    requires IsRun(trace, steps) && Enabled(trace[|steps|], a)
    ensures IsRun(trace', steps') && |trace'| == |steps'| + 1 && trace <= trace'
    ensures trace'[|steps'|] == Apply(trace[|steps|], a)
  {
    hide Enabled, Apply;
    trace', steps' := trace + [Apply(trace[|steps|], a)], steps + [a];
    assert trace'[0] == trace[0];
  }

  /** Every run that has just released a job, with a producer idle, can be continued so that
      wakeup_tx receives any chosen fields from whatever that producer offers next, and only the
      others from the job just processed: no mixture is ruled out. */
  lemma ArgumentsCanBeOverwritten(trace: seq<State>, steps: seq<Step>, i: nat, job: Job, next: set<nat>)
    returns (trace': seq<State>, steps': seq<Step>)
    requires IsRun(trace, steps) && next <= FIELDS
    requires
      var s := trace[|steps|];
      s.work == WArgs(map[], {}) && s.cnt == -1 && s.owner.Free? && i < |s.prods| && s.prods[i].PIdle?
    ensures IsRun(trace', steps') && trace <= trace'
    ensures
      var s, s' := trace[|steps|], trace'[|steps'|];
      && |s'.passed| == |s.passed| + 1 && s'.processed == s.processed
      && s'.passed[|s.passed|].args == map f: nat | f in FIELDS :: if f in next then job[f] else s.slot[f]
  {
    hide IsRun, Enabled, Apply, OverwrittenOf;
    RunLength(trace, steps);
    ghost var s := trace[|steps|];
    trace', steps' := ReadSome(trace, steps, FIELDS - next);
    trace', steps' := Publish(trace', steps', i, job);
    ghost var mid := trace'[|steps'|];
    assert mid.work.args == map f: nat | f in FIELDS - next :: s.slot[f];
    trace', steps' := ReadSome(trace', steps', next);
    assert trace'[|steps'|].work.args == map f: nat | f in FIELDS :: if f in next then job[f] else s.slot[f];
    trace', steps' := Finish(trace', steps');
  }

  /** L1_thread evaluates the arguments in `fields`, uninterrupted. */
  lemma {:induction false} ReadSome(trace: seq<State>, steps: seq<Step>, fields: set<nat>)
    returns (trace': seq<State>, steps': seq<Step>)
    requires IsRun(trace, steps) && trace[|steps|].work.WArgs? && fields <= FIELDS
    requires fields !! trace[|steps|].work.args.Keys
    ensures IsRun(trace', steps') && |trace'| == |steps'| + 1 && trace <= trace'
    ensures ReadingFrom(trace[|steps|], trace'[|steps'|], fields)
    ensures OverwrittenOf(trace[|steps|], trace'[|steps'|], fields)
    decreases fields
  {
    RunLength(trace, steps);
    hide IsRun;
    if fields == {} {
      trace', steps' := trace, steps;
    } else {
      hide ReadingFrom, OverwrittenOf, Enabled, Apply;
      var f :| f in fields;
      trace', steps' := ReadSome(trace, steps, fields - {f});
      StillUnread(trace[|steps|], trace'[|steps'|], fields - {f}, f);
      OverwrittenNext(trace[|steps|], trace'[|steps'|], fields - {f}, f);
      ReadNext(trace[|steps|], trace'[|steps'|], fields - {f}, f);
      trace', steps' := Extend(trace', steps', Work(f));
      assert fields - {f} + {f} == fields;
    }
  }

  lemma StillUnread(s: State, c: State, read: set<nat>, f: nat)
    requires ReadingFrom(s, c, read) && f !in read && f !in s.work.args
    ensures f !in c.work.args
  {
  }

  /** c is s after the arguments in `read` have been evaluated. */
  ghost predicate ReadingFrom(s: State, c: State, read: set<nat>) {
    && s.work.WArgs? && c.work.WArgs? && c == s.(work := c.work)
    && read !! s.work.args.Keys && read <= FIELDS
    && c.work.args == s.work.args + (map f: nat | f in read :: s.slot[f])
  }

  /** Which of them had been overwritten. */
  ghost predicate OverwrittenOf(s: State, c: State, read: set<nat>) {
    && s.work.WArgs? && c.work.WArgs?
    && c.work.fromNext == s.work.fromNext + (set f | f in read && Overwritten(s, f))
  }

  lemma ReadNext(s: State, c: State, read: set<nat>, k: nat)
    requires ReadingFrom(s, c, read) && k in FIELDS && k !in read && k !in s.work.args
    ensures Enabled(c, Work(k)) && ReadingFrom(s, Apply(c, Work(k)), read + {k})
  {
    assert k !in c.work.args;
    assert c.work.args.Keys != FIELDS;
  }

  lemma OverwrittenNext(s: State, c: State, read: set<nat>, k: nat)
    requires ReadingFrom(s, c, read) && OverwrittenOf(s, c, read) && k in FIELDS && k !in c.work.args
    ensures OverwrittenOf(s, Apply(c, Work(k)), read + {k})
  {
    assert c.work.args.Keys != FIELDS;
    assert Overwritten(c, k) == Overwritten(s, k);
    hide Overwritten;
  }

  /** With all arguments evaluated, wakeup_tx is called. */
  lemma Finish(trace: seq<State>, steps: seq<Step>) returns (trace': seq<State>, steps': seq<Step>)
    requires IsRun(trace, steps) && trace[|steps|].work.WArgs? && trace[|steps|].work.args.Keys == FIELDS
    ensures IsRun(trace', steps') && |trace'| == |steps'| + 1 && trace <= trace'
    ensures
      var s, s' := trace[|steps|], trace'[|steps'|];
      s' == s.(passed := s.passed + [Passed(s.work.args, s.work.fromNext)], work := WLock)
  {
    RunLength(trace, steps);
    hide IsRun;
    trace', steps' := Extend(trace, steps, Work(0));
  }

  lemma RunLength(trace: seq<State>, steps: seq<Step>)
    requires IsRun(trace, steps)
    ensures |trace| == |steps| + 1
  {
  }

  /** A wakeup_rxtx call of producer i up to its last field write, uninterrupted. */
  lemma Publish(trace: seq<State>, steps: seq<Step>, i: nat, job: Job)
    returns (trace': seq<State>, steps': seq<Step>)
    requires IsRun(trace, steps)
    requires
      var s := trace[|steps|];
      s.cnt == -1 && s.owner.Free? && i < |s.prods| && s.prods[i].PIdle?
    ensures IsRun(trace', steps') && |trace'| == |steps'| + 1 && trace <= trace'
    ensures WritingFrom(trace[|steps|], trace'[|steps'|], i, job, 5) && trace'[|steps'|].slot == job
  {
    RunLength(trace, steps);
    hide IsRun;
    ghost var s := trace[|steps|];
    trace', steps' := Extend(trace, steps, Call(i, job));
    trace', steps' := Extend(trace', steps', Prod(i));
    trace', steps' := Extend(trace', steps', Prod(i));
    hide Enabled, Apply;
    var k := 0;
    while k < 5
      invariant 0 <= k <= 5 && IsRun(trace', steps') && trace <= trace' && |trace'| == |steps'| + 1
      invariant WritingFrom(s, trace'[|steps'|], i, job, k)
    {
      WriteNext(s, trace'[|steps'|], i, job, k);
      trace', steps' := Extend(trace', steps', Prod(i));
      k := k + 1;
    }
    assert job[..5] == job && trace'[|steps'|].slot[..5] == trace'[|steps'|].slot;
  }

  /** c is s after producer i, holding the mutex, wrote k of the five fields. */
  ghost predicate WritingFrom(s: State, c: State, i: nat, job: Job, k: nat) {
    && c.work == s.work && c.passed == s.passed && c.processed == s.processed && c.released == s.released
    && c.offers == s.offers + [Offer(job, true)] && k <= 5 && i < |s.prods| && c.cnt == 0 && c.owner == Producer(i)
    && c.prods == s.prods[i := PWrite(job, k)] && c.slot[..k] == job[..k]
  }

  lemma WriteNext(s: State, c: State, i: nat, job: Job, k: nat)
    requires WritingFrom(s, c, i, job, k) && k < 5
    ensures Enabled(c, Prod(i)) && WritingFrom(s, Apply(c, Prod(i)), i, job, k + 1)
  {
    assert Apply(c, Prod(i)).slot[..k + 1] == c.slot[..k] + [job[k]] == job[..k + 1];
  }

  /** A whole accepted wakeup_rxtx call, uninterrupted. */
  lemma Deliver(trace: seq<State>, steps: seq<Step>, i: nat, job: Job)
    returns (trace': seq<State>, steps': seq<Step>)
    requires IsRun(trace, steps)
    requires
      var s := trace[|steps|];
      s.cnt == -1 && s.owner.Free? && i < |s.prods| && s.prods[i].PIdle? && !s.work.WSleep?
    ensures IsRun(trace', steps') && |trace'| == |steps'| + 1 && trace <= trace'
    ensures
      var s := trace[|steps|];
      trace'[|steps'|] == s.(cnt := 0, slot := job, offers := s.offers + [Offer(job, true)])
  {
    RunLength(trace, steps);
    hide IsRun;
    ghost var s := trace[|steps|];
    trace', steps' := Publish(trace, steps, i, job);
    trace', steps' := Extend(trace', steps', Prod(i));
    assert trace'[|steps'|].prods == s.prods[i := PUnlock];
    trace', steps' := Extend(trace', steps', Prod(i));
    assert trace'[|steps'|].prods == s.prods;
  }

  /** One round of L1_thread from taking an accepted job to its release, uninterrupted. */
  lemma Process(trace: seq<State>, steps: seq<Step>) returns (trace': seq<State>, steps': seq<Step>)
    requires IsRun(trace, steps)
    requires var s := trace[|steps|]; s.cnt == 0 && s.owner.Free? && s.work.WLock?
    ensures IsRun(trace', steps') && |trace'| == |steps'| + 1 && trace <= trace'
    ensures
      var s := trace[|steps|];
      trace'[|steps'|] == s.(cnt := -1, work := WArgs(map[], {}), processed := s.processed + [s.slot],
                             released := s.released + 1)
  {
    RunLength(trace, steps);
    hide IsRun;
    ghost var s := trace[|steps|];
    trace', steps' := Extend(trace, steps, Work(0));
    trace', steps' := Extend(trace', steps', Work(0));
    trace', steps' := Extend(trace', steps', Work(0));
    assert trace'[|steps'|] == s.(work := WRun([]));
    trace', steps' := RunThrough(trace', steps');
    trace', steps' := Extend(trace', steps', Work(0));
    trace', steps' := Extend(trace', steps', Work(0));
    trace', steps' := Extend(trace', steps', Work(0));
  }

  /** The situation is reachable: from the start, any one of the producers offers a job, which L1_thread
      takes, processes and releases. */
  lemma FirstRelease(slot: Job, producers: nat, i: nat, job: Job) returns (trace: seq<State>, steps: seq<Step>)
    requires i < producers
    ensures IsRun(trace, steps) && |trace| == |steps| + 1 && trace[0] == Init(slot, producers)
    ensures
      trace[|steps|] == Init(slot, producers).(
        slot := job, work := WArgs(map[], {}), offers := [Offer(job, true)], processed := [job], released := 1)
  {
    trace, steps := [Init(slot, producers)], [];
    assert IsRun(trace, steps);
    hide IsRun;
    trace, steps := Deliver(trace, steps, i, job);
    trace, steps := Process(trace, steps);
  }

  /** rxtx reads the mailbox uninterrupted. */
  lemma RunThrough(trace: seq<State>, steps: seq<Step>) returns (trace': seq<State>, steps': seq<Step>)
    requires IsRun(trace, steps) && trace[|steps|].work == WRun([])
    ensures IsRun(trace', steps') && |trace'| == |steps'| + 1 && trace <= trace'
    ensures
      var s := trace[|steps|];
      trace'[|steps'|] == s.(processed := s.processed + [s.slot], work := WReleaseLock)
  {
    RunLength(trace, steps);
    hide IsRun;
    ghost var s := trace[|steps|];
    trace', steps' := trace, steps;
    assert s.slot[..0] == [];
    ghost var k := 0;
    while k < 5
      invariant 0 <= k <= 5 && IsRun(trace', steps') && trace <= trace' && |trace'| == |steps'| + 1
      invariant trace'[|steps'|] == s.(work := WRun(s.slot[..k]))
    {
      assert s.slot[..k + 1] == s.slot[..k] + [s.slot[k]];
      trace', steps' := Extend(trace', steps', Work(0));
      k := k + 1;
    }
    assert s.slot[..5] == s.slot;
    trace', steps' := Extend(trace', steps', Work(0));
  }

  /** So for any two jobs and any fields there is a run in which the first job is processed and
      wakeup_tx receives these fields of the second. */
  lemma MixedArgumentsHappen(slot: Job, first: Job, second: Job, next: set<nat>)
    returns (trace: seq<State>, steps: seq<Step>)
    requires next <= FIELDS
    ensures IsRun(trace, steps) && |trace| == |steps| + 1
    ensures
      var s := trace[|steps|];
      && s.processed == [first] && |s.passed| == 1
      && s.passed[0].args == map f: nat | f in FIELDS :: if f in next then second[f] else first[f]
  {
    trace, steps := FirstRelease(slot, 1, 0, first);
    trace, steps := ArgumentsCanBeOverwritten(trace, steps, 0, second, next);
    RunLength(trace, steps);
  }
}
