/** Sample-clock tracking of a radio unit: rx_rf, the counters of ru_thread, eNB_top and tx_rf.
    Specification functions first, then what holds of every run; class RadioUnit (RadioUnits.dfy)
    holds the imperative routines proved against these functions. */
module RxClock {
  import opened Arith
  import opened SubframeTime
  import opened BurstControl

  /** ru->cmd, as far as rx_rf looks at it. */
  datatype Cmd = Empty | FrameResynch(frame: int)

  /** `emulated`: the softmodem's emulate_rf flag. `txInRx`: single-thread mode without an
      asynchronous northbound interface, where rx_rf also prepares the transmit timing. */
  datatype Params = Params(spt: int, ahead: nat, emulated: bool, txInRx: bool)

  datatype Clock = Clock(tsOffset: int, timestampRx: int, rx: Sfn, firstRx: bool, cmd: Cmd,
                         timestampTx: int, tx: Sfn, late: Late)

  /** The result of one rx_rf call: `exits` says that one of its two exit_fun branches was taken. */
  datatype Outcome = Outcome(clock: Clock, counters: Sfn, exits: bool)

  /** ts_offset once a pending resync command has been applied. */
  function ResynchOffset(p: Params, c: Clock): int {
    match c.cmd
    case Empty => c.tsOffset
    case FrameResynch(f) => c.tsOffset + (c.rx.frame - f) * (p.spt * 10)
  }

  /** Only the first reception and a resync on a real device can move the timestamp by anything
      other than one subframe; drift is absorbed. */
  function NewTimestamp(p: Params, c: Clock, ts: int): int {
    if c.firstRx then 0
    else if c.cmd.FrameResynch? && !p.emulated then ts - ResynchOffset(p, c)
    else c.timestampRx + p.spt
  }

  function NewOffset(p: Params, c: Clock, ts: int): int {
    if c.firstRx then (if p.emulated then c.timestampRx + p.spt else ts - ResynchOffset(p, c))
    else if c.cmd.FrameResynch? || p.emulated then ResynchOffset(p, c)
    else ts - (c.timestampRx + p.spt)
  }

  /** One rx_rf call: device timestamp `ts`, `rxs` samples received, the caller's counters `n`. */
  function Rx(p: Params, c: Clock, n: Sfn, ts: int, rxs: int): Outcome
    requires p.spt > 0
  {
    var t := NewTimestamp(p, c, ts);
    var d := Decode(t, p.spt);
    var n' := if c.cmd.FrameResynch? then n.(frame := c.cmd.frame) else n;
    Outcome(
      Clock(NewOffset(p, c, ts), t, d, false, Empty,
            if p.txInRx then t + p.ahead * p.spt else c.timestampTx,
            if p.txInRx then LookAhead(d, p.ahead) else c.tx,
            if rxs != p.spt then Terminate else c.late),
      if c.firstRx then d else n',
      !c.firstRx && d != n')
  }

  /** eNB_top's transmit timing, copied back to the radio unit. */
  function EnbTop(p: Params, c: Clock): Clock {
    c.(timestampTx := c.timestampRx + p.ahead * p.spt, tx := LookAhead(c.rx, p.ahead))
  }

  // ----- ru_thread's steady-state loop -----

  datatype Loop = Loop(clock: Clock, counters: Sfn, exited: bool)

  /** What the environment supplies to one iteration: any device timestamp, any number of samples,
      and possibly a resync command from the control thread. */
  datatype Read = Read(ts: int, rxs: int, cmd: Cmd)

  /** A new command replaces the one in ru->cmd; without one that stays as it is. */
  function Commanded(c: Clock, cmd: Cmd): Clock {
    if cmd.Empty? then c else c.(cmd := cmd)
  }

  function Step(p: Params, l: Loop, r: Read): Loop
    requires p.spt > 0
  {
    if l.exited then l
    else
      var o := Rx(p, Commanded(l.clock, r.cmd), Succ(l.counters), r.ts, r.rxs);
      Loop(o.clock, o.counters, o.exits)
  }

  function Run(p: Params, l: Loop, input: seq<Read>): Loop
    requires p.spt > 0
  {
    if input == [] then l
    else Step(p, Run(p, l, input[..|input| - 1]), input[|input| - 1])
  }

  /** Before the first reception; ts_offset and the stale timestamp are arbitrary. */
  ghost predicate Initial(l: Loop) {
    l.clock.firstRx && !l.exited && l.counters == Sfn(1023, 9)
  }

  /** The received timestamp's decoding and ru_thread's own counters agree, and no command is pending. */
  ghost predicate InStep(p: Params, l: Loop)
    requires p.spt > 0
  {
    && !l.clock.firstRx && !l.exited && l.clock.cmd.Empty?
    && Valid(l.counters) && l.clock.rx == l.counters == Decode(l.clock.timestampRx, p.spt)
  }

  ghost predicate Steady(p: Params, l: Loop)
    requires p.spt > 0
  {
    InStep(p, l) && l.clock.timestampRx >= 0
  }

  // ----- one iteration -----

  lemma FirstStep(p: Params, l: Loop, r: Read)
    requires p.spt > 0 && l.clock.firstRx && !l.exited
    ensures Steady(p, Step(p, l, r))
    ensures Step(p, l, r).clock.timestampRx == 0 && Abs(Step(p, l, r).counters) == 0
  {
    hide Decode, Hyper;
    DecodeAbs(0, p.spt);
    ZeroDiv(p.spt);
    WithinHyper(0);
  }

  lemma ZeroDiv(b: int)
    requires b > 0
    ensures 0 / b == 0
  {
    DivUnique(0, b, 0, 0);
  }

  /** Without a command the timestamp advances by exactly one subframe whatever the device said. */
  lemma PlainStep(p: Params, l: Loop, r: Read)
    requires p.spt > 0 && Steady(p, l) && r.cmd.Empty?
    ensures Steady(p, Step(p, l, r))
    ensures Step(p, l, r).clock.timestampRx == l.clock.timestampRx + p.spt
    ensures Abs(Step(p, l, r).counters) == Hyper(Abs(l.counters) + 1)
  {
    hide Decode, Hyper;
    DecodeSucc(l.clock.timestampRx, p.spt);
    SuccAbs(l.counters);
  }

  /** A negative timestamp, which only a command can produce, is out of step one read later. */
  lemma NegativeStep(p: Params, l: Loop, r: Read)
    requires p.spt > 0 && InStep(p, l) && l.clock.timestampRx < 0 && (r.cmd.Empty? || p.emulated)
    ensures Step(p, l, r).exited
  {
    hide Decode, Hyper, LookAhead, And1023;
    DecodeInRange(l.clock.timestampRx, p.spt);
    NextAfterNegative(l.clock.timestampRx, p.spt);
  }

  /** One subframe after a negative timestamp no subframe 1 is decoded. */
  lemma NextAfterNegative(ts: int, spt: int)
    requires spt > 0 && ts < 0
    ensures Decode(ts + spt, spt).tti <= 0
  {
    hide Decode, Hyper;
    var t := ts + spt;
    if t < 0 {
      DecodeNegative(t, spt);
    } else {
      DecodeAbs(t, spt);
      DivUnique(t, spt, 0, t);
      WithinHyper(0);
    }
  }

  // ----- frame resync -----

  /** The timestamp a resync command gives on a real device. */
  function ResynchTimestamp(p: Params, l: Loop, r: Read): int {
    r.ts - ResynchOffset(p, Commanded(l.clock, r.cmd))
  }

  /** How far the device clock has drifted since the last read, in whole subframes counted from the
      start of the current one; C division rounds up once the new timestamp is negative. */
  function DriftSubframes(p: Params, l: Loop, r: Read): int
    requires p.spt > 0
  {
    var drift := TruncMod(l.clock.timestampRx, p.spt) + (r.ts - l.clock.tsOffset - l.clock.timestampRx - p.spt);
    if ResynchTimestamp(p, l, r) >= 0 then drift / p.spt else -((-drift) / p.spt)
  }

  /** What makes a command fatal. On a real device: a frame number out of range, or drift by other than a
      whole hyper period, unless the read enters a new frame; then the drift must be one frame short
      of that. Under emulation: any frame but the one counted anyway. */
  ghost predicate Derails(p: Params, l: Loop, r: Read)
    requires p.spt > 0 && r.cmd.FrameResynch?
  {
    if p.emulated then
      l.clock.timestampRx < 0 || r.cmd.frame != Succ(l.counters).frame
    else
      || !(0 <= r.cmd.frame < 1024)
      || Hyper(DriftSubframes(p, l, r)) != (if l.counters.tti == 9 then 10230 else 0)
      || (ResynchTimestamp(p, l, r) < 0 && l.counters.tti != 9)
  }

  /** A resync iteration takes an exit branch exactly when the drift is fatal; otherwise the unit is in step
      in the commanded frame. */
  lemma ResynchStep(p: Params, l: Loop, r: Read)
    requires p.spt > 0 && InStep(p, l) && r.cmd.FrameResynch?
    ensures Step(p, l, r).exited <==> Derails(p, l, r)
    ensures !Derails(p, l, r) ==>
              InStep(p, Step(p, l, r)) && Step(p, l, r).counters == Sfn(r.cmd.frame, Succ(l.counters).tti)
  {
    hide Decode, Hyper, DriftSubframes;
    SuccAbs(l.counters);
    if !p.emulated {
      var t, target := ResynchTimestamp(p, l, r), Sfn(r.cmd.frame, Succ(l.counters).tti);
      DecodeInRange(t, p.spt);
      if 0 <= r.cmd.frame < 1024 {
        LandsOn(p, l, r);
        if Valid(Decode(t, p.spt)) && Abs(Decode(t, p.spt)) == Abs(target) {
          AbsInjective(Decode(t, p.spt), target);
        }
      }
    } else if l.clock.timestampRx < 0 {
      NegativeStep(p, l, r);
    } else {
      DecodeSucc(l.clock.timestampRx, p.spt);
    }
  }

  /** The subframe a resync lands on, by drift. */
  lemma LandsOn(p: Params, l: Loop, r: Read)
    requires p.spt > 0 && InStep(p, l) && !p.emulated && r.cmd.FrameResynch? && 0 <= r.cmd.frame < 1024
    ensures
      var q := TruncDiv(ResynchTimestamp(p, l, r), p.spt);
      && (Hyper(q) == r.cmd.frame * 10 + Succ(l.counters).tti
          <==> Hyper(DriftSubframes(p, l, r)) == if l.counters.tti == 9 then 10230 else 0)
      && (Hyper(q) == r.cmd.frame * 10 ==> q % 10 == 0)
  {
    hide Decode, Hyper, DriftSubframes, Succ;
    DecodeInRange(l.clock.timestampRx, p.spt);
    var k, m := TruncDiv(l.clock.timestampRx, p.spt), 1 + 10 * (r.cmd.frame - l.counters.frame);
    Landing(p, l, r, k + m);
    LandingSubframe(k, l.counters, r.cmd.frame, DriftSubframes(p, l, r));
    LastDigitOfHyper(TruncDiv(ResynchTimestamp(p, l, r), p.spt), r.cmd.frame);
  }

  /** A new timestamp is whole subframes and a drift. */
  lemma Landing(p: Params, l: Loop, r: Read, n: int)
    requires p.spt > 0 && r.cmd.FrameResynch? && l.clock.rx == l.counters
    requires n == TruncDiv(l.clock.timestampRx, p.spt) + (1 + 10 * (r.cmd.frame - l.counters.frame))
    ensures TruncDiv(ResynchTimestamp(p, l, r), p.spt) == n + DriftSubframes(p, l, r)
  {
    var t, spt, d := ResynchTimestamp(p, l, r), p.spt, r.ts - l.clock.tsOffset - l.clock.timestampRx - p.spt;
    var k, drift := TruncDiv(l.clock.timestampRx, spt), TruncMod(l.clock.timestampRx, spt) + d;
    assert t == drift + n * spt by {
      hide TruncDiv;
      Distribute(spt, l.counters.frame, r.cmd.frame);
      assert n * spt == k * spt + (1 + 10 * (r.cmd.frame - l.counters.frame)) * spt;
      assert k * spt == spt * k;
    }
    hide TruncMod;
    DivShift(drift, spt, n);
    DivShift(-drift, spt, -n);
    assert -t == -drift + (-n) * spt;
  }

  /** A command applied on a drift-free iteration, for targets above or below the current frame: it is
      fatal exactly if the iteration crosses a frame boundary or the target is no frame number. */
  lemma DriftFreeResynch(p: Params, l: Loop, r: Read)
    requires p.spt > 0 && Steady(p, l) && !p.emulated
    requires r.cmd.FrameResynch?
    requires r.ts - l.clock.tsOffset == l.clock.timestampRx + p.spt
    ensures Step(p, l, r).exited <==> l.counters.tti == 9 || !(0 <= r.cmd.frame < 1024)
    ensures !Step(p, l, r).exited ==>
              && Steady(p, Step(p, l, r))
              && Step(p, l, r).clock.rx == Sfn(r.cmd.frame, l.counters.tti + 1)
  {
    hide Decode, Hyper;
    ResynchStep(p, l, r);
    if 0 <= r.cmd.frame < 1024 {
      NonNegativeTarget(p, l, r);
      DivUnique(l.clock.timestampRx % p.spt, p.spt, 0, l.clock.timestampRx % p.spt);
      assert TruncMod(l.clock.timestampRx, p.spt) == l.clock.timestampRx % p.spt;
      WithinHyper(0);
    }
  }

  /** Without drift no command within range makes the timestamp negative. */
  lemma NonNegativeTarget(p: Params, l: Loop, r: Read)
    requires p.spt > 0 && Steady(p, l) && r.cmd.FrameResynch? && 0 <= r.cmd.frame
    requires r.ts - l.clock.tsOffset == l.clock.timestampRx + p.spt
    ensures ResynchTimestamp(p, l, r) >= 0
  {
    hide Decode, Hyper;
    var T, spt, m := l.clock.timestampRx, p.spt, 1 + 10 * (r.cmd.frame - l.counters.frame);
    DecodeAbs(T, spt);
    var k := T / spt;
    assert k >= Abs(l.counters) by { DivNonNegative(T, spt); HyperAtMost(k); }
    assert ResynchTimestamp(p, l, r) == T + m * spt by { Distribute(spt, l.counters.frame, r.cmd.frame); }
    DivShift(T, spt, m);
    assert k + m >= 0;
    NonNegativeFromDiv(T + m * spt, spt);
  }

  lemma HyperAtMost(k: int)
    requires k >= 0
    ensures Hyper(k) <= k
  {
  }

  lemma Distribute(spt: int, f: int, v: int)
    ensures spt - (f - v) * (spt * 10) == (1 + 10 * (v - f)) * spt
  {
  }

  lemma NonNegativeFromDiv(a: int, b: int)
    requires b > 0 && a / b >= 0
    ensures a >= 0
  {
    assert b * (a / b) >= 0;
  }

  lemma LandingSubframe(k: int, s: Sfn, v: int, q: int)
    requires Valid(s) && 0 <= v < 1024 && Hyper(k) == Abs(s)
    ensures Hyper(k + (1 + 10 * (v - s.frame)) + q) == v * 10 + Succ(s).tti
            <==> Hyper(q) == if s.tti == 9 then 10230 else 0
  {
    HyperSum(k, 1 + 10 * (v - s.frame) + q);
    SameHyper(10 * v + s.tti + 1 + q, v * 10 + Succ(s).tti);
    hide Hyper;
    if s.tti == 9 {
      MinusTen(q);
    } else {
      NoRest(q);
    }
  }

  lemma SameHyper(a: int, b: int)
    requires 0 <= b < 10240
    ensures Hyper(a) == b <==> (a - b) % 10240 == 0
  {
  }

  lemma MinusTen(q: int)
    ensures (10 + q) % 10240 == 0 <==> Hyper(q) == 10230
  {
  }

  lemma NoRest(q: int)
    ensures q % 10240 == 0 <==> Hyper(q) == 0
  {
  }

  lemma LastDigitOfHyper(q: int, v: int)
    ensures Hyper(q) == v * 10 ==> q % 10 == 0
  {
  }

  // ----- whole runs -----

  /** Drift absorption: for arbitrary device timestamps, the k-th reception after the first has
      timestamp k * spt, the counters agree with it, and neither exit branch is ever taken. */
  lemma {:induction false} DriftAbsorbed(p: Params, l: Loop, input: seq<Read>)
    requires p.spt > 0 && Initial(l) && input != []
    requires forall r | r in input :: r.cmd.Empty?
    ensures Steady(p, Run(p, l, input))
    ensures Run(p, l, input).clock.timestampRx == (|input| - 1) * p.spt
    ensures Abs(Run(p, l, input).counters) == Hyper(|input| - 1)
  {
    hide Steady, Step, Decode, Abs;
    var n := |input| - 1;
    if n == 0 {
      assert Run(p, l, input[..n]) == l;
      FirstStep(p, l, input[0]);
    } else {
      DriftAbsorbed(p, l, input[..n]);
      PlainStep(p, Run(p, l, input[..n]), input[n]);
      HyperSum(n - 1, 1);
      OneMore(n - 1, p.spt);
    }
  }

  lemma OneMore(n: int, x: int)
    ensures n * x + x == (n + 1) * x
  {
  }

  /** The run is derailed by its k-th read: by a fatal command, or by the first read without one after a
      command left the timestamp negative. */
  ghost predicate DerailsAt(p: Params, l: Loop, input: seq<Read>, k: nat)
    requires p.spt > 0 && k < |input|
  {
    var before := Run(p, l, input[..k]);
    && !before.exited && !before.clock.firstRx
    && if input[k].cmd.FrameResynch? then Derails(p, before, input[k]) else before.clock.timestampRx < 0
  }

  /** Any mix of device timestamps, short reads and commands: ru_thread's counters agree with the received
      timestamp for the whole run unless a read derails it, and the run exits exactly when one does. */
  lemma {:induction false} RunExitsOnlyByBadResynch(p: Params, l: Loop, input: seq<Read>)
    requires p.spt > 0 && Initial(l)
    ensures Run(p, l, input).exited <==> exists k | 0 <= k < |input| :: DerailsAt(p, l, input, k)
    ensures input != [] && !Run(p, l, input).exited ==> InStep(p, Run(p, l, input))
  {
    hide InStep, Decode, Derails;
    if input != [] {
      var n := |input| - 1;
      RunExitsOnlyByBadResynch(p, l, input[..n]);
      LastStep(p, l, input);
      DerailsPrefix(p, l, input);
    }
  }

  /** The last read of a run that has not exited yet. */
  lemma LastStep(p: Params, l: Loop, input: seq<Read>)
    requires p.spt > 0 && Initial(l) && input != []
    requires
      var n := |input| - 1;
      var before := Run(p, l, input[..n]);
      n > 0 && !before.exited ==> InStep(p, before)
    ensures
      var n := |input| - 1;
      var before := Run(p, l, input[..n]);
      && (Run(p, l, input).exited <==> before.exited || DerailsAt(p, l, input, n))
      && (!Run(p, l, input).exited ==> InStep(p, Run(p, l, input)))
  {
    hide Decode, Hyper, Derails;
    var n := |input| - 1;
    var before := Run(p, l, input[..n]);
    if n == 0 {
      assert before == l;
      FirstStep(p, l, input[0]);
    } else if !before.exited {
      if input[n].cmd.FrameResynch? {
        ResynchStep(p, before, input[n]);
      } else if before.clock.timestampRx < 0 {
        NegativeStep(p, before, input[n]);
      } else {
        PlainStep(p, before, input[n]);
      }
    }
  }

  lemma DerailsPrefix(p: Params, l: Loop, input: seq<Read>)
    requires p.spt > 0 && input != []
    ensures
      var n := |input| - 1;
      (exists k | 0 <= k < |input| :: DerailsAt(p, l, input, k))
      <==> DerailsAt(p, l, input, n) || exists k | 0 <= k < n :: DerailsAt(p, l, input[..n], k)
  {
    hide Run, Derails;
    var n := |input| - 1;
    forall k | 0 <= k < n
      ensures DerailsAt(p, l, input, k) <==> DerailsAt(p, l, input[..n], k)
    {
      assert input[..n][..k] == input[..k];
    }
  }

  /** Ten reads without a command, or any multiple of ten, and then a drift-free command to any frame end
      the process: a run that a resync derails although the device did nothing wrong. */
  lemma DriftFreeResynchDerails(p: Params, l: Loop, input: seq<Read>)
    requires p.spt > 0 && !p.emulated && Initial(l) && |input| > 1 && |input| % 10 == 1
    requires
      var n := |input| - 1;
      (forall r | r in input[..n] :: r.cmd.Empty?) && input[n].cmd.FrameResynch?
    ensures
      var n := |input| - 1;
      var before := Run(p, l, input[..n]).clock;
      input[n].ts - before.tsOffset == before.timestampRx + p.spt ==> Run(p, l, input).exited
  {
    hide Decode, Hyper, Steady, Step, Initial;
    var n := |input| - 1;
    DriftAbsorbed(p, l, input[..n]);
    LastInFrame(p, Run(p, l, input[..n]), n);
    var before := Run(p, l, input[..n]);
    if input[n].ts - before.clock.tsOffset == before.clock.timestampRx + p.spt {
      DriftFreeResynch(p, before, input[n]);
    }
  }

  lemma LastInFrame(p: Params, l: Loop, n: nat)
    requires p.spt > 0 && Steady(p, l) && n > 0 && n % 10 == 0 && Abs(l.counters) == Hyper(n - 1)
    ensures l.counters.tti == 9
  {
    hide Decode;
  }

  /** Such a run exists for every configuration of a real device and every target. */
  lemma DerailedRun(p: Params, l: Loop, frame: int) returns (input: seq<Read>)
    requires p.spt > 0 && !p.emulated && Initial(l)
    ensures |input| == 11 && (forall i | 0 <= i < 10 :: input[i].cmd.Empty?)
    ensures input[10].cmd == FrameResynch(frame)
    ensures
      var before := Run(p, l, input[..10]).clock;
      input[10].ts - before.tsOffset == before.timestampRx + p.spt
    ensures Run(p, l, input).exited
  {
    hide Run, Initial;
    var plain := seq(10, i => Read(i * p.spt, p.spt, Empty));
    var c := Run(p, l, plain).clock;
    input := plain + [Read(c.tsOffset + c.timestampRx + p.spt, p.spt, FrameResynch(frame))];
    assert input[..10] == plain;
    DriftFreeResynchDerails(p, l, input);
  }

  // ----- device time -----

  /** timestamp_rx = ts - ts_offset is re-established by every read after the first on a real device;
      by the first one exactly if ts_offset (after any command) was zero. */
  lemma DeviceOffset(p: Params, c: Clock, n: Sfn, ts: int, rxs: int)
    requires p.spt > 0 && !p.emulated
    ensures
      var c' := Rx(p, c, n, ts, rxs).clock;
      c'.timestampRx == ts - c'.tsOffset <==> !c.firstRx || ResynchOffset(p, c) == 0
  {
    hide Decode, Hyper;
  }

  /** Under emulation the device's timestamps play no part: the first read makes ts_offset the timestamp that
      would have come next, and afterwards only commands move it, by whole frames. */
  lemma EmulatedOffset(p: Params, c: Clock, n: Sfn, ts: int, rxs: int)
    requires p.spt > 0 && p.emulated
    ensures
      var c' := Rx(p, c, n, ts, rxs).clock;
      && (c.firstRx ==> c'.tsOffset == c.timestampRx + p.spt && c'.timestampRx == 0)
      && (!c.firstRx ==> c'.timestampRx == c.timestampRx + p.spt)
      && (!c.firstRx && c.cmd.Empty? ==> c'.tsOffset == c.tsOffset)
      && (!c.firstRx && c.cmd.FrameResynch? ==>
            c'.tsOffset - c.tsOffset == 10 * (p.spt * (c.rx.frame - c.cmd.frame)))
  {
    hide Decode, LookAhead;
  }

  /** eNB_top finds the transmit timing as rx_rf left it, so both single-thread paths agree. */
  lemma EnbTopAfterRx(p: Params, c: Clock, n: Sfn, ts: int, rxs: int)
    requires p.spt > 0 && p.txInRx
    ensures var c' := Rx(p, c, n, ts, rxs).clock; EnbTop(p, c') == c'
  {
    hide Decode, Hyper, LookAhead;
  }

  // ----- tx_rf -----

  /** Frame and device parameters of tx_rf. `align` is 8 on x86 and 4 on ARM. */
  datatype TxParams = TxParams(duplex: Duplex, ofdmSymbol: nat, prefix0: nat, prefix: nat,
                               dlSymbolsInS: nat, slave: bool, endOfBurstDelay: nat,
                               sfExtension: nat, align: nat, usrpTxThread: bool, rfsim: bool)

  /** txsymb > 0 is asserted by the source. */
  predicate ValidTx(x: TxParams) {
    Supported(x.duplex) && x.dlSymbolsInS + (if x.slave then 0 else 1) > 0 && (x.align == 8 || x.align == 4)
  }

  function SignalLength(p: Params, x: TxParams, sf: int): int
    requires ValidTx(x) && 0 <= sf < 10
  {
    if SubframeSelect(x.duplex, sf) == S then
      x.ofdmSymbol + x.prefix0
      + (x.dlSymbolsInS + (if x.slave then 0 else 1) - 1) * (x.ofdmSymbol + x.prefix)
      + x.endOfBurstDelay
    else p.spt
  }

  /** Samples sent ahead of a burst, rounded down to the device's alignment. */
  function Extension(x: TxParams, sf: int): int
    requires ValidTx(x) && 0 <= sf < 10
  {
    if x.duplex.TDD? && SubframeSelect(x.duplex, sf) == DL && SubframeSelect(x.duplex, Before(sf)) == UL
    then x.sfExtension - x.sfExtension % x.align else 0
  }

  /** One trx_write_func call. */
  datatype DeviceWrite = DeviceWrite(start: int, length: int, flag: Flag)

  /** The writes of one tx_rf call: none or one. */
  function Writes(p: Params, x: TxParams, c: Clock, sf: int, timestamp: int): seq<DeviceWrite>
    requires ValidTx(x) && 0 <= sf < 10
  {
    var at := timestamp + c.tsOffset;
    if SubframeSelect(x.duplex, sf) == UL then (if x.rfsim then [DeviceWrite(at, 1, StartAndEnd)] else [])
    else
      var ext := Extension(x, sf);
      var sent := Sent(x.duplex, sf, c.late);
      if sent == [] then []
      else [DeviceWrite(at - ext, SignalLength(p, x, sf) + ext, sent[0].flag)]
  }

  /** The special subframe's block lasts until its last symbol, symbol by symbol, and the delay after it. */
  ghost function SymbolsLength(x: TxParams, symbols: nat): int {
    if symbols == 0 then 0
    else SymbolsLength(x, symbols - 1) + x.ofdmSymbol + if symbols == 1 then x.prefix0 else x.prefix
  }

  lemma SpecialLength(p: Params, x: TxParams, sf: int)
    requires ValidTx(x) && 0 <= sf < 10 && SubframeSelect(x.duplex, sf) == S
    ensures SignalLength(p, x, sf)
            == SymbolsLength(x, if x.slave then x.dlSymbolsInS else x.dlSymbolsInS + 1) + x.endOfBurstDelay
  {
    SymbolsClosedForm(x, x.dlSymbolsInS + if x.slave then 0 else 1);
  }

  lemma {:induction false} SymbolsClosedForm(x: TxParams, symbols: nat)
    requires symbols > 0
    ensures SymbolsLength(x, symbols) == x.ofdmSymbol + x.prefix0 + (symbols - 1) * (x.ofdmSymbol + x.prefix)
  {
    if symbols > 1 {
      SymbolsClosedForm(x, symbols - 1);
      OneMore(symbols - 2, x.ofdmSymbol + x.prefix);
    }
  }

  /** Only the block that opens a TDD burst is extended, by the configured samples rounded down to a whole
      number of the device's units. */
  lemma ExtensionAligned(x: TxParams, sf: int)
    requires ValidTx(x) && 0 <= sf < 10
    ensures Extension(x, sf) % x.align == 0
    ensures
      if x.duplex.TDD? && SubframeSelect(x.duplex, sf) == DL && SubframeSelect(x.duplex, if sf == 0 then 9 else sf - 1) == UL
      then x.sfExtension - x.align < Extension(x, sf) <= x.sfExtension
      else Extension(x, sf) == 0
  {
  }

  /** Device-time refinement over whole runs: after any history of drift corrections and landed
      resyncs, the block tx_rf writes for the prepared subframe begins (extension aside) exactly
      `ahead` subframes after the device timestamp of the block just read, and a downlink block ends one
      subframe later. Only a run of a single read depends on what ts_offset was at the start. Unless a
      command left the timestamp negative, the subframe is the one its timestamp decodes to exactly if the
      look-ahead carries over at most one frame. */
  lemma {:induction false} DeviceTimeRefinement(p: Params, x: TxParams, l: Loop, input: seq<Read>)
    requires p.spt > 0 && !p.emulated && p.txInRx && ValidTx(x)
    requires Initial(l) && input != []
    requires |input| == 1 ==> ResynchOffset(p, Commanded(l.clock, input[0].cmd)) == 0
    ensures
      var c := EnbTop(p, Run(p, l, input).clock);
      !Run(p, l, input).exited ==>
      && Valid(c.tx)
      && (c.timestampRx >= 0 ==> (c.tx == Decode(c.timestampTx, p.spt) <==> SingleCarry(c.rx.tti, p.ahead)))
      && forall w | w in Writes(p, x, c, c.tx.tti, c.timestampTx) ::
           && w.start + (if SubframeSelect(x.duplex, c.tx.tti) == UL then 0 else Extension(x, c.tx.tti))
              == input[|input| - 1].ts + p.ahead * p.spt
           && (SubframeSelect(x.duplex, c.tx.tti) == DL ==>
                 w.start + w.length == input[|input| - 1].ts + p.ahead * p.spt + p.spt)
  {
    hide Decode, Hyper, LookAhead, Sent, SingleCarry;
    var n := |input| - 1;
    var before, after := Run(p, l, input[..n]), Run(p, l, input);
    if after.exited {
      return;
    }
    RunExitsOnlyByBadResynch(p, l, input);
    assert !before.exited;
    var c := Commanded(before.clock, input[n].cmd);
    DeviceOffset(p, c, Succ(before.counters), input[n].ts, input[n].rxs);
    if n == 0 {
      assert before == l;
    } else {
      RunExitsOnlyByBadResynch(p, l, input[..n]);
    }
    assert after.clock.timestampRx == input[n].ts - after.clock.tsOffset;
    AheadValid(after.counters, p.ahead);
    if after.clock.timestampRx >= 0 {
      LookAheadCommutes(after.clock.timestampRx, p.spt, p.ahead);
    }
  }

  lemma AheadValid(s: Sfn, ahead: nat)
    requires Valid(s)
    ensures Valid(LookAhead(s, ahead))
  {
  }
}
