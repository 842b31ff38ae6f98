/**
 * The UE's sample accounting (executables/lte-ue.c, streaming part of UE_thread): after the first
 * OFDM symbol of a frame has been read, every subframe reads one block and writes one block two
 * subframes ahead. The last subframe of a frame reads short, so that the next frame's first symbol
 * can be read separately, and drops or adds one sample to follow the estimated timing offset.
 * The device counts samples contiguously: a read is stamped with the number of samples read before.
 */
module UeStream {
  import LockStep

  /** `symbol` is the first OFDM symbol with its prefix. */
  datatype Params = Params(spt: nat, symbol: nat, noCorrection: bool)

  /** The device calls of one subframe; `firstLength` is 0 when no first symbol is read. */
  datatype Transfer = Transfer(
    readStart: int, readLength: int, readOffset: int,
    writeStart: int, writeLength: int,
    firstStart: int, firstLength: int)

  /** `pos` is the device's sample count, `sub` the last subframe handled (-1 before any). */
  datatype Stream = Stream(pos: int, sub: int, diff: int, log: seq<Transfer>)

  /** The timing correction chosen in the last subframe of a frame. */
  function Correction(p: Params, rxOffset: int): (r: int)
    ensures -1 <= r <= 1
  {
    if p.noCorrection then 0
    else if 5 * p.spt < rxOffset < 10 * p.spt then 1
    else if 0 < rxOffset < 5 * p.spt then -1
    else 0
  }

  /** The stream right after the first symbol of the frame starting at device sample `origin`. */
  function Start(p: Params, origin: int): Stream {
    Stream(origin + p.symbol, -1, 0, [])
  }

  function ReadLength(p: Params, sub: int, diff: int): int {
    if sub < 9 then p.spt else p.spt - p.symbol - diff
  }

  function WriteLength(p: Params, sub: int, diff: int): int {
    if sub < 9 then p.spt else p.spt - diff
  }

  function Step(p: Params, s: Stream, rxOffset: int): Stream {
    var sub := (s.sub + 1) % 10;
    var diff := if sub < 9 then s.diff else Correction(p, rxOffset);
    var readLength, writeLength := ReadLength(p, sub, diff), WriteLength(p, sub, diff);
    var first := if sub == 9 && writeLength - readLength > 0 then writeLength - readLength else 0;
    Stream(s.pos + readLength + first, sub, diff, s.log + [Transfer(
      s.pos, readLength, p.symbol + sub * p.spt,
      s.pos + 2 * p.spt - p.symbol, writeLength,
      s.pos + readLength, first)])
  }

  /** The k-th element is the offset estimate in force when subframe k is handled. */
  function Run(p: Params, s: Stream, offsets: seq<int>): Stream {
    if offsets == [] then s
    else Step(p, Run(p, s, offsets[..|offsets| - 1]), offsets[|offsets| - 1])
  }

  /** The timing corrections of the completed frames. */
  function Corrections(p: Params, offsets: seq<int>): int {
    if offsets == [] then 0
    else Corrections(p, offsets[..|offsets| - 1]) + Corrected(p, |offsets|, offsets[|offsets| - 1])
  }

  /** What subframe number n (from 1) contributes: only every tenth one corrects. */
  function Corrected(p: Params, n: nat, rxOffset: int): int {
    if n % 10 == 0 then Correction(p, rxOffset) else 0
  }

  lemma PrefixOfPrefix(offsets: seq<int>, k: nat)
    requires k < |offsets|
    ensures offsets[..k + 1][..k] == offsets[..k] && offsets[..k + 1][k] == offsets[k]
  {
  }

  /** After n subframes: which subframe was last, and how many samples were consumed. */
  lemma {:induction false} Consumed(p: Params, origin: int, offsets: seq<int>)
    ensures var s := Run(p, Start(p, origin), offsets);
      && |s.log| == |offsets|
      && -1 <= s.sub < 10 && (s.sub + 1) % 10 == |offsets| % 10
      && s.pos == origin + p.symbol + |offsets| * p.spt - Corrections(p, offsets)
  {
    hide Step, Corrected;
    if offsets != [] {
      var before := offsets[..|offsets| - 1];
      Consumed(p, origin, before);
      StepMoves(p, Run(p, Start(p, origin), before), offsets[|offsets| - 1], |before|);
      NextDigit(|before|);
      Scale(|before|, 0, p.spt);
    }
  }

  lemma NextDigit(n: nat)
    ensures (n % 10 + 1) % 10 == (n + 1) % 10
  {
  }

  lemma StepMoves(p: Params, s: Stream, rxOffset: int, n: nat)
    requires -1 <= s.sub < 10 && (s.sub + 1) % 10 == n % 10
    ensures var s' := Step(p, s, rxOffset);
      && s'.sub == n % 10
      && |s'.log| == |s.log| + 1
      && s'.pos == s.pos + p.spt - Corrected(p, n + 1, rxOffset)
  {
  }

  /** Whole frames: N frames consume exactly 10*N subframes of samples less the corrections. */
  lemma FramesConsume(p: Params, origin: int, offsets: seq<int>, frames: nat)
    requires |offsets| == 10 * frames
    ensures Run(p, Start(p, origin), offsets).pos - Start(p, origin).pos
         == 10 * frames * p.spt - Corrections(p, offsets)
  {
    Consumed(p, origin, offsets);
  }

  /** Calls already made are not revised. */
  lemma {:induction false} LogIsPrefix(p: Params, origin: int, offsets: seq<int>, k: nat)
    requires k < |offsets|
    ensures |Run(p, Start(p, origin), offsets).log| == |offsets|
    ensures |Run(p, Start(p, origin), offsets[..k + 1]).log| == k + 1
    ensures Run(p, Start(p, origin), offsets).log[k] == Run(p, Start(p, origin), offsets[..k + 1]).log[k]
  {
    Consumed(p, origin, offsets);
    Consumed(p, origin, offsets[..k + 1]);
    if k + 1 == |offsets| {
      assert offsets[..k + 1] == offsets;
    } else {
      var before := offsets[..|offsets| - 1];
      assert before[..k + 1] == offsets[..k + 1];
      LogIsPrefix(p, origin, before, k);
    }
  }

  /** The calls of subframe k, in closed form. */
  lemma CallsOf(p: Params, origin: int, offsets: seq<int>, k: nat)
    requires k < |offsets|
    ensures |Run(p, Start(p, origin), offsets).log| == |offsets|
    ensures var c, t := Corrections(p, offsets[..k]), Run(p, Start(p, origin), offsets).log[k];
      && t.writeStart == t.readStart + 2 * p.spt - p.symbol == origin + (k + 2) * p.spt - c
      && t.writeLength == p.spt - Corrected(p, k + 1, offsets[k])
      && t.readStart - t.readOffset == origin + (k - k % 10) * p.spt - c
      && t.readLength + t.firstLength == t.writeLength
      && (if k % 10 == 9 then t.firstLength == p.symbol else t.firstLength == 0)
      && t.firstStart + t.firstLength == origin + p.symbol + (k + 1) * p.spt - Corrections(p, offsets[..k + 1])
  {
    LogIsPrefix(p, origin, offsets, k);
    PrefixOfPrefix(offsets, k);
    Consumed(p, origin, offsets[..k]);
    var s := Run(p, Start(p, origin), offsets[..k]);
    assert Run(p, Start(p, origin), offsets[..k + 1]) == Step(p, s, offsets[k]);
    assert Corrections(p, offsets[..k + 1]) == Corrections(p, offsets[..k]) + Corrected(p, k + 1, offsets[k]);
    hide Run, Corrections;
    StepCalls(p, s, offsets[k], k);
    Scale(k, k % 10, p.spt);
  }

  lemma StepCalls(p: Params, s: Stream, rxOffset: int, k: nat)
    requires -1 <= s.sub < 10 && (s.sub + 1) % 10 == k % 10 && |s.log| == k
    ensures |Step(p, s, rxOffset).log| == k + 1
    ensures var t := Step(p, s, rxOffset).log[k];
      && t.writeStart == s.pos + 2 * p.spt - p.symbol
      && t.writeLength == p.spt - Corrected(p, k + 1, rxOffset)
      && t.readStart == s.pos && t.readOffset == p.symbol + (k % 10) * p.spt
      && t.readLength + t.firstLength == t.writeLength
      && (if k % 10 == 9 then t.firstLength == p.symbol else t.firstLength == 0)
      && t.firstStart == s.pos + t.readLength
  {
  }

  lemma Scale(k: nat, r: nat, spt: nat)
    ensures (k + 2) * spt == k * spt + 2 * spt && (k + 1) * spt == k * spt + spt
    ensures (k - r) * spt == k * spt - r * spt
  {
  }

  /**
   * Gapless transmission: over any run and any offset estimates, every write starts exactly where
   * the one before it ended; the first starts two subframes after the frame origin.
   */
  lemma GaplessTransmission(p: Params, origin: int, offsets: seq<int>, k: nat)
    requires k < |offsets|
    ensures var log := Run(p, Start(p, origin), offsets).log;
      && |log| == |offsets|
      && log[0].writeStart == origin + 2 * p.spt
      && (k > 0 ==> log[k].writeStart == log[k - 1].writeStart + log[k - 1].writeLength)
      && p.spt - 1 <= log[k].writeLength <= p.spt + 1
  {
    CallsOf(p, origin, offsets, k);
    CallsOf(p, origin, offsets, 0);
    assert offsets[..0] == [];
    if k > 0 {
      CallsOf(p, origin, offsets, k - 1);
      PrefixOfPrefix(offsets, k - 1);
      assert offsets[..k - 1 + 1] == offsets[..k];
      assert Corrections(p, offsets[..k])
          == Corrections(p, offsets[..k - 1]) + Corrected(p, k, offsets[k - 1]);
      hide Run, Corrections;
      Scale(k - 1, 0, p.spt);
      Scale(k, 0, p.spt);
    }
  }

  /** With timing correction switched off nothing is ever corrected: every block is one subframe long and
      subframe k starts at k times samples_per_tti, for any offset estimates. */
  lemma UncorrectedStream(p: Params, origin: int, offsets: seq<int>, k: nat)
    requires p.noCorrection && k < |offsets|
    ensures |Run(p, Start(p, origin), offsets).log| == |offsets|
    ensures
      var t := Run(p, Start(p, origin), offsets).log[k];
      t.writeStart == origin + (k + 2) * p.spt && t.writeLength == p.spt
  {
    CallsOf(p, origin, offsets, k);
    NothingCorrected(p, offsets[..k]);
    hide Run, Corrections;
  }

  lemma {:induction false} NothingCorrected(p: Params, offsets: seq<int>)
    requires p.noCorrection
    ensures Corrections(p, offsets) == 0
  {
    if offsets != [] {
      NothingCorrected(p, offsets[..|offsets| - 1]);
    }
  }

  /** The workers' side: in every run of the lock-step with UE_thread streaming, the k-th processed
      subframe carries the transmit timestamp four subframes after its own start on the device, which is
      two subframes after the block UE_thread wrote for it. */
  lemma WorkerTimestamp(p: Params, origin: int, offsets: seq<int>, start: LockStep.Start,
                        trace: seq<LockStep.State>, steps: seq<LockStep.Step>, i: nat, k: nat)
    requires LockStep.IsRun(trace, steps, start) && i < |trace| && k < |trace[i].done| && k < |offsets|
    requires |Run(p, Start(p, origin), offsets).log| == |offsets|
    requires start.stamps(k) == Run(p, Start(p, origin), offsets).log[k].readStart + 4 * p.spt - p.symbol
    ensures trace[i].done[k].timestampTx == origin + (k + 4) * p.spt - Corrections(p, offsets[..k])
    ensures trace[i].done[k].timestampTx == Run(p, Start(p, origin), offsets).log[k].writeStart + 2 * p.spt
  {
    hide LockStep.IsRun, Run, Corrections, Corrected;
    LockStep.ConsecutiveAlternating(trace, steps, start, i, k);
    CallsOf(p, origin, offsets, k);
    FourLater(k, p.spt);
  }

  lemma FourLater(k: nat, spt: nat)
    ensures (k + 4) * spt == (k + 2) * spt + 2 * spt
  {
  }

  /** rx_offset_diff holds the correction of the last completed frame throughout the next one. */
  lemma {:induction false} CorrectionIsKept(p: Params, origin: int, offsets: seq<int>, f: nat, r: nat)
    requires |offsets| == 10 * f + r && r < 10
    ensures Run(p, Start(p, origin), offsets).diff == if f == 0 then 0 else Correction(p, offsets[10 * f - 1])
    decreases |offsets|
  {
    hide Step, Correction, Corrections;
    if offsets != [] {
      var n := |offsets| - 1;
      Consumed(p, origin, offsets[..n]);
      KeptStep(p, Run(p, Start(p, origin), offsets[..n]), offsets[n], n);
      LastDigitOf(n, f, r);
      if r > 0 {
        CorrectionIsKept(p, origin, offsets[..n], f, r - 1);
      }
    }
  }

  lemma LastDigitOf(n: nat, f: nat, r: nat)
    requires n + 1 == 10 * f + r && r < 10
    ensures n % 10 == if r == 0 then 9 else r - 1
  {
  }

  lemma KeptStep(p: Params, s: Stream, rxOffset: int, n: nat)
    requires -1 <= s.sub < 10 && (s.sub + 1) % 10 == n % 10
    ensures Step(p, s, rxOffset).diff == if n % 10 == 9 then Correction(p, rxOffset) else s.diff
  {
  }

  /** Where frame number f begins on the device. */
  function FrameStart(p: Params, origin: int, offsets: seq<int>, f: nat): int
    requires 10 * f <= |offsets|
  {
    origin + 10 * f * p.spt - Corrections(p, offsets[..10 * f])
  }

  /** Within a frame nothing is corrected yet. */
  lemma {:induction false} SteadyWithinFrame(p: Params, offsets: seq<int>, f: nat, r: nat)
    requires r < 10 && 10 * f + r <= |offsets|
    ensures Corrections(p, offsets[..10 * f + r]) == Corrections(p, offsets[..10 * f])
  {
    if r > 0 {
      SteadyWithinFrame(p, offsets, f, r - 1);
      PrefixOfPrefix(offsets, 10 * f + r - 1);
      assert offsets[..10 * f + r - 1 + 1] == offsets[..10 * f + r];
    }
  }

  /**
   * The receive buffer holds whole frames: the block read in subframe r of frame f lands at the
   * buffer position equal to its distance from the frame's start, and the symbol read at the end
   * of the frame starts the next frame at position 0.
   */
  lemma BufferHoldsFrames(p: Params, origin: int, offsets: seq<int>, f: nat, r: nat)
    requires r < 10 && 10 * f + r < |offsets|
    ensures |Run(p, Start(p, origin), offsets).log| == |offsets|
    ensures var t := Run(p, Start(p, origin), offsets).log[10 * f + r];
      && t.readStart == FrameStart(p, origin, offsets, f) + t.readOffset
      && (r == 9 ==> t.firstLength == p.symbol && t.firstStart == FrameStart(p, origin, offsets, f + 1))
  {
    hide Run, Corrections, Corrected;
    CallsOf(p, origin, offsets, 10 * f + r);
    SteadyWithinFrame(p, offsets, f, r);
    assert (10 * f + r) % 10 == r;
    if r == 9 {
      assert 10 * f + r + 1 == 10 * (f + 1);
    }
  }

  /** Distance from the nearest frame boundary, in a frame of ten subframes. */
  function Misalignment(p: Params, offset: int): int {
    if offset <= 5 * p.spt then offset else 10 * p.spt - offset
  }

  /**
   * A correction of c samples moves the frame start by -c, so it changes the true offset from x to
   * x + c. That brings the frame one sample closer to alignment, except exactly half a frame away,
   * where the code does not correct although the frame is as far off as it can be.
   */
  lemma CorrectionAligns(p: Params, x: int)
    requires !p.noCorrection && 0 <= x < 10 * p.spt
    ensures Misalignment(p, x + Correction(p, x)) == Misalignment(p, x) - 1 <==> x != 0 && x != 5 * p.spt
    ensures Correction(p, x) == 0 <==> x == 0 || x == 5 * p.spt
  {
  }

  /** The thread that does all this, with the device's sample counter as part of its state. */
  class UeThread {
    const p: Params
    var pos: int
    var sub: int
    var diff: int
    var log: seq<Transfer>

    ghost function State(): Stream
      reads this
    {
      Stream(pos, sub, diff, log)
    }

    constructor (p: Params, origin: int)
      ensures this.p == p && State() == Start(p, origin)
    {
      this.p := p;
      // the first OFDM symbol is read before the streaming loop starts
      pos, sub, diff, log := origin + p.symbol, -1, 0, [];
    }

    method OneSubframe(rxOffset: int)
      modifies this
      ensures State() == Step(p, old(State()), rxOffset)
    {
      sub := (sub + 1) % 10;
      var readLength, writeLength := p.spt, p.spt;
      if sub >= 9 {
        diff := 0;
        if !p.noCorrection {
          if rxOffset < 5 * p.spt && rxOffset > 0 {
            diff := -1;
          }
          if rxOffset > 5 * p.spt && rxOffset < 10 * p.spt {
            diff := 1;
          }
        }
        readLength := p.spt - p.symbol - diff;
        writeLength := p.spt - diff;
      }
      var timestamp := pos;
      pos := pos + readLength;
      var call := Transfer(
        timestamp, readLength, p.symbol + sub * p.spt,
        timestamp + 2 * p.spt - p.symbol, writeLength,
        pos, 0);
      if sub == 9 {
        var first := writeLength - readLength;
        // the "can't compensate" report is never made
        assert first >= 0;
        if first > 0 {
          pos := pos + first;
          call := call.(firstLength := first);
        }
      }
      log := log + [call];
    }

    method Streaming(offsets: seq<int>)
      modifies this
      ensures State() == Run(p, old(State()), offsets)
    {
      var k := 0;
      assert offsets[..0] == [];
      while k < |offsets|
        invariant k <= |offsets|
        invariant State() == Run(p, old(State()), offsets[..k])
      {
        PrefixOfPrefix(offsets, k);
        OneSubframe(offsets[k]);
        k := k + 1;
      }
      assert offsets[..k] == offsets;
    }
  }
}
