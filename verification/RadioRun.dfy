/** A radio unit at work: rx_rf and tx_rf calls in any order on the same clock, and what the device gets
    to see of it. */
module RadioRun {
  import opened SubframeTime
  import opened BurstControl
  import opened RxClock

  /** Transmit: tx_rf, of which the device accepts `txs` samples. */
  datatype RadioEvent = Receive(read: Read) | Transmit(sf: int, timestamp: int, txs: int)

  datatype Radio = Radio(loop: Loop, writes: seq<DeviceWrite>)

  predicate ValidRadioEvent(e: RadioEvent) {
    e.Transmit? ==> 0 <= e.sf < 10
  }

  ghost predicate AllValid(events: seq<RadioEvent>) {
    forall e | e in events :: ValidRadioEvent(e)
  }

  /** One call; nothing happens any more once rx_rf has taken an exit branch. */
  function RadioStep(p: Params, x: TxParams, v: Radio, e: RadioEvent): Radio
    requires p.spt > 0 && ValidTx(x) && ValidRadioEvent(e)
  {
    if v.loop.exited then v
    else match e
      case Receive(r) => v.(loop := RxClock.Step(p, v.loop, r))
      case Transmit(sf, timestamp, txs) =>
        var c := v.loop.clock;
        var written := Writes(p, x, c, sf, timestamp);
        var late :=
          if SubframeSelect(x.duplex, sf) == UL then c.late
          else NextLate(c.late, !x.usrpTxThread && written != [] && txs != written[0].length);
        Radio(v.loop.(clock := c.(late := late)), v.writes + written)
  }

  ghost function Run(p: Params, x: TxParams, v: Radio, events: seq<RadioEvent>): Radio
    requires p.spt > 0 && ValidTx(x) && AllValid(events)
  {
    if events == [] then v
    else RadioStep(p, x, Run(p, x, v, events[..|events| - 1]), events[|events| - 1])
  }

  /** Before the first call: no fault yet, nothing written. */
  ghost predicate Fresh(v: Radio) {
    v.loop.clock.late == Normal && v.writes == []
  }

  // ----- what a read does to the burst state -----

  /** A short read raises a fault, whatever else the read does; any other read leaves the state alone. */
  lemma ReadLate(p: Params, l: Loop, r: Read)
    requires p.spt > 0
    ensures RxClock.Step(p, l, r).clock.late == if !l.exited && r.rxs != p.spt then Terminate else l.clock.late
  {
    hide Decode, LookAhead;
  }

  ghost predicate ShortAt(p: Params, l: Loop, input: seq<Read>, k: nat)
    requires p.spt > 0 && k < |input|
  {
    !RxClock.Run(p, l, input[..k]).exited && input[k].rxs != p.spt
  }

  /** Over any run of reads: a fault is pending exactly if one of the reads made was short, or one was
      pending before. */
  lemma {:induction false} LateAfterReads(p: Params, l: Loop, input: seq<Read>)
    requires p.spt > 0
    ensures RxClock.Run(p, l, input).clock.late ==
            if exists k | 0 <= k < |input| :: ShortAt(p, l, input, k) then Terminate else l.clock.late
  {
    hide RxClock.Step;
    if input != [] {
      var n := |input| - 1;
      LateAfterReads(p, l, input[..n]);
      ReadLate(p, RxClock.Run(p, l, input[..n]), input[n]);
      ShortPrefix(p, l, input);
      assert ShortAt(p, l, input, n) <==> !RxClock.Run(p, l, input[..n]).exited && input[n].rxs != p.spt;
      hide ShortAt;
    }
  }

  lemma ShortPrefix(p: Params, l: Loop, input: seq<Read>)
    requires p.spt > 0 && input != []
    ensures
      var n := |input| - 1;
      (exists k | 0 <= k < |input| :: ShortAt(p, l, input, k))
      <==> ShortAt(p, l, input, n) || exists k | 0 <= k < n :: ShortAt(p, l, input[..n], k)
  {
    hide RxClock.Run;
    var n := |input| - 1;
    forall k | 0 <= k < n ensures ShortAt(p, l, input[..n], k) <==> ShortAt(p, l, input, k) {
      assert input[..n][..k] == input[..k];
    }
  }

  // ----- what the device gets -----

  /** The flags of the writes that belong to bursts: without the single samples that keep the RF
      simulator running through uplink subframes. */
  function BurstFlags(writes: seq<DeviceWrite>): seq<Flag> {
    if writes == [] then []
    else
      var n := |writes| - 1;
      BurstFlags(writes[..n]) + if writes[n].flag == StartAndEnd then [] else [writes[n].flag]
  }

  lemma BurstFlagsAppend(writes: seq<DeviceWrite>, more: seq<DeviceWrite>)
    requires |more| <= 1
    ensures BurstFlags(writes + more) == BurstFlags(writes) + BurstFlags(more)
  {
    if more == [] {
      assert writes + more == writes;
    } else {
      assert (writes + more)[..|writes|] == writes && more[..0] == [];
    }
  }

  lemma OneFlag(written: seq<DeviceWrite>)
    requires |written| <= 1 && (written != [] ==> written[0].flag != StartAndEnd)
    ensures BurstFlags(written) == if written == [] then [] else [written[0].flag]
  {
    assert written != [] ==> written[..0] == [];
  }

  /** The burst writes of one call are the blocks the burst machine sends. */
  lemma WrittenFlags(p: Params, x: TxParams, c: Clock, sf: int, timestamp: int)
    requires ValidTx(x) && 0 <= sf < 10
    ensures
      var written := Writes(p, x, c, sf, timestamp);
      && |written| <= 1
      && (!x.rfsim && written != [] ==> written[0].flag != StartAndEnd)
      && SameFlags(BurstFlags(written), if SubframeSelect(x.duplex, sf) == UL then [] else Sent(x.duplex, sf, c.late))
  {
    hide SubframeSelect, Extension, SignalLength;
    var written := Writes(p, x, c, sf, timestamp);
    assert written != [] ==> written[..0] == [];
  }

  // ----- the device sees the burst machine -----

  ghost predicate SameBursts(v: Radio, b: Bursts) {
    v.loop.clock.late == b.late && SameFlags(BurstFlags(v.writes), b.blocks)
  }

  ghost predicate SameFlags(flags: seq<Flag>, blocks: seq<Block>) {
    |flags| == |blocks| && forall i | 0 <= i < |blocks| :: flags[i] == blocks[i].flag
  }

  lemma SameAppend(flags: seq<Flag>, blocks: seq<Block>, flags': seq<Flag>, blocks': seq<Block>)
    requires SameFlags(flags, blocks) && SameFlags(flags', blocks')
    ensures SameFlags(flags + flags', blocks + blocks')
  {
  }

  /** Whatever the calls: the device gets the blocks of the burst machine, under some sequence of faults. */
  lemma {:induction false} DeviceSeesBursts(p: Params, x: TxParams, v: Radio, events: seq<RadioEvent>)
    returns (faults: seq<Event>)
    requires p.spt > 0 && ValidTx(x) && AllValid(events) && Fresh(v)
    ensures forall e | e in faults :: ValidEvent(e)
    ensures SameBursts(Run(p, x, v, events), BurstControl.Run(x.duplex, INITIAL, faults))
  {
    if events == [] {
      faults := [];
    } else {
      var n := |events| - 1;
      var earlier := DeviceSeesBursts(p, x, v, events[..n]);
      hide RadioStep, SameBursts;
      var a := StepSeen(p, x, Run(p, x, v, events[..n]), BurstControl.Run(x.duplex, INITIAL, earlier), events[n]);
      faults := earlier + a;
      if a == [] {
        assert faults == earlier;
      } else {
        assert faults[..|earlier|] == earlier;
      }
    }
  }

  lemma StepSeen(p: Params, x: TxParams, v: Radio, b: Bursts, e: RadioEvent) returns (a: seq<Event>)
    requires p.spt > 0 && ValidTx(x) && ValidRadioEvent(e) && SameBursts(v, b)
    ensures |a| <= 1 && forall f | f in a :: ValidEvent(f)
    ensures SameBursts(RadioStep(p, x, v, e), if a == [] then b else BurstControl.Step(x.duplex, b, a[0]))
  {
    hide SubframeSelect, BurstFlags, Writes, Sent, SameFlags, NextLate, Supported, RxClock.Step;
    if v.loop.exited {
      a := [];
    } else if e.Receive? {
      ReadLate(p, v.loop, e.read);
      a := if e.read.rxs != p.spt then [RxFault] else [];
    } else {
      var c := v.loop.clock;
      var written := Writes(p, x, c, e.sf, e.timestamp);
      var sent := if SubframeSelect(x.duplex, e.sf) == UL then [] else Sent(x.duplex, e.sf, c.late);
      a := [Tx(e.sf, !x.usrpTxThread && written != [] && e.txs != written[0].length)];
      WrittenFlags(p, x, c, e.sf, e.timestamp);
      BurstFlagsAppend(v.writes, written);
      SameAppend(BurstFlags(v.writes), b.blocks, BurstFlags(written), sent);
      assert b.blocks + [] == b.blocks;
    }
  }

  /** After an END_NO_TIME_SPEC, the next burst block the device gets, whatever faults occur, is a START or
      another END_NO_TIME_SPEC; and while transmission is stopped the last one it got is that END. */
  lemma DeviceRestarts(p: Params, x: TxParams, v: Radio, events: seq<RadioEvent>, i: nat)
    requires p.spt > 0 && ValidTx(x) && AllValid(events) && Fresh(v)
    ensures FlagsAroundEnd(Run(p, x, v, events), i)
  {
    var faults := DeviceSeesBursts(p, x, v, events);
    RestartFollowsTermination(x.duplex, faults);
    FlagsAfterEnd(Run(p, x, v, events), BurstControl.Run(x.duplex, INITIAL, faults), i);
    hide Run, BurstControl.Run, FaultInv, SameBursts, FlagsAroundEnd;
  }

  ghost predicate FlagsAroundEnd(v: Radio, i: nat) {
    var flags := BurstFlags(v.writes);
    && (i + 1 < |flags| && flags[i] == EndNoTimeSpec ==> flags[i + 1] == Start || flags[i + 1] == EndNoTimeSpec)
    && (v.loop.clock.late in {Stop1, Stop2, Restart} ==> flags != [] && flags[|flags| - 1] == EndNoTimeSpec)
  }

  lemma FlagsAfterEnd(v: Radio, b: Bursts, i: nat)
    requires FaultInv(b) && SameBursts(v, b)
    ensures FlagsAroundEnd(v, i)
  {
    hide BurstFlags;
    if i + 1 < |b.blocks| {
      assert GoodBlock(b.blocks, i + 1);
    }
  }

  ghost predicate AllBurst(writes: seq<DeviceWrite>) {
    && |BurstFlags(writes)| == |writes|
    && forall i | 0 <= i < |writes| :: BurstFlags(writes)[i] == writes[i].flag
  }

  /** Outside the RF simulator every write belongs to a burst, so the block meant there is the very next. */
  lemma {:induction false} NoFillers(p: Params, x: TxParams, v: Radio, events: seq<RadioEvent>)
    requires p.spt > 0 && ValidTx(x) && !x.rfsim && AllValid(events) && Fresh(v)
    ensures AllBurst(Run(p, x, v, events).writes)
  {
    if events != [] {
      var n := |events| - 1;
      NoFillers(p, x, v, events[..n]);
      NoFiller(p, x, Run(p, x, v, events[..n]), events[n]);
      hide AllBurst, RadioStep;
    }
  }

  lemma NoFiller(p: Params, x: TxParams, v: Radio, e: RadioEvent)
    requires p.spt > 0 && ValidTx(x) && !x.rfsim && ValidRadioEvent(e) && AllBurst(v.writes)
    ensures AllBurst(RadioStep(p, x, v, e).writes)
  {
    hide Writes, Sent, BurstFlags, SubframeSelect, SameFlags, NextLate, RxClock.Step;
    if e.Transmit? && !v.loop.exited {
      var written := Writes(p, x, v.loop.clock, e.sf, e.timestamp);
      WrittenFlags(p, x, v.loop.clock, e.sf, e.timestamp);
      BurstFlagsAppend(v.writes, written);
      OneFlag(written);
    }
  }

  // ----- faults raised, and how they end -----

  /** The call is on a downlink or special subframe. */
  predicate Sends(x: TxParams, e: RadioEvent)
    requires ValidTx(x) && ValidRadioEvent(e)
  {
    e.Transmit? && SubframeSelect(x.duplex, e.sf) != UL
  }

  /** A block that is written in the normal or the restart state raises a fault exactly if the calling
      thread writes to the device itself and the device takes another number of samples than offered. */
  lemma FaultRaised(p: Params, x: TxParams, v: Radio, e: RadioEvent)
    requires p.spt > 0 && ValidTx(x) && ValidRadioEvent(e) && Sends(x, e) && !v.loop.exited
    requires v.loop.clock.late == Normal || v.loop.clock.late == Restart
    ensures
      var v' := RadioStep(p, x, v, e);
      && |v'.writes| == |v.writes| + 1 && v.writes < v'.writes
      && v'.loop.clock.late ==
         (if !x.usrpTxThread && e.txs != v'.writes[|v.writes|].length then Terminate else Normal)
  {
    hide SubframeSelect, Extension, SignalLength, BaseFlag;
  }

  /** On an uplink subframe the RF simulator gets one sample, at the subframe's device time, and any other
      device nothing; the burst state does not change. */
  lemma UplinkCall(p: Params, x: TxParams, v: Radio, e: RadioEvent)
    requires p.spt > 0 && ValidTx(x) && ValidRadioEvent(e) && e.Transmit? && !Sends(x, e) && !v.loop.exited
    ensures
      var v' := RadioStep(p, x, v, e);
      && v'.loop == v.loop
      && |v'.writes| == |v.writes| + (if x.rfsim then 1 else 0) && v.writes <= v'.writes
      && (x.rfsim ==>
            var w := v'.writes[|v.writes|];
            w.start == e.timestamp + v.loop.clock.tsOffset && w.length == 1 && w.flag == StartAndEnd)
  {
    hide SubframeSelect;
  }

  /** The number of samples of the block for a subframe. */
  function BlockLength(p: Params, x: TxParams, sf: int): int
    requires ValidTx(x) && 0 <= sf < 10
  {
    SignalLength(p, x, sf) + Extension(x, sf)
  }

  /** Neither a short read nor a block of which the device takes another number of samples. */
  predicate Faultless(p: Params, x: TxParams, e: RadioEvent)
    requires ValidTx(x) && ValidRadioEvent(e)
  {
    match e
    case Receive(r) => r.rxs == p.spt
    case Transmit(sf, _, txs) => x.usrpTxThread || txs == BlockLength(p, x, sf)
  }

  ghost function Blocks(x: TxParams, events: seq<RadioEvent>): nat
    requires ValidTx(x) && AllValid(events)
  {
    if events == [] then 0
    else
      var n := |events| - 1;
      Blocks(x, events[..n]) + if Sends(x, events[n]) then 1 else 0
  }

  /** The state and the flags after n downlink or special calls from a fault. */
  ghost predicate Recovering(late: Late, n: nat, flags: seq<Flag>) {
    && late ==
       (if n == 0 then Terminate else if n == 1 then Stop1 else if n == 2 then Stop2
        else if n == 3 then Restart else Normal)
    && |flags| == (if n <= 1 then n else if n <= 3 then 1 else n - 2)
    && (n >= 1 ==> flags[0] == EndNoTimeSpec)
    && (n >= 4 ==> flags[1] == Start)
  }

  /** The device got `flags` since v, and they and the state are those of a recovery. */
  ghost predicate RecoveredTo(v: Radio, v': Radio, n: nat, flags: seq<Flag>) {
    !v'.loop.exited ==>
      BurstFlags(v'.writes) == BurstFlags(v.writes) + flags && Recovering(v'.loop.clock.late, n, flags)
  }

  /** From a pending fault and without a new one, whatever reads and uplink calls lie between: the next
      downlink or special call writes END_NO_TIME_SPEC, the two after it write nothing, the fourth writes
      START, and every later one writes a block. */
  lemma {:induction false} RecoveryOnDevice(p: Params, x: TxParams, v: Radio, events: seq<RadioEvent>)
    returns (flags: seq<Flag>)
    requires p.spt > 0 && ValidTx(x) && AllValid(events) && v.loop.clock.late == Terminate
    requires forall e | e in events :: Faultless(p, x, e)
    ensures RecoveredTo(v, Run(p, x, v, events), Blocks(x, events), flags)
  {
    hide RadioStep, RecoveredTo, Sends, Faultless;
    if events == [] {
      flags := [];
      NothingYet(v);
    } else {
      var n := |events| - 1;
      var earlier := RecoveryOnDevice(p, x, v, events[..n]);
      flags := OneMoreStep(p, x, v, Run(p, x, v, events[..n]), events[n], Blocks(x, events[..n]), earlier);
    }
  }

  lemma NothingYet(v: Radio)
    requires v.loop.clock.late == Terminate
    ensures RecoveredTo(v, v, 0, [])
  {
  }

  lemma OneMoreStep(p: Params, x: TxParams, v: Radio, v': Radio, e: RadioEvent, n: nat, flags: seq<Flag>)
    returns (flags': seq<Flag>)
    requires p.spt > 0 && ValidTx(x) && ValidRadioEvent(e) && Faultless(p, x, e) && RecoveredTo(v, v', n, flags)
    ensures RecoveredTo(v, RadioStep(p, x, v', e), if Sends(x, e) then n + 1 else n, flags')
  {
    hide RadioStep, Recovering, BurstFlags, Sends, Faultless;
    if v'.loop.exited {
      ExitIsFinal(p, x, v', e);
      flags' := [];
    } else {
      var more := RecoveryStep(p, x, v', e, n, flags);
      flags' := flags + more;
      assert BurstFlags(v.writes) + flags + more == BurstFlags(v.writes) + flags';
    }
  }

  lemma ExitIsFinal(p: Params, x: TxParams, v: Radio, e: RadioEvent)
    requires p.spt > 0 && ValidTx(x) && ValidRadioEvent(e)
    ensures v.loop.exited ==> RadioStep(p, x, v, e).loop.exited
  {
  }

  lemma RecoveryStep(p: Params, x: TxParams, v: Radio, e: RadioEvent, n: nat, flags: seq<Flag>) returns (more: seq<Flag>)
    requires p.spt > 0 && ValidTx(x) && ValidRadioEvent(e) && Faultless(p, x, e) && !v.loop.exited
    requires Recovering(v.loop.clock.late, n, flags)
    ensures
      var v' := RadioStep(p, x, v, e);
      && BurstFlags(v'.writes) == BurstFlags(v.writes) + more
      && Recovering(v'.loop.clock.late, if Sends(x, e) then n + 1 else n, flags + more)
  {
    hide RxClock.Step, SubframeSelect, BurstFlags, Writes, Sent, NextLate, Recovering, SameFlags;
    if e.Receive? {
      ReadLate(p, v.loop, e.read);
      more := [];
      assert flags + more == flags;
    } else {
      var c := v.loop.clock;
      var written := Writes(p, x, c, e.sf, e.timestamp);
      WrittenFlags(p, x, c, e.sf, e.timestamp);
      BurstFlagsAppend(v.writes, written);
      more := BurstFlags(written);
      if Sends(x, e) {
        FullLength(p, x, c, e.sf, e.timestamp);
        RecoveryCall(x, c.late, e.sf, n, flags, more);
      } else {
        NoFlags(more);
        assert flags + more == flags;
      }
    }
  }

  lemma NoFlags(flags: seq<Flag>)
    requires SameFlags(flags, [])
    ensures flags == []
  {
  }

  lemma FullLength(p: Params, x: TxParams, c: Clock, sf: int, timestamp: int)
    requires ValidTx(x) && 0 <= sf < 10 && SubframeSelect(x.duplex, sf) != UL
    ensures
      var written := Writes(p, x, c, sf, timestamp);
      written != [] ==> written[0].length == BlockLength(p, x, sf)
  {
    hide SubframeSelect, Extension, SignalLength, Sent;
  }

  lemma RecoveryCall(x: TxParams, late: Late, sf: int, n: nat, flags: seq<Flag>, more: seq<Flag>)
    requires ValidTx(x) && 0 <= sf < 10 && SubframeSelect(x.duplex, sf) != UL && Recovering(late, n, flags)
    requires SameFlags(more, Sent(x.duplex, sf, late))
    ensures Recovering(NextLate(late, false), n + 1, flags + more)
  {
    hide SubframeSelect;
  }

  /** A fault stays pending until the next downlink or special call, whatever else is read or written, */
  lemma {:induction false} FaultStaysPending(p: Params, x: TxParams, v: Radio, events: seq<RadioEvent>)
    requires p.spt > 0 && ValidTx(x) && AllValid(events) && v.loop.clock.late == Terminate
    requires forall e | e in events :: !Sends(x, e)
    ensures
      var v' := Run(p, x, v, events);
      v'.loop.clock.late == Terminate && BurstFlags(v'.writes) == BurstFlags(v.writes)
  {
    if events != [] {
      var n := |events| - 1;
      var before, e := Run(p, x, v, events[..n]), events[n];
      FaultStaysPending(p, x, v, events[..n]);
      assert !Sends(x, e);
      PendingStep(p, x, before, e);
      hide RadioStep, Sends, BurstFlags;
    }
  }

  lemma PendingStep(p: Params, x: TxParams, v: Radio, e: RadioEvent)
    requires p.spt > 0 && ValidTx(x) && ValidRadioEvent(e) && !Sends(x, e) && v.loop.clock.late == Terminate
    ensures
      var v' := RadioStep(p, x, v, e);
      v'.loop.clock.late == Terminate && BurstFlags(v'.writes) == BurstFlags(v.writes)
  {
    hide RxClock.Step, SubframeSelect, BurstFlags, Writes, Sent, NextLate, SameFlags;
    if e.Receive? {
      ReadLate(p, v.loop, e.read);
    } else if !v.loop.exited {
      var written := Writes(p, x, v.loop.clock, e.sf, e.timestamp);
      WrittenFlags(p, x, v.loop.clock, e.sf, e.timestamp);
      BurstFlagsAppend(v.writes, written);
      NoFlags(BurstFlags(written));
    }
  }

  /** so the first downlink or special call after a short read, whatever reads and uplink calls lie
      between, writes one block, and that is an END_NO_TIME_SPEC. */
  lemma ShortReadEndsBurst(p: Params, x: TxParams, v: Radio, r: Read, between: seq<RadioEvent>, e: RadioEvent)
    requires p.spt > 0 && ValidTx(x) && AllValid(between) && ValidRadioEvent(e)
    requires !v.loop.exited && r.rxs != p.spt
    requires (forall b | b in between :: !Sends(x, b)) && Sends(x, e)
    ensures
      var v' := Run(p, x, RadioStep(p, x, v, Receive(r)), between);
      !v'.loop.exited ==>
        && |RadioStep(p, x, v', e).writes| == |v'.writes| + 1
        && RadioStep(p, x, v', e).writes[|v'.writes|].flag == EndNoTimeSpec
        && BurstFlags(v'.writes) == BurstFlags(v.writes)
  {
    ReadLate(p, v.loop, r);
    var after := RadioStep(p, x, v, Receive(r));
    assert after.writes == v.writes && after.loop.clock.late == Terminate;
    FaultStaysPending(p, x, after, between);
    EndWritten(p, x, Run(p, x, after, between), e);
    hide RadioStep, Run, BurstFlags, Sends;
  }

  lemma EndWritten(p: Params, x: TxParams, v: Radio, e: RadioEvent)
    requires p.spt > 0 && ValidTx(x) && ValidRadioEvent(e) && Sends(x, e) && v.loop.clock.late == Terminate
    ensures !v.loop.exited ==>
              && |RadioStep(p, x, v, e).writes| == |v.writes| + 1
              && RadioStep(p, x, v, e).writes[|v.writes|].flag == EndNoTimeSpec
  {
    hide SubframeSelect, Extension, SignalLength;
  }
}
