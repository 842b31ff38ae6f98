/** The radio unit's fields and the routines that update them in place, proved against RxClock. */
module RadioUnits {
  import opened Arith
  import opened SubframeTime
  import opened BurstControl
  import opened RxClock
  import RadioRun

  class RadioUnit {
    const p: Params
    const x: TxParams
    var tsOffset: int
    var timestampRx: int
    var frameRx: int
    var ttiRx: int
    var firstRx: bool
    var cmd: Cmd
    var timestampTx: int
    var frameTx: int
    var ttiTx: int
    var late: Late

    ghost function State(): Clock
      reads this
    {
      Clock(tsOffset, timestampRx, Sfn(frameRx, ttiRx), firstRx, cmd, timestampTx, Sfn(frameTx, ttiTx), late)
    }

    constructor (p: Params, x: TxParams)
      ensures this.p == p && this.x == x
      ensures State() == Clock(0, 0, Sfn(0, 0), true, Empty, 0, Sfn(0, 0), Normal)
    {
      this.p, this.x := p, x;
      tsOffset, timestampRx, frameRx, ttiRx, firstRx := 0, 0, 0, 0, true;
      cmd, timestampTx, frameTx, ttiTx, late := Empty, 0, 0, 0, Normal;
    }

    /** rx_rf, the device read replaced by its results `ts` and `rxs`. */
    method RxRf(frame: int, subframe: int, ts: int, rxs: int) returns (frame': int, subframe': int, exits: bool)
      requires p.spt > 0
      modifies this
      ensures Outcome(State(), Sfn(frame', subframe'), exits) == Rx(p, old(State()), Sfn(frame, subframe), ts, rxs)
    {
      hide Decode, LookAhead;
      frame', subframe', exits := frame, subframe, false;
      var resynch, oldTs := cmd.FrameResynch?, timestampRx;
      if resynch {
        frame' := cmd.frame;
        ApplyResynch();
      }
      if p.emulated {
        timestampRx := oldTs + p.spt;
      } else {
        timestampRx := ts - tsOffset;
      }
      if rxs != p.spt {
        late := Terminate;
      }
      if firstRx {
        tsOffset := timestampRx;
        timestampRx := 0;
      } else if !resynch && timestampRx - oldTs != p.spt {
        tsOffset := tsOffset + (timestampRx - oldTs - p.spt);
        timestampRx := ts - tsOffset;
      }
      Retime();
      if !firstRx {
        if ttiRx != subframe' {
          exits := true;
        }
        if frameRx != frame' {
          exits := true;
        }
      } else {
        firstRx := false;
        frame', subframe' := frameRx, ttiRx;
      }
    }

    /** The resync part of rx_rf: moves the offset by whole frames and consumes the command. */
    method ApplyResynch()
      requires cmd.FrameResynch?
      modifies this`tsOffset, this`cmd
      ensures cmd == Empty && tsOffset == ResynchOffset(p, old(State()))
    {
      if frameRx > cmd.frame {
        tsOffset := tsOffset + (frameRx - cmd.frame) * (p.spt * 10);
      } else {
        tsOffset := tsOffset - (-frameRx + cmd.frame) * (p.spt * 10);
      }
      cmd := Empty;
    }

    /** The decoding part of rx_rf. */
    method Retime()
      requires p.spt > 0
      modifies this`frameRx, this`ttiRx, this`timestampTx, this`ttiTx, this`frameTx
      ensures Sfn(frameRx, ttiRx) == Decode(timestampRx, p.spt)
      ensures timestampTx == if p.txInRx then timestampRx + p.ahead * p.spt else old(timestampTx)
      ensures Sfn(frameTx, ttiTx) ==
              if p.txInRx then LookAhead(Sfn(frameRx, ttiRx), p.ahead) else old(Sfn(frameTx, ttiTx))
    {
      frameRx := And1023(TruncDiv(timestampRx, p.spt * 10));
      ttiRx := TruncMod(TruncDiv(timestampRx, p.spt), 10);
      if p.txInRx {
        timestampTx := timestampRx + p.ahead * p.spt;
        ttiTx := TruncMod(ttiRx + p.ahead, 10);
        frameTx := if ttiRx > 9 - p.ahead then And1023(frameRx + 1) else frameRx;
      }
    }

    /** eNB_top as far as it concerns the radio unit. */
    method TopTiming()
      modifies this`timestampTx, this`ttiTx, this`frameTx
      ensures State() == EnbTop(p, old(State()))
    {
      var timestampL1 := timestampRx + p.ahead * p.spt;
      var frameL1 := if ttiRx > 9 - p.ahead then And1023(frameRx + 1) else frameRx;
      var subframeL1 := TruncMod(ttiRx + p.ahead, 10);
      timestampTx, ttiTx, frameTx := timestampL1, subframeL1, frameL1;
    }

    /** tx_rf; the device accepts `txs` samples of the block it is offered. */
    method TxRf(subframe: int, timestamp: int, txs: int) returns (written: seq<DeviceWrite>)
      requires p.spt > 0 && ValidTx(x) && 0 <= subframe < 10
      modifies this`late
      ensures written == Writes(p, x, old(State()), subframe, timestamp)
      ensures late ==
              if SubframeSelect(x.duplex, subframe) == UL then old(late)
              else NextLate(old(late), !x.usrpTxThread && written != [] && txs != written[0].length)
    {
      hide SubframeSelect;
      written := [];
      var sfType := SubframeSelect(x.duplex, subframe);
      var prevSfType := SubframeSelect(x.duplex, Before(subframe));
      var extension := 0;
      if sfType == UL {
        if x.rfsim {
          written := [DeviceWrite(timestamp + tsOffset - extension, 1, StartAndEnd)];
        }
        return;
      }
      var siglen, flag := p.spt, Middle;
      if sfType == S {
        var txsymb := x.dlSymbolsInS + if x.slave then 0 else 1;
        siglen := (x.ofdmSymbol + x.prefix0) + (txsymb - 1) * (x.ofdmSymbol + x.prefix) + x.endOfBurstDelay;
        flag := End;
      }
      if x.duplex.TDD? && sfType == DL && prevSfType == UL {
        flag := Start;
        extension := x.sfExtension;
      }
      extension := extension - extension % x.align;
      match late {
        case Normal =>
        case Terminate => flag, late := EndNoTimeSpec, Stop1;
        case Stop1 => late := Stop2; return;
        case Stop2 => late := Restart; return;
        case Restart => flag, late := Start, Normal;
      }
      written := [DeviceWrite(timestamp + tsOffset - extension, siglen + extension, flag)];
      if !x.usrpTxThread && txs != siglen + extension && late == Normal {
        late := Terminate;
      }
    }

    /** The steady-state loop of ru_thread, fed with one device read (and possibly a command) each round. */
    method RuThread(input: seq<Read>) returns (frame: int, subframe: int, exited: bool)
      requires p.spt > 0
      modifies this
      ensures Loop(State(), Sfn(frame, subframe), exited) == RxClock.Run(p, Loop(old(State()), Sfn(1023, 9), false), input)
    {
      hide Rx;
      frame, subframe, exited := 1023, 9, false;
      ghost var start := Loop(State(), Sfn(1023, 9), false);
      for i := 0 to |input|
        invariant Loop(State(), Sfn(frame, subframe), exited) == RxClock.Run(p, start, input[..i])
      {
        assert input[..i + 1][..i] == input[..i];
        if !exited {
          if subframe == 9 {
            subframe := 0;
            frame := And1023(frame + 1);
          } else {
            subframe := subframe + 1;
          }
          if input[i].cmd.FrameResynch? {
            cmd := input[i].cmd;
          }
          frame, subframe, exited := RxRf(frame, subframe, input[i].ts, input[i].rxs);
        }
      }
      assert input[..|input|] == input;
    }

    /** Any sequence of rx_rf and tx_rf calls on the unit, up to an exit. */
    method Operate(counters: Sfn, events: seq<RadioRun.RadioEvent>)
      returns (frame: int, subframe: int, exited: bool, written: seq<DeviceWrite>)
      requires p.spt > 0 && ValidTx(x) && RadioRun.AllValid(events)
      modifies this
      ensures RadioRun.Radio(Loop(State(), Sfn(frame, subframe), exited), written)
              == RadioRun.Run(p, x, RadioRun.Radio(Loop(old(State()), counters, false), []), events)
    {
      hide Rx, Writes, NextLate, SubframeSelect;
      frame, subframe, exited, written := counters.frame, counters.tti, false, [];
      ghost var start := RadioRun.Radio(Loop(State(), counters, false), []);
      for i := 0 to |events|
        invariant RadioRun.Radio(Loop(State(), Sfn(frame, subframe), exited), written)
                  == RadioRun.Run(p, x, start, events[..i])
      {
        assert events[..i + 1][..i] == events[..i];
        assert RadioRun.ValidRadioEvent(events[i]);
        if !exited {
          match events[i] {
            case Receive(r) =>
              if subframe == 9 {
                subframe := 0;
                frame := And1023(frame + 1);
              } else {
                subframe := subframe + 1;
              }
              if r.cmd.FrameResynch? {
                cmd := r.cmd;
              }
              frame, subframe, exited := RxRf(frame, subframe, r.ts, r.rxs);
            case Transmit(sf, timestamp, txs) =>
              ghost var before := State();
              var block := TxRf(sf, timestamp, txs);
              assert State() == before.(late := late);
              written := written + block;
          }
        }
      }
      assert events[..|events|] == events;
    }
  }
}
