/** Fronthaul symbol gathering of fh_if4p5_south_in: packets of any subframe arrive in any order, and
    the routine returns once the mask of the awaited subframe is full. */
module SymbolGather {
  import opened Arith
  import opened Bits
  import opened SubframeTime

  datatype Kind = Symbol | Tick | Prach

  /** One recv_IF4p5 result. `stop`: shutdown or a stop command was seen right after receiving it. */
  datatype Packet = Packet(frame: int, sf: nat, kind: Kind, symbol: nat, stop: bool)

  /** A symbol number as the header's four bits carry it, and a subframe number that names a subframe. The
      header has four bits for that as well; for 10 to 15 the source indexes past its ten masks. */
  predicate ValidPacket(p: Packet) {
    p.sf < 10 && p.symbol < 16
  }

  ghost predicate AllValid(packets: seq<Packet>) {
    forall p | p in packets :: ValidPacket(p)
  }

  /** The mask of subframe s after one packet. */
  function Record(m: nat, s: nat, p: Packet): nat {
    if p.sf != s then m
    else match p.kind
      case Symbol => SetBit(m, p.symbol)
      case Tick => 0xffff
      case Prach => m
  }

  function RecordAll(m: nat, s: nat, packets: seq<Packet>): nat {
    if packets == [] then m
    else Record(RecordAll(m, s, packets[..|packets| - 1]), s, packets[|packets| - 1])
  }

  /** The loop's exit test: the mask compared as a number with u ones. */
  predicate Complete(m: nat, u: nat) {
    m >= Pow2(u) - 1
  }

  /** The gathering loop ends normally at the k-th packet, and not before. */
  ghost predicate CompletesAt(m: nat, u: nat, s: nat, packets: seq<Packet>, k: nat) {
    && k <= |packets| && Complete(RecordAll(m, s, packets[..k]), u)
    && forall j | 0 <= j < k :: !Complete(RecordAll(m, s, packets[..j]), u)
  }

  // ----- what the numeric test means -----

  ghost predicate Arrived(s: nat, packets: seq<Packet>, i: nat) {
    exists p :: p in packets && p.sf == s && p.kind == Symbol && p.symbol == i
  }

  ghost predicate Ticked(s: nat, packets: seq<Packet>) {
    exists p :: p in packets && p.sf == s && p.kind == Tick
  }

  lemma RecordBit(m: nat, s: nat, p: Packet, i: nat)
    requires m < Pow2(16) && ValidPacket(p) && i < 16
    ensures Record(m, s, p) < Pow2(16)
    ensures Bit(Record(m, s, p), i) <==> Bit(m, i) || (p.sf == s && ((p.kind == Symbol && p.symbol == i) || p.kind == Tick))
  {
    if p.sf == s && p.kind == Symbol {
      SetBitMembers(m, p.symbol, 16);
      SetBitBit(m, p.symbol, i);
    } else if p.sf == s && p.kind == Tick {
      AllOnes(i);
    }
  }

  /** A recorded mask is its old bits, the arrived symbols, and all sixteen bits after a tick. */
  lemma {:induction false} RecordedBits(m: nat, s: nat, packets: seq<Packet>, i: nat)
    requires m < Pow2(16) && AllValid(packets) && i < 16
    ensures RecordAll(m, s, packets) < Pow2(16)
    ensures Bit(RecordAll(m, s, packets), i) <==> Bit(m, i) || Arrived(s, packets, i) || Ticked(s, packets)
  {
    if packets != [] {
      var before, p := packets[..|packets| - 1], packets[|packets| - 1];
      assert packets == before + [p] && ValidPacket(p);
      RecordedBits(m, s, before, i);
      RecordBit(RecordAll(m, s, before), s, p, i);
      hide Arrived, Ticked, Record;
      LastPacket(s, before, p, i);
    }
  }

  lemma LastPacket(s: nat, before: seq<Packet>, p: Packet, i: nat)
    ensures Arrived(s, before + [p], i) <==> Arrived(s, before, i) || (p.sf == s && p.kind == Symbol && p.symbol == i)
    ensures Ticked(s, before + [p]) <==> Ticked(s, before) || (p.sf == s && p.kind == Tick)
  {
    assert p in before + [p];
    forall q | q in before
      ensures q in before + [p]
    {
    }
  }

  lemma AllOnes(i: nat)
    requires i < 16
    ensures Bit(0xffff, i) && 0xffff < Pow2(16)
  {
    assert Pow2(4) == 16;
    assert Pow2(8) == 256;
    assert Pow2(12) == 4096;
    assert Pow2(16) == 65536;
    AtLeastFull(0xffff, 16);
    AllBelowBit(0xffff, 16, i);
  }

  /** Bit i, under a name that quantifiers can range over. */
  ghost predicate In(r: nat, i: nat) {
    Bit(r, i)
  }

  lemma CompleteBits(r: nat, u: nat)
    requires r < Pow2(16) && u <= 16
    ensures Complete(r, u) <==> (forall i: nat | i < u :: In(r, i)) || (exists i: nat :: u <= i < 16 && In(r, i))
  {
    AtLeastFull(r, u);
    if r >= Pow2(u) {
      var i := HighBit(r, u);
      if i >= 16 {
        NoHighBit(r, 16, i);
      }
      assert In(r, i);
    } else {
      forall j: nat | u <= j
        ensures !In(r, j)
      {
        NoHighBit(r, u, j);
      }
      if AllBelow(r, u) {
        forall i: nat | i < u
          ensures In(r, i)
        {
          AllBelowBit(r, u, i);
        }
      } else {
        var i := MissingBit(r, u);
        assert !In(r, i);
      }
    }
  }

  /** Symbol i of subframe s is in: it was recorded before or has arrived. */
  ghost predicate Have(m: nat, s: nat, packets: seq<Packet>, i: nat) {
    Bit(m, i) || Arrived(s, packets, i)
  }

  /** For a mask over u symbols the loop ends exactly when a tick came, when all u symbols are in, or
      when some symbol numbered u or above is in. */
  lemma CompleteMeans(m: nat, u: nat, s: nat, packets: seq<Packet>)
    requires m < Pow2(16) && AllValid(packets) && u <= 16
    ensures Complete(RecordAll(m, s, packets), u) <==>
            || Ticked(s, packets)
            || (forall i: nat | i < u :: Have(m, s, packets, i))
            || (exists i: nat :: u <= i < 16 && Have(m, s, packets, i))
  {
    var r := RecordAll(m, s, packets);
    RecordedBits(m, s, packets, 0);
    CompleteBits(r, u);
    forall i: nat | i < 16
      ensures In(r, i) <==> Have(m, s, packets, i) || Ticked(s, packets)
    {
      RecordedBits(m, s, packets, i);
    }
    hide RecordAll, Have, Ticked, Complete, In, AllValid;
    if i: nat :| u <= i < 16 && Have(m, s, packets, i) {
      assert In(r, i);
    }
    if i: nat :| u <= i < 16 && In(r, i) {
      assert Have(m, s, packets, i) || Ticked(s, packets);
    }
  }

  /** The masks a link with symbol numbers below u produces: u bits, or all ones after a tick. */
  predicate MaskShape(m: nat, u: nat) {
    m < Pow2(u) || m == 0xffff
  }

  lemma EmptyShape(u: nat)
    ensures MaskShape(0, u)
  {
  }

  lemma {:induction false} RecordKeepsShape(m: nat, u: nat, s: nat, packets: seq<Packet>)
    requires MaskShape(m, u) && u <= 16 && forall p | p in packets :: p.symbol < u
    ensures MaskShape(RecordAll(m, s, packets), u)
  {
    if packets != [] {
      var before, p := packets[..|packets| - 1], packets[|packets| - 1];
      RecordKeepsShape(m, u, s, before);
      var r := RecordAll(m, s, before);
      if p.sf == s && p.kind == Symbol {
        if r < Pow2(u) {
          SetBitMembers(r, p.symbol, u);
        } else {
          AllOnes(p.symbol);
          SetBitAgain(r, p.symbol);
        }
      }
    }
  }

  lemma {:induction false} SetBitAgain(m: nat, i: nat)
    requires Bit(m, i)
    ensures SetBit(m, i) == m
    decreases i
  {
    if i > 0 {
      SetBitAgain(m / 2, i - 1);
    }
  }

  /** On a full subframe (symbol numbers below u) the loop ends exactly when all u symbols of the
      awaited subframe, or a tick for it, have arrived. */
  lemma FullSubframeCompletes(m: nat, u: nat, s: nat, packets: seq<Packet>)
    requires MaskShape(m, u) && AllValid(packets) && u <= 16 && forall p | p in packets :: p.symbol < u
    ensures Complete(RecordAll(m, s, packets), u) <==>
            Ticked(s, packets) || forall i: nat | i < u :: Have(m, s, packets, i)
  {
    Pow2Mono(u, 16);
    AllOnes(0);
    CompleteMeans(m, u, s, packets);
    if m < Pow2(u) {
      forall i: nat | u <= i
        ensures !Have(m, s, packets, i)
      {
        NoHighBit(m, u, i);
      }
    } else {
      forall i: nat | i < u
        ensures Have(m, s, packets, i)
      {
        AllOnes(i);
      }
    }
  }

  /** Everything awaited of subframe s is in: all u symbols, or a tick. */
  ghost predicate Gathered(m: nat, u: nat, s: nat, packets: seq<Packet>) {
    Ticked(s, packets) || forall i: nat | i < u :: Have(m, s, packets, i)
  }

  /** That is so after k packets, and not before. */
  ghost predicate GatheredAt(m: nat, u: nat, s: nat, packets: seq<Packet>, k: nat) {
    && k <= |packets| && Gathered(m, u, s, packets[..k])
    && forall j | 0 <= j < k :: !Gathered(m, u, s, packets[..j])
  }

  ghost predicate SymbolsBelow(packets: seq<Packet>, u: nat) {
    forall p | p in packets :: p.symbol < u
  }

  lemma PrefixGathered(m: nat, u: nat, s: nat, packets: seq<Packet>, k: nat)
    requires MaskShape(m, u) && AllValid(packets) && u <= 16 && SymbolsBelow(packets, u) && k <= |packets|
    ensures Complete(RecordAll(m, s, packets[..k]), u) <==> Gathered(m, u, s, packets[..k])
  {
    forall p | p in packets[..k] ensures ValidPacket(p) && p.symbol < u {
      assert p in packets;
    }
    FullSubframeCompletes(m, u, s, packets[..k]);
  }

  /** Where the loop ends on a full subframe. */
  lemma EndsWhenGathered(m: nat, u: nat, s: nat, packets: seq<Packet>)
    requires MaskShape(m, u) && AllValid(packets) && u <= 16 && SymbolsBelow(packets, u)
    ensures forall k: nat :: CompletesAt(m, u, s, packets, k) <==> GatheredAt(m, u, s, packets, k)
    ensures forall k: nat | k <= |packets| ::
              Complete(RecordAll(m, s, packets[..k]), u) <==> Gathered(m, u, s, packets[..k])
  {
    forall k: nat | k <= |packets|
      ensures Complete(RecordAll(m, s, packets[..k]), u) <==> Gathered(m, u, s, packets[..k])
    {
      PrefixGathered(m, u, s, packets, k);
    }
    hide Complete, RecordAll, Gathered, MaskShape, AllValid, SymbolsBelow;
  }

  /** On a special subframe, where fewer than all symbols are awaited, any single symbol numbered at or
      above the awaited count ends the loop, although none of the awaited symbols is in. */
  lemma SpecialSubframeEndsEarly(u: nat, s: nat, p: Packet)
    requires 0 < u <= p.symbol < 16 && s < 10 && p.sf == s && p.kind == Symbol
    ensures Complete(RecordAll(0, s, [p]), u) && !Ticked(s, [p]) && forall i: nat | i < u :: !Have(0, s, [p], i)
  {
    Pow2Mono(0, 16);
    CompleteMeans(0, u, s, [p]);
    assert p in [p];
    assert Have(0, s, [p], p.symbol);
    forall i: nat | i < u
      ensures !Have(0, s, [p], i)
    {
      ZeroBits(i);
    }
  }

  /** The transmit subframe prepared in single-thread mode is the one its timestamp decodes to. */
  lemma GatheredLookAhead(spt: int, s: Sfn, ahead: nat)
    requires spt > 0 && Valid(s) && ahead <= 10
    ensures LookAhead(s, ahead) == Decode((s.frame * 10 + s.tti) * spt + ahead * spt, spt)
  {
    hide Decode, LookAhead, Hyper;
    var k := Abs(s);
    MulNonNegative(k, spt);
    DivUnique(k * spt, spt, k, 0);
    DecodeAbs(k * spt, spt);
    WithinHyper(k);
    AbsInjective(Decode(k * spt, spt), s);
    LookAheadUpToTen(k * spt, spt, ahead);
  }

  // ----- the routine -----

  /** The fields of RU_proc_t that fh_if4p5_south_in uses. */
  class FronthaulProc {
    const spt: int
    const symbolsPerTti: nat
    const ahead: nat
    const singleThread: bool
    const symbolMask: array<nat>
    var firstRx: bool
    var waitResynch: bool        // ru->cmd == WAIT_RESYNCH
    var frameRx: int
    var ttiRx: nat
    var timestampRx: int
    var frameTx: int
    var ttiTx: int

    ghost predicate Valid()
      reads this, symbolMask
    {
      symbolMask.Length == 10 && symbolsPerTti <= 16
    }

    /** The masks are as a link with symbol numbers below symbolsPerTti leaves them. */
    ghost predicate Shaped()
      requires Valid()
      reads this, symbolMask
    {
      forall t | 0 <= t < 10 :: MaskShape(symbolMask[t], symbolsPerTti)
    }

    /** LTE has 12 or 14 symbols in a subframe. */
    constructor (spt: int, symbolsPerTti: nat, ahead: nat, singleThread: bool)
      requires symbolsPerTti <= 16
      ensures Valid() && Shaped()
      ensures this.spt == spt && this.symbolsPerTti == symbolsPerTti
      ensures this.ahead == ahead && this.singleThread == singleThread
      ensures firstRx && !waitResynch && fresh(symbolMask)
      ensures forall t | 0 <= t < 10 :: symbolMask[t] == 0
    {
      this.spt, this.symbolsPerTti, this.ahead, this.singleThread := spt, symbolsPerTti, ahead, singleThread;
      frameTx, ttiTx := 0, 0;
      symbolMask := new nat[10](_ => 0);
      firstRx, waitResynch, frameRx, ttiRx, timestampRx := true, false, 0, 0, 0;
    }

    /** Gathers packets for `subframe`, of which u symbols are awaited. `packets` is what the fronthaul
        delivers; `blocked` says that it ran out while the routine was still waiting. */
    method SouthIn(frame: int, subframe: nat, u: nat, packets: seq<Packet>)
      returns (frame': int, subframe': nat, used: nat, blocked: bool, stopped: bool)
      requires Valid() && subframe < 10 && AllValid(packets)
      modifies this, symbolMask
      ensures Valid() && used <= |packets|
      ensures stopped ==> used > 0 && packets[used - 1].stop && !blocked
      ensures forall k | 0 <= k < used :: packets[k].stop ==> stopped && k == used - 1
      // where the loop ends
      ensures !stopped && !blocked ==> CompletesAt(old(symbolMask[subframe]), u, subframe, packets, used)
      ensures blocked ==> used == |packets|
      ensures blocked ==>
        forall k | 0 <= k <= |packets| :: !Complete(RecordAll(old(symbolMask[subframe]), subframe, packets[..k]), u)
      ensures !stopped && !blocked && used > 0 ==> packets[used - 1].sf == subframe
      // what that means on a full subframe, call after call
      ensures old(Shaped()) && SymbolsBelow(packets, symbolsPerTti) ==> Shaped()
      ensures old(Shaped()) && SymbolsBelow(packets, symbolsPerTti) && u == symbolsPerTti ==>
        && (!stopped && !blocked ==> GatheredAt(old(symbolMask[subframe]), u, subframe, packets, used))
        && (blocked ==> forall k: nat | k <= |packets| :: !Gathered(old(symbolMask[subframe]), u, subframe, packets[..k]))
      // what it leaves behind
      ensures
        var gathered := if stopped then packets[..used - 1] else packets[..used];
        forall t | 0 <= t < 10 ::
          symbolMask[t] == if !blocked && t == ttiRx then 0 else RecordAll(old(symbolMask[t]), t, gathered)
      ensures blocked ==> unchanged(this) && frame' == frame && subframe' == subframe
      ensures !blocked ==>
        && frameRx == (if used > 0 then packets[used - 1].frame else frame)
        && ttiRx == (if used > 0 then packets[used - 1].sf else subframe)
        && timestampRx == (frameRx * 10 + ttiRx) * spt
        && Sfn(frameTx, ttiTx) ==
           (if singleThread then LookAhead(Sfn(frameRx, ttiRx), ahead) else old(Sfn(frameTx, ttiTx)))
        && !firstRx && subframe' == ttiRx
        && frame' == (if old(firstRx) || old(waitResynch) then frameRx else frame)
        && waitResynch == (old(waitResynch) && (old(firstRx) || frameRx == frame))
    {
      frame', subframe', used, blocked, stopped := frame, subframe, 0, false, false;
      var f, sf := frame, subframe;
      EmptyShape(symbolsPerTti);
      hide GatheredAt, Gathered, RecordAll, Complete, CompletesAt, MaskShape, SymbolsBelow, LookAhead;
      used, blocked, stopped := GatherAll(subframe, u, packets);
      if blocked {
        return;
      }
      if used > 0 {
        assert ValidPacket(packets[used - 1]);
        f, sf := packets[used - 1].frame, packets[used - 1].sf;
      }
      ttiRx, frameRx := sf, f;
      timestampRx := (frameRx * 10 + ttiRx) * spt;
      if singleThread {
        PrepareTx(f, sf);
      }
      if !firstRx {
        if ttiRx != subframe {
          subframe' := sf;
        }
        if waitResynch && frameRx != frame {
          waitResynch := false;
          frame' := frameRx;
        }
      } else {
        firstRx := false;
        frame', subframe' := frameRx, ttiRx;
      }
      symbolMask[sf] := 0;
    }

    /** The transmit subframe of single-thread mode. */
    method PrepareTx(f: int, sf: nat)
      modifies this`frameTx, this`ttiTx
      ensures Sfn(frameTx, ttiTx) == LookAhead(Sfn(f, sf), ahead)
    {
      ttiTx := (sf + ahead) % 10;
      frameTx := if sf > 9 - ahead then And1023(f + 1) else f;
    }

    /** The receiving loop, and what its end means on a full subframe. */
    method GatherAll(subframe: nat, u: nat, packets: seq<Packet>) returns (used: nat, blocked: bool, stopped: bool)
      requires Valid() && subframe < 10 && AllValid(packets)
      modifies symbolMask
      ensures used <= |packets|
      ensures stopped ==> used > 0 && packets[used - 1].stop && !blocked
      ensures forall k | 0 <= k < used :: packets[k].stop ==> stopped && k == used - 1
      ensures !stopped && !blocked ==> CompletesAt(old(symbolMask[subframe]), u, subframe, packets, used)
      ensures blocked ==> used == |packets|
      ensures blocked ==>
        forall k | 0 <= k <= |packets| :: !Complete(RecordAll(old(symbolMask[subframe]), subframe, packets[..k]), u)
      ensures !stopped && !blocked && used > 0 ==> packets[used - 1].sf == subframe
      ensures
        var gathered := if stopped then packets[..used - 1] else packets[..used];
        forall t | 0 <= t < 10 :: symbolMask[t] == RecordAll(old(symbolMask[t]), t, gathered)
      ensures old(Shaped()) && SymbolsBelow(packets, symbolsPerTti) ==> Shaped()
      ensures old(Shaped()) && SymbolsBelow(packets, symbolsPerTti) && u == symbolsPerTti ==>
        && (!stopped && !blocked ==> GatheredAt(old(symbolMask[subframe]), u, subframe, packets, used))
        && (blocked ==> forall k: nat | k <= |packets| :: !Gathered(old(symbolMask[subframe]), u, subframe, packets[..k]))
    {
      hide GatheredAt, Gathered, RecordAll, Complete, CompletesAt, MaskShape;
      ghost var before := symbolMask[..];
      ghost var shaped := Shaped();
      used, blocked, stopped := Gather(subframe, u, packets);
      if shaped && SymbolsBelow(packets, symbolsPerTti) {
        EndsWhenGathered(before[subframe], symbolsPerTti, subframe, packets);
        StaysShaped(before, if stopped then packets[..used - 1] else packets[..used]);
      }
    }

    lemma StaysShaped(before: seq<nat>, packets: seq<Packet>)
      requires symbolsPerTti <= 16 && |before| == 10 && SymbolsBelow(packets, symbolsPerTti)
      requires forall t | 0 <= t < 10 :: MaskShape(before[t], symbolsPerTti)
      ensures forall t | 0 <= t < 10 :: MaskShape(RecordAll(before[t], t, packets), symbolsPerTti)
    {
      forall t | 0 <= t < 10 ensures MaskShape(RecordAll(before[t], t, packets), symbolsPerTti) {
        RecordKeepsShape(before[t], symbolsPerTti, t, packets);
      }
    }

    /** The receiving loop. */
    method Gather(subframe: nat, u: nat, packets: seq<Packet>) returns (used: nat, blocked: bool, stopped: bool)
      requires Valid() && subframe < 10 && AllValid(packets)
      modifies symbolMask
      ensures used <= |packets|
      ensures stopped ==> used > 0 && packets[used - 1].stop && !blocked
      ensures forall k | 0 <= k < used :: packets[k].stop ==> stopped && k == used - 1
      ensures !stopped && !blocked ==> CompletesAt(old(symbolMask[subframe]), u, subframe, packets, used)
      ensures blocked ==> used == |packets|
      ensures blocked ==>
        forall k | 0 <= k <= |packets| :: !Complete(RecordAll(old(symbolMask[subframe]), subframe, packets[..k]), u)
      ensures !stopped && !blocked && used > 0 ==> packets[used - 1].sf == subframe
      ensures
        var gathered := if stopped then packets[..used - 1] else packets[..used];
        forall t | 0 <= t < 10 :: symbolMask[t] == RecordAll(old(symbolMask[t]), t, gathered)
    {
      used, blocked, stopped := 0, false, false;
      ghost var m := symbolMask[subframe];
      assert packets[..0] == [];
      while symbolMask[subframe] < Pow2(u) - 1
        invariant used <= |packets|
        invariant forall k | 0 <= k < used :: !packets[k].stop
        invariant forall t | 0 <= t < 10 :: symbolMask[t] == RecordAll(old(symbolMask[t]), t, packets[..used])
        invariant forall k | 0 <= k < used :: !Complete(RecordAll(m, subframe, packets[..k]), u)
        invariant used > 0 ==> symbolMask[subframe] == Record(RecordAll(m, subframe, packets[..used - 1]), subframe, packets[used - 1])
        decreases |packets| - used
      {
        if used == |packets| {
          blocked := true;
          return;
        }
        var p := packets[used];
        used := used + 1;
        assert packets[..used][..used - 1] == packets[..used - 1];
        if p.stop {
          stopped := true;
          return;
        }
        assert ValidPacket(p);
        symbolMask[p.sf] := Record(symbolMask[p.sf], p.sf, p);
      }
    }
  }
}
