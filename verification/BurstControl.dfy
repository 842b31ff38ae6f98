/** The burst flags of tx_rf and its fail-safe for late commands (late_control). The blocks are those of
    downlink and special subframes: the single sample tx_rf writes on uplink subframes for the RF
    simulator is not part of a burst, and that device reports no fault. RadioRun puts both together. */
module BurstControl {

  datatype SfType = DL | UL | S

  datatype Duplex = FDD | TDD(config: int)

  /** The configurations subframe_select accepts; it aborts on every other one. */
  predicate Supported(d: Duplex) {
    d.FDD? || d.config in {1, 3, 4, 5}
  }

  /** subframe_select: the rows of table 4.2-2 of 3GPP TS 36.211 that the source implements. */
  function SubframeSelect(d: Duplex, sf: int): SfType
    requires Supported(d) && 0 <= sf < 10
  {
    if d.FDD? then DL
    else if d.config == 1 then
      if sf in {0, 4, 5, 9} then DL else if sf in {2, 3, 7, 8} then UL else S
    else
      var firstDl := if d.config == 3 then 5 else if d.config == 4 then 4 else 3;
      if sf < 1 || sf >= firstDl then DL else if sf > 1 then UL else S
  }

  datatype Late = Normal | Terminate | Stop1 | Stop2 | Restart

  datatype Flag = Middle | Start | End | StartAndEnd | EndNoTimeSpec

  /** The subframe before `sf`, as tx_rf computes it. */
  function Before(sf: int): (r: int)
    requires 0 <= sf < 10
    ensures r == if sf == 0 then 9 else sf - 1
  {
    (sf + 9) % 10
  }

  /** The flag tx_rf would use for a downlink or special subframe when nothing is late. */
  function BaseFlag(d: Duplex, sf: int): Flag
    requires Supported(d) && 0 <= sf < 10
  {
    if d.TDD? && SubframeSelect(d, sf) == DL && SubframeSelect(d, Before(sf)) == UL then Start
    else if SubframeSelect(d, sf) == S then End
    else Middle
  }

  /** A block handed to the device, with the late_control state it was sent from. */
  datatype Block = Block(flag: Flag, from: Late)

  datatype Bursts = Bursts(late: Late, blocks: seq<Block>)

  const INITIAL := Bursts(Normal, [])

  /** RxFault: rx_rf got a short read. Tx: one tx_rf call; `short` says the device took fewer samples. */
  datatype Event = RxFault | Tx(sf: int, short: bool)

  predicate ValidEvent(e: Event) {
    e.Tx? ==> 0 <= e.sf < 10
  }

  /** late_control after a tx_rf call on a downlink or special subframe. */
  function NextLate(late: Late, short: bool): Late {
    match late
    case Terminate => Stop1
    case Stop1 => Stop2
    case Stop2 => Restart
    case _ => if short then Terminate else Normal
  }

  /** What the call sends: one block, or nothing in the two stop states. */
  function Sent(d: Duplex, sf: int, late: Late): seq<Block>
    requires Supported(d) && 0 <= sf < 10
  {
    match late
    case Normal => [Block(BaseFlag(d, sf), Normal)]
    case Terminate => [Block(EndNoTimeSpec, Terminate)]
    case Restart => [Block(Start, Restart)]
    case _ => []
  }

  function Step(d: Duplex, b: Bursts, e: Event): Bursts
    requires Supported(d) && ValidEvent(e)
  {
    if e.RxFault? then b.(late := Terminate)
    else if SubframeSelect(d, e.sf) == UL then b
    else Bursts(NextLate(b.late, e.short), b.blocks + Sent(d, e.sf, b.late))
  }

  function Run(d: Duplex, b: Bursts, events: seq<Event>): Bursts
    requires Supported(d) && forall e | e in events :: ValidEvent(e)
  {
    if events == [] then b
    else Step(d, Run(d, b, events[..|events| - 1]), events[|events| - 1])
  }

  // ----- every interleaving of faults and calls -----

  ghost predicate GoodBlock(bs: seq<Block>, i: nat)
    requires i < |bs|
  {
    && (bs[i].flag == EndNoTimeSpec <==> bs[i].from == Terminate)
    && bs[i].from != Stop1 && bs[i].from != Stop2
    && (bs[i].from == Restart ==> i > 0 && bs[i].flag == Start && bs[i - 1].flag == EndNoTimeSpec)
    && (i > 0 && bs[i - 1].flag == EndNoTimeSpec ==> bs[i].from == Restart || bs[i].from == Terminate)
  }

  ghost predicate FaultInv(b: Bursts) {
    && (forall i | 0 <= i < |b.blocks| :: GoodBlock(b.blocks, i))
    && (b.late in {Stop1, Stop2, Restart} ==>
          b.blocks != [] && b.blocks[|b.blocks| - 1].flag == EndNoTimeSpec)
    && (b.late == Normal && b.blocks != [] ==> b.blocks[|b.blocks| - 1].flag != EndNoTimeSpec)
  }

  lemma StepKeepsFaultInv(d: Duplex, b: Bursts, e: Event)
    requires Supported(d) && ValidEvent(e) && FaultInv(b)
    ensures FaultInv(Step(d, b, e))
  {
    var b' := Step(d, b, e);
    forall i | 0 <= i < |b'.blocks|
      ensures GoodBlock(b'.blocks, i)
    {
      if i < |b.blocks| {
        assert GoodBlock(b.blocks, i);
      }
    }
  }

  /** For every interleaving of faults and calls: the block that leaves the restart state is a START
      that directly follows an END_NO_TIME_SPEC block, END_NO_TIME_SPEC is sent exactly from the
      terminate state, the stop states send nothing, and what follows an END_NO_TIME_SPEC block is
      either that restart or the termination of a newer fault. */
  lemma {:induction false} RestartFollowsTermination(d: Duplex, events: seq<Event>)
    requires Supported(d) && forall e | e in events :: ValidEvent(e)
    ensures FaultInv(Run(d, INITIAL, events))
  {
    if events != [] {
      var n := |events| - 1;
      RestartFollowsTermination(d, events[..n]);
      StepKeepsFaultInv(d, Run(d, INITIAL, events[..n]), events[n]);
    }
  }

  // ----- recovery without a new fault -----

  ghost predicate FaultFree(events: seq<Event>) {
    forall e | e in events :: e.Tx? && 0 <= e.sf < 10 && !e.short
  }

  /** Number of calls on downlink or special subframes. */
  ghost function Downlinks(d: Duplex, events: seq<Event>): nat
    requires Supported(d) && FaultFree(events)
  {
    if events == [] then 0
    else
      var n := |events| - 1;
      Downlinks(d, events[..n]) + if SubframeSelect(d, events[n].sf) == UL then 0 else 1
  }

  /** From a fault, recovery takes exactly four downlink calls, of which exactly two are suppressed;
      uplink calls in between neither delay nor advance it. */
  lemma {:induction false} RecoveryTakesFour(d: Duplex, events: seq<Event>)
    requires Supported(d) && FaultFree(events)
    ensures
      var n := Downlinks(d, events);
      var b := Run(d, Bursts(Terminate, []), events);
      && b.late == (if n == 0 then Terminate else if n == 1 then Stop1 else if n == 2 then Stop2
                    else if n == 3 then Restart else Normal)
      && |b.blocks| == (if n <= 1 then n else if n <= 3 then 1 else n - 2)
      && (n >= 1 ==> b.blocks[0].flag == EndNoTimeSpec)
      && (n >= 4 ==> b.blocks[1].flag == Start)
      && (forall i | 2 <= i < |b.blocks| :: b.blocks[i].from == Normal)
  {
    if events != [] {
      RecoveryTakesFour(d, events[..|events| - 1]);
    }
  }

  // ----- fault-free TDD runs -----

  /** The subframe of the n-th call after one on subframe `first`. */
  ghost function SubframeAt(first: int, n: nat): (sf: int)
    requires 0 <= first < 10
    ensures 0 <= sf < 10
    ensures n > 0 ==> Before(sf) == SubframeAt(first, n - 1)
  {
    if n == 0 then first
    else
      var sf := SubframeAt(first, n - 1);
      if sf == 9 then 0 else sf + 1
  }

  /** `count` fault-free calls on consecutive subframes, the first one on subframe `first`. */
  ghost function Consecutive(first: int, count: nat): (events: seq<Event>)
    requires 0 <= first < 10
    ensures |events| == count && FaultFree(events)
  {
    if count == 0 then [] else Consecutive(first, count - 1) + [Tx(SubframeAt(first, count - 1), false)]
  }

  /** The burst markers among the blocks sent. */
  ghost function Markers(blocks: seq<Block>): seq<Flag> {
    if blocks == [] then []
    else
      var n := |blocks| - 1;
      Markers(blocks[..n]) + Marker(blocks[n].flag)
  }

  ghost function Marker(f: Flag): seq<Flag> {
    if f == Start || f == End then [f] else []
  }

  /** The uplink and special subframes of the supported uplink-downlink configurations, as table 4.2-2 of
      3GPP TS 36.211 lists them. */
  lemma PatternTable(sf: int)
    requires 0 <= sf < 10
    ensures SubframeSelect(FDD, sf) == DL
    ensures SubframeSelect(TDD(1), sf) == [DL, S, UL, UL, DL, DL, S, UL, UL, DL][sf]
    ensures SubframeSelect(TDD(3), sf) == [DL, S, UL, UL, UL, DL, DL, DL, DL, DL][sf]
    ensures SubframeSelect(TDD(4), sf) == [DL, S, UL, UL, DL, DL, DL, DL, DL, DL][sf]
    ensures SubframeSelect(TDD(5), sf) == [DL, S, UL, DL, DL, DL, DL, DL, DL, DL][sf]
  {
  }

  /** In every supported TDD pattern a special subframe lies between downlink and uplink, and
      uplink is followed by more uplink or by downlink. */
  lemma PatternShape(d: Duplex, sf: int)
    requires Supported(d) && d.TDD? && 0 <= sf < 10
    ensures
      var before := SubframeSelect(d, Before(sf));
      var here := SubframeSelect(d, sf);
      && (before == DL ==> here != UL) && (before == S ==> here == UL) && (before == UL ==> here != S)
  {
  }

  ghost predicate Alternates(m: seq<Flag>) {
    && (forall i | 0 <= i < |m| :: m[i] == Start || m[i] == End)
    && (forall i | 0 < i < |m| :: m[i - 1] != m[i])
  }

  /** After a subframe of type `t` a burst is open exactly if `t` is downlink. */
  ghost predicate EndsAs(m: seq<Flag>, t: SfType) {
    m != [] ==> (m[|m| - 1] == Start <==> t == DL)
  }

  lemma OneMoreMarker(d: Duplex, m: seq<Flag>, sf: int)
    requires Supported(d) && d.TDD? && 0 <= sf < 10 && SubframeSelect(d, sf) != UL
    requires Alternates(m) && EndsAs(m, SubframeSelect(d, Before(sf)))
    ensures
      var m' := m + Marker(BaseFlag(d, sf));
      Alternates(m') && EndsAs(m', SubframeSelect(d, sf))
  {
    PatternShape(d, sf);
  }

  lemma OneMoreCall(d: Duplex, b: Bursts, sf: int)
    requires Supported(d) && d.TDD? && 0 <= sf < 10 && b.late == Normal
    requires Alternates(Markers(b.blocks))
    requires EndsAs(Markers(b.blocks), SubframeSelect(d, Before(sf)))
    ensures
      var b' := Step(d, b, Tx(sf, false));
      && b'.late == Normal
      && Alternates(Markers(b'.blocks)) && EndsAs(Markers(b'.blocks), SubframeSelect(d, sf))
  {
    hide SubframeSelect, BaseFlag, Alternates, Supported;
    if SubframeSelect(d, sf) != UL {
      OneMoreMarker(d, Markers(b.blocks), sf);
      var b' := Step(d, b, Tx(sf, false));
      assert b'.blocks[..|b.blocks|] == b.blocks;
    } else {
      PatternShape(d, sf);
    }
  }

  /** In FDD a run without faults is one unbroken burst: every call sends a MIDDLE block. */
  lemma {:induction false} FddUnbroken(events: seq<Event>)
    requires FaultFree(events)
    ensures
      var b := Run(FDD, INITIAL, events);
      b.late == Normal && |b.blocks| == |events| && forall i | 0 <= i < |b.blocks| :: b.blocks[i].flag == Middle
  {
    if events != [] {
      var n := |events| - 1;
      FddUnbroken(events[..n]);
      var b := Run(FDD, INITIAL, events[..n]);
      assert events[n] in events;
      assert Run(FDD, INITIAL, events) == Bursts(Normal, b.blocks + [Block(Middle, Normal)]);
    }
  }

  ghost function FaultFreeRun(d: Duplex, first: int, count: nat): Bursts
    requires Supported(d) && 0 <= first < 10
  {
    Run(d, INITIAL, Consecutive(first, count))
  }

  lemma FaultFreeStep(d: Duplex, first: int, count: nat)
    requires Supported(d) && 0 <= first < 10 && count > 0
    ensures FaultFreeRun(d, first, count)
            == Step(d, FaultFreeRun(d, first, count - 1), Tx(SubframeAt(first, count - 1), false))
  {
    hide Step, Supported;
    var events := Consecutive(first, count - 1);
    assert Consecutive(first, count)[..|events|] == events;
  }

  /** Fault-free TDD runs of any length, from any subframe: the START and END flags alternate, and a
      burst is open after a call exactly when the call was on a downlink subframe. */
  lemma {:induction false} StartAndEndAlternate(d: Duplex, first: int, count: nat)
    requires Supported(d) && d.TDD? && 0 <= first < 10
    ensures
      var b := FaultFreeRun(d, first, count);
      && b.late == Normal
      && Alternates(Markers(b.blocks))
      && (count > 0 ==> EndsAs(Markers(b.blocks), SubframeSelect(d, SubframeAt(first, count - 1))))
  {
    if count > 0 {
      hide SubframeSelect, Step, Alternates, Supported;
      StartAndEndAlternate(d, first, count - 1);
      FaultFreeStep(d, first, count);
      OneMoreCall(d, FaultFreeRun(d, first, count - 1), SubframeAt(first, count - 1));
    }
  }
}
