/** The unwrapped 64-bit transmit timestamp of fh_if4p5_north_asynch_in, and its decoding by
    fh_if5_north_asynch_in. */
module TxUnwrap {
  import opened Arith
  import opened SubframeTime

  datatype TxClock = TxClock(unwrap: int, timestampTx: int, tx: Sfn)

  /** The end of fh_if4p5_north_asynch_in, after the symbols of subframe `s` have been gathered. */
  function Receive(spt: int, c: TxClock, s: Sfn): TxClock {
    var unwrap := if s == Sfn(0, 0) then c.unwrap + 1024 else c.unwrap;
    TxClock(unwrap, ((s.frame + unwrap) * 10 + s.tti) * spt, s)
  }

  class NorthProc {
    const spt: int
    var frameTxUnwrap: int
    var timestampTx: int
    var frameTx: int
    var ttiTx: int

    ghost function State(): TxClock
      reads this
    {
      TxClock(frameTxUnwrap, timestampTx, Sfn(frameTx, ttiTx))
    }

    constructor (spt: int)
      ensures this.spt == spt && State() == TxClock(0, 0, Sfn(0, 0))
    {
      this.spt := spt;
      frameTxUnwrap, timestampTx, frameTx, ttiTx := 0, 0, 0, 0;
    }

    method NorthIn(frame: int, tti: int)
      modifies this
      ensures State() == Receive(spt, old(State()), Sfn(frame, tti))
    {
      ttiTx, frameTx := tti, frame;
      if frame == 0 && tti == 0 {
        frameTxUnwrap := frameTxUnwrap + 1024;
      }
      timestampTx := ((frame + frameTxUnwrap) * 10 + tti) * spt;
    }
  }

  // ----- runs of received subframes -----

  /** The frame and subframe number of the a-th subframe since frame 0 subframe 0. */
  ghost function SfnOf(a: nat): Sfn {
    Sfn(And1023(a / 10), a % 10)
  }

  /** Receiving the subframes with absolute numbers `run`. */
  ghost function ReceiveAll(spt: int, c: TxClock, run: seq<nat>): TxClock {
    if run == [] then c
    else Receive(spt, ReceiveAll(spt, c, run[..|run| - 1]), SfnOf(run[|run| - 1]))
  }

  ghost predicate Forward(run: seq<nat>) {
    forall i | 0 < i < |run| :: run[i - 1] < run[i]
  }

  /** Going from subframe a to b does not skip frame 0 subframe 0: no wrap lies between them, or
      exactly one and b is the subframe it happens at. */
  ghost predicate NoSkip(a: nat, b: nat) {
    b / 10240 - a / 10240 == if b % 10240 == 0 then 1 else 0
  }

  lemma SfnOfAbs(a: nat)
    ensures Valid(SfnOf(a)) && Abs(SfnOf(a)) == a % 10240
    ensures SfnOf(a) == Sfn(0, 0) <==> a % 10240 == 0
  {
    DigitsOf(a / 10, a % 10);
    assert Hyper(a) == a % 10240;
    hide And1023;
  }

  /** The subframe count the timestamp stands for. */
  ghost function Count(c: TxClock): int {
    (c.tx.frame + c.unwrap) * 10 + c.tx.tti
  }

  /** One reception moves the count by the subframe distance exactly if it skips no wrap. */
  lemma ReceiveDistance(spt: int, c: TxClock, a: nat, b: nat)
    requires a < b && c.tx == SfnOf(a)
    ensures Count(Receive(spt, c, SfnOf(b))) - Count(c) == (b as int) - a <==> NoSkip(a, b)
  {
    SfnOfAbs(a);
    SfnOfAbs(b);
    CountParts(Receive(spt, c, SfnOf(b)));
    CountParts(c);
    hide SfnOf, Count, NoSkip, Abs;
    DistanceMod(a, b);
  }

  lemma CountParts(c: TxClock)
    ensures Count(c) == Abs(c.tx) + 10 * c.unwrap
  {
  }

  lemma DistanceMod(a: nat, b: nat)
    ensures (b % 10240 - a % 10240 + (if b % 10240 == 0 then 10240 else 0)) == (b as int) - a <==> NoSkip(a, b)
  {
  }

  /** A wrap passed without receiving frame 0 subframe 0 is lost: the count falls short by a hyper period
      for each, so that receiving subframe 1 right after the last one of a hyper period runs backwards. */
  lemma SkippedWrapGoesBack(spt: int, c: TxClock, a: nat)
    requires spt > 0 && a % 10240 == 10239 && c.tx == SfnOf(a) && c.timestampTx == Count(c) * spt
    ensures Receive(spt, c, SfnOf(a + 2)).timestampTx == c.timestampTx - 10238 * spt
  {
    var c' := Receive(spt, c, SfnOf(a + 2));
    TwoLater(a);
    SfnOfAbs(a);
    SfnOfAbs(a + 2);
    CountParts(c);
    CountParts(c');
    ReceiveCount(spt, c, SfnOf(a + 2));
    hide SfnOf, Count, Abs;
    assert c'.unwrap == c.unwrap && c'.tx == SfnOf(a + 2);
    hide Receive;
    Difference(Count(c'), Count(c), -10238, spt);
  }

  lemma ReceiveCount(spt: int, c: TxClock, s: Sfn)
    ensures var c' := Receive(spt, c, s); c'.timestampTx == Count(c') * spt
  {
  }

  lemma TwoLater(a: nat)
    requires a % 10240 == 10239
    ensures (a + 2) % 10240 == 1
  {
  }

  /** Every timestamp is the count of its subframe times the samples per subframe. */
  lemma {:induction false} TimestampIsCount(spt: int, c: TxClock, run: seq<nat>)
    requires run != []
    ensures var c' := ReceiveAll(spt, c, run); c'.timestampTx == Count(c') * spt && c'.tx == SfnOf(run[|run| - 1])
  {
  }

  /** All steps of the run up to position k skip no wrap. */
  ghost predicate NeverSkips(run: seq<nat>, k: nat)
    requires k < |run|
  {
    forall i | 0 < i <= k :: NoSkip(run[i - 1], run[i])
  }

  ghost predicate TracksTo(spt: int, c: TxClock, run: seq<nat>, k: nat)
    requires k < |run|
  {
    Count(ReceiveAll(spt, c, run[..k + 1])) - Count(ReceiveAll(spt, c, run[..1])) == (run[k] as int) - run[0]
  }

  lemma OneReception(spt: int, c: TxClock, run: seq<nat>, k: nat)
    requires Forward(run) && 0 < k < |run|
    ensures Count(ReceiveAll(spt, c, run[..k + 1])) - Count(ReceiveAll(spt, c, run[..k])) == (run[k] as int) - run[k - 1]
            <==> NoSkip(run[k - 1], run[k])
  {
    assert run[..k + 1][..k] == run[..k];
    var before := ReceiveAll(spt, c, run[..k]);
    TimestampIsCount(spt, c, run[..k]);
    ReceiveDistance(spt, before, run[k - 1], run[k]);
  }

  /** Over any forward run, across any number of wraps: the timestamps advance by exactly the subframe
      distance at every reception if and only if the run never skips frame 0 subframe 0. */
  lemma {:induction false} TimestampsTrack(spt: int, c: TxClock, run: seq<nat>, k: nat)
    requires Forward(run) && k < |run|
    ensures (forall j: nat | j <= k :: TracksTo(spt, c, run, j)) <==> NeverSkips(run, k)
  {
    hide Count, NoSkip;
    if k > 0 {
      TimestampsTrack(spt, c, run, k - 1);
      OneReception(spt, c, run, k);
      assert NeverSkips(run, k) <==> NeverSkips(run, k - 1) && NoSkip(run[k - 1], run[k]);
      if forall j: nat | j <= k - 1 :: TracksTo(spt, c, run, j) {
        assert TracksTo(spt, c, run, k - 1);
        assert TracksTo(spt, c, run, k) <==> NoSkip(run[k - 1], run[k]);
      }
    }
  }

  /** So on such runs timestamp_tx itself advances by spt times the distance, hence strictly. */
  lemma TimestampsAdvance(spt: int, c: TxClock, run: seq<nat>, k: nat)
    requires spt > 0 && Forward(run) && k < |run| && NeverSkips(run, k)
    ensures ReceiveAll(spt, c, run[..k + 1]).timestampTx - ReceiveAll(spt, c, run[..1]).timestampTx
            == ((run[k] as int) - run[0]) * spt
    ensures k > 0 ==> ReceiveAll(spt, c, run[..k + 1]).timestampTx > ReceiveAll(spt, c, run[..k]).timestampTx
  {
    hide Count, ReceiveAll;
    TimestampsTrack(spt, c, run, k);
    assert TracksTo(spt, c, run, k);
    TimestampDifference(spt, c, run, k + 1, 1, (run[k] as int) - run[0]);
    if k > 0 {
      OneReception(spt, c, run, k);
      assert NoSkip(run[k - 1], run[k]);
      TimestampDifference(spt, c, run, k + 1, k, (run[k] as int) - run[k - 1]);
      MulAtLeast(spt, (run[k] as int) - run[k - 1]);
    }
  }

  lemma TimestampDifference(spt: int, c: TxClock, run: seq<nat>, k: nat, j: nat, d: int)
    requires 0 < j <= k <= |run| && Count(ReceiveAll(spt, c, run[..k])) - Count(ReceiveAll(spt, c, run[..j])) == d
    ensures ReceiveAll(spt, c, run[..k]).timestampTx - ReceiveAll(spt, c, run[..j]).timestampTx == d * spt
  {
    hide Count, ReceiveAll;
    TimestampIsCount(spt, c, run[..k]);
    TimestampIsCount(spt, c, run[..j]);
    Difference(Count(ReceiveAll(spt, c, run[..k])), Count(ReceiveAll(spt, c, run[..j])), d, spt);
  }

  lemma Difference(x: int, y: int, d: int, s: int)
    requires x - y == d
    ensures x * s - y * s == d * s
  {
  }

  /** Round trip: decoding any timestamp this produces gives back the frame and subframe received. */
  lemma DecodeInvertsReceive(spt: int, c: TxClock, s: Sfn)
    requires spt > 0 && Valid(s) && c.unwrap >= 0 && c.unwrap % 1024 == 0
    ensures
      var c' := Receive(spt, c, s);
      Decode(c'.timestampTx, spt) == s && c'.unwrap >= 0 && c'.unwrap % 1024 == 0
  {
    var c' := Receive(spt, c, s);
    var k := (s.frame + c'.unwrap) * 10 + s.tti;
    assert c'.unwrap % 1024 == 0 && c'.unwrap >= 0;
    hide Decode, Hyper, And1023;
    MulNonNegative(k, spt);
    DivUnique(k * spt, spt, k, 0);
    DecodeAbs(k * spt, spt);
    DigitsOf(s.frame + c'.unwrap, s.tti);
    WholeFrames(s.frame, c'.unwrap);
    AbsInjective(Decode(k * spt, spt), s);
  }

  lemma WholeFrames(f: int, u: int)
    requires 0 <= f < 1024 && u % 1024 == 0
    ensures And1023(f + u) == f
  {
  }
}
