/** System frame numbers (modulo 1024), the ten subframes of a frame, and their relation to sample clocks. */
module SubframeTime {
  import opened Arith

  /** A frame number and a subframe number, as the source keeps them in two ints. */
  datatype Sfn = Sfn(frame: int, tti: int)

  predicate Valid(s: Sfn) {
    0 <= s.frame < 1024 && 0 <= s.tti < 10
  }

  /** Absolute subframe number within one 10240-subframe hyper period. */
  function Abs(s: Sfn): int {
    s.frame * 10 + s.tti
  }

  /** `x & 1023` on a two's-complement int. */
  function And1023(x: int): (r: int)
    ensures 0 <= r < 1024
  {
    x % 1024
  }

  /** frame = (ts / (10 spt)) & 1023, tti = (ts / spt) % 10, with C's truncating operators. */
  function Decode(ts: int, spt: int): Sfn
    requires spt > 0
  {
    Sfn(And1023(TruncDiv(ts, spt * 10)), TruncMod(TruncDiv(ts, spt), 10))
  }

  /** The wrapping increment of the ru_thread counters. */
  function Succ(s: Sfn): Sfn {
    if s.tti == 9 then Sfn(And1023(s.frame + 1), 0) else Sfn(s.frame, s.tti + 1)
  }

  /** The transmit subframe `ahead` subframes after `s`, by conditional wrap. */
  function LookAhead(s: Sfn, ahead: nat): Sfn {
    Sfn(if s.tti > 9 - ahead then And1023(s.frame + 1) else s.frame, TruncMod(s.tti + ahead, 10))
  }

  /** Reduction to one hyper period of 1024 frames. */
  function Hyper(x: int): (r: int)
    ensures 0 <= r < 10240
  {
    x % 10240
  }

  lemma AbsInjective(s: Sfn, t: Sfn)
    requires Valid(s) && Valid(t) && Abs(s) == Abs(t)
    ensures s == t
  {
  }

  /** Ten subframes a frame, 1024 frames: the two wrapped digits are the wrapped whole. */
  lemma DigitsOf(f: int, r: int)
    requires 0 <= r < 10
    ensures Hyper(10 * f + r) == And1023(f) * 10 + r
  {
  }

  lemma WithinHyper(x: int)
    requires 0 <= x < 10240
    ensures Hyper(x) == x
  {
  }

  lemma Within1024(x: int)
    requires 0 <= x < 2048
    ensures And1023(x) == if x < 1024 then x else x - 1024
  {
  }

  lemma HyperSum(a: int, k: int)
    ensures Hyper(a + k) == Hyper(Hyper(a) + k)
  {
  }

  /** Decoding a non-negative timestamp yields its subframe count modulo 10240. */
  lemma DecodeAbs(ts: int, spt: int)
    requires spt > 0 && ts >= 0
    ensures Valid(Decode(ts, spt)) && Abs(Decode(ts, spt)) == Hyper(ts / spt)
  {
    hide Hyper, And1023;
    var k := ts / spt;
    DivDiv(ts, spt, 10);
    DivNonNegative(ts, spt);
    assert TruncDiv(ts, spt) == k && TruncDiv(ts, spt * 10) == k / 10;
    assert TruncMod(k, 10) == k % 10;
    DigitsOf(k / 10, k % 10);
  }

  /** C division truncates, so a negative timestamp has a subframe number only if its count is a whole
      number of frames; then it is subframe 0. */
  lemma DecodeNegative(ts: int, spt: int)
    requires spt > 0 && ts < 0
    ensures Decode(ts, spt).tti <= 0 && 0 <= Decode(ts, spt).frame < 1024
    ensures Decode(ts, spt).tti == 0 <==> TruncDiv(ts, spt) % 10 == 0
    ensures Decode(ts, spt).tti == 0 ==> Abs(Decode(ts, spt)) == Hyper(TruncDiv(ts, spt))
  {
    hide Hyper, And1023;
    var k := (-ts) / spt;
    DivDiv(-ts, spt, 10);
    DivNonNegative(-ts, spt);
    assert TruncDiv(ts, spt) == -k && TruncDiv(ts, spt * 10) == -(k / 10);
    NegativeDigit(k);
    DigitsOf(-(k / 10), 0);
  }

  lemma NegativeDigit(k: int)
    requires k >= 0
    ensures TruncMod(-k, 10) == -(k % 10)
    ensures (-k) % 10 == 0 <==> k % 10 == 0
    ensures k % 10 == 0 ==> -k == 10 * -(k / 10)
  {
  }

  /** For timestamps of either sign: what a decoded number that is in range stands for. */
  lemma DecodeInRange(ts: int, spt: int)
    requires spt > 0
    ensures 0 <= Decode(ts, spt).frame < 1024
    ensures Valid(Decode(ts, spt)) <==> ts >= 0 || TruncDiv(ts, spt) % 10 == 0
    ensures Valid(Decode(ts, spt)) ==> Abs(Decode(ts, spt)) == Hyper(TruncDiv(ts, spt))
    ensures Valid(Decode(ts, spt)) && ts < 0 ==> Decode(ts, spt).tti == 0
  {
    hide Decode, Hyper;
    if ts >= 0 {
      DecodeAbs(ts, spt);
    } else {
      DecodeNegative(ts, spt);
    }
  }

  lemma SuccAbs(s: Sfn)
    requires Valid(s)
    ensures Valid(Succ(s)) && Abs(Succ(s)) == Hyper(Abs(s) + 1)
  {
    hide Hyper, And1023;
    WithinHyper(Abs(s));
    if s.tti == 9 {
      DigitsOf(s.frame + 1, 0);
    } else {
      WithinHyper(Abs(s) + 1);
    }
  }

  lemma SuccFromAbs(s: Sfn, t: Sfn)
    requires Valid(s) && Valid(t) && Abs(t) == Hyper(Abs(s) + 1)
    ensures t == Succ(s)
  {
    hide Hyper, Succ;
    SuccAbs(s);
    AbsInjective(t, Succ(s));
  }

  /** Moving a timestamp by whole subframes moves the decoded number by as many, modulo 10240. */
  lemma DecodeShift(ts: int, spt: int, k: int)
    requires spt > 0 && ts >= 0 && ts + k * spt >= 0
    ensures Valid(Decode(ts, spt)) && Valid(Decode(ts + k * spt, spt))
    ensures Abs(Decode(ts + k * spt, spt)) == Hyper(Abs(Decode(ts, spt)) + k)
  {
    hide Decode, Hyper;
    DecodeAbs(ts, spt);
    DecodeAbs(ts + k * spt, spt);
    DivShift(ts, spt, k);
    HyperSum(ts / spt, k);
  }

  /** Counting subframes and decoding the sample clock agree, across every wrap. */
  lemma DecodeSucc(ts: int, spt: int)
    requires spt > 0 && ts >= 0
    ensures Valid(Decode(ts, spt)) && Decode(ts + spt, spt) == Succ(Decode(ts, spt))
  {
    hide Decode, Hyper, Succ;
    DecodeShift(ts, spt, 1);
    SuccFromAbs(Decode(ts, spt), Decode(ts + 1 * spt, spt));
  }

  /** The look-ahead crosses no frame boundary, or a single one (modulo the 1024 frames). */
  predicate SingleCarry(tti: int, ahead: int) {
    And1023((tti + ahead) / 10) == if tti + ahead >= 10 then 1 else 0
  }

  lemma CarryDigits(s: Sfn, t: Sfn, q: int, r: int)
    requires Valid(s) && Valid(t) && 0 <= r < 10 && Abs(t) == Hyper(10 * (s.frame + q) + r)
    ensures t == Sfn(And1023(s.frame + q), r)
  {
    hide Hyper, And1023;
    DigitsOf(s.frame + q, r);
    AbsInjective(t, Sfn(And1023(s.frame + q), r));
  }

  lemma ModCancel(f: int, q: int, e: int)
    requires 0 <= f < 1024 && 0 <= e <= 1
    ensures And1023(f + q) == And1023(f + e) <==> And1023(q) == e
  {
  }

  lemma LookAheadValue(s: Sfn, ahead: nat)
    requires Valid(s)
    ensures LookAhead(s, ahead)
            == Sfn(And1023(s.frame + if s.tti + ahead >= 10 then 1 else 0), (s.tti + ahead) % 10)
  {
    hide And1023;
    Within1024(s.frame);
  }

  lemma LastDigit(a: int, f: int, x: int)
    requires a == 10 * f + x
    ensures a == 10 * (f + x / 10) + x % 10
  {
  }

  /** What the conditional wrap computes, against addition modulo 10240. */
  lemma LookAheadAbs(s: Sfn, t: Sfn, ahead: nat)
    requires Valid(s) && Valid(t) && Abs(t) == Hyper(Abs(s) + ahead)
    ensures LookAhead(s, ahead) == t <==> SingleCarry(s.tti, ahead)
  {
    hide Hyper, And1023, LookAhead;
    LookAheadValue(s, ahead);
    var x := s.tti + ahead;
    LastDigit(Abs(s) + ahead, s.frame, x);
    CarryDigits(s, t, x / 10, x % 10);
    ModCancel(s.frame, x / 10, if x >= 10 then 1 else 0);
  }

  /** Look-ahead by conditional wrap equals decoding the later timestamp, exactly when the
      look-ahead crosses no frame boundary or a single one (modulo the 1024 frames). */
  lemma LookAheadCommutes(ts: int, spt: int, ahead: nat)
    requires spt > 0 && ts >= 0
    ensures LookAhead(Decode(ts, spt), ahead) == Decode(ts + ahead * spt, spt)
            <==> SingleCarry(Decode(ts, spt).tti, ahead)
  {
    hide Decode, LookAhead, SingleCarry, Hyper;
    MulNonNegative(ahead, spt);
    DecodeShift(ts, spt, ahead);
    LookAheadAbs(Decode(ts, spt), Decode(ts + ahead * spt, spt), ahead);
  }

  lemma OneCarry(tti: int, ahead: int)
    requires 0 <= tti + ahead < 20
    ensures SingleCarry(tti, ahead)
  {
  }

  /** Every configured look-ahead up to ten subframes is safe. */
  lemma LookAheadUpToTen(ts: int, spt: int, ahead: nat)
    requires spt > 0 && ts >= 0 && ahead <= 10
    ensures LookAhead(Decode(ts, spt), ahead) == Decode(ts + ahead * spt, spt)
  {
    hide Decode, LookAhead, SingleCarry, Hyper;
    DecodeAbs(ts, spt);
    LookAheadCommutes(ts, spt, ahead);
    OneCarry(Decode(ts, spt).tti, ahead);
  }

  /** An eleven-subframe look-ahead from the last subframe of a frame crosses two boundaries, and the
      conditional wrap is a frame short. */
  lemma LookAheadOfEleven(spt: int)
    requires spt > 0
    ensures LookAhead(Decode(9 * spt, spt), 11) != Decode(20 * spt, spt)
  {
    hide Decode, LookAhead, Hyper;
    DivUnique(9 * spt, spt, 9, 0);
    DecodeAbs(9 * spt, spt);
    WithinHyper(9);
    LookAheadCommutes(9 * spt, spt, 11);
    assert 9 * spt + 11 * spt == 20 * spt;
  }

  // ----- the UE's fixed offset of four subframes -----

  /** UE_thread: transmit subframe four after the received one; the frame is not wrapped. */
  function UePlusFour(s: Sfn): Sfn {
    Sfn(s.frame + (if s.tti > 5 then 1 else 0), (s.tti + 4) % 10)
  }

  /** UE_phy_stub_standalone_pnf_task: receive subframe four before the transmitted one. */
  function UeMinusFour(s: Sfn): Sfn {
    Sfn(if s.tti < 4 then And1023(s.frame + 1023) else s.frame, if s.tti < 4 then s.tti + 6 else s.tti - 4)
  }

  function WrapFrame(s: Sfn): Sfn {
    s.(frame := And1023(s.frame))
  }

  /** The two UE formulas are mutually inverse modulo 10240. */
  lemma UeFourInverse(s: Sfn)
    requires Valid(s)
    ensures UeMinusFour(WrapFrame(UePlusFour(s))) == s
    ensures WrapFrame(UePlusFour(UeMinusFour(s))) == s
    ensures Abs(UePlusFour(s)) == Abs(s) + 4
  {
    hide And1023;
    Within1024(s.frame);
    Within1024(s.frame + 1);
    Within1024(s.frame + 1023);
    Within1024(And1023(s.frame + 1) + 1023);
    Within1024(And1023(s.frame + 1023) + 1);
  }
}
