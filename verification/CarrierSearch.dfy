/** The carrier offset search of the UE's synchronisation thread (executables/lte-ue.c). */
module CarrierSearch {
  const STEP: int := 100
  const LIMIT: int := 7500

  datatype Search = Trying(offset: int) | Abandoned

  /** What a failed synchronisation does to the offset in scan mode. */
  function Failed(s: Search): Search {
    match s
    case Abandoned => Abandoned
    case Trying(f) =>
      var next := -(if f >= 0 then f + STEP else f);
      if next > LIMIT || next < -LIMIT then Abandoned else Trying(next)
  }

  /** The search after m failures in a row, from offset 0. */
  function After(m: nat): Search {
    if m == 0 then Trying(0) else Failed(After(m - 1))
  }

  /** The offset of attempt m if the search were never abandoned. */
  function OffsetOf(m: nat): int {
    if m % 2 == 0 then STEP * (m / 2) else -STEP * (m / 2 + 1)
  }

  /** The attempt that tries a given offset. */
  function AttemptFor(f: int): int {
    if f >= 0 then 2 * (f / STEP) else 2 * (-f / STEP) - 1
  }

  predicate InRange(f: int) {
    f % STEP == 0 && -LIMIT <= f <= LIMIT
  }

  /** The search alternates outwards and gives up at exactly the 151st failure. */
  lemma {:induction false} SearchOrder(m: nat)
    ensures After(m) == if m <= 150 then Trying(OffsetOf(m)) else Abandoned
  {
    if m > 0 {
      SearchOrder(m - 1);
      if m <= 151 {
        NextOffset(m - 1);
      }
    }
  }

  /** The same in Hz: 0, -100, 100, -200, ... up to 7500. */
  lemma OffsetsInHertz(m: nat)
    ensures After(m) == if m > 150 then Abandoned else Trying(if m % 2 == 0 then 50 * m else -50 * (m + 1))
  {
    SearchOrder(m);
    hide After;
  }

  /** An offset is tried by some attempt exactly if it is a multiple of 100 Hz of at most 7500 Hz. */
  lemma RangeInHertz(f: int)
    ensures (exists m: nat :: After(m) == Trying(f)) <==> f % 100 == 0 && -7500 <= f <= 7500
  {
    if InRange(f) {
      EveryOffsetOnce(f, 0);
      EveryOffsetOnce(f, AttemptFor(f));
    }
    if m: nat :| After(m) == Trying(f) {
      EveryOffsetOnce(f, m);
    }
    hide After, AttemptFor;
  }

  lemma NextOffset(m: nat)
    requires m <= 150
    ensures Failed(Trying(OffsetOf(m))) == if m < 150 then Trying(OffsetOf(m + 1)) else Abandoned
  {
    if m % 2 == 0 {
      assert m / 2 == (m + 1) / 2;
    } else {
      assert (m + 1) / 2 == m / 2 + 1;
    }
  }

  /**
   * Every multiple of 100 Hz within 7500 Hz of the carrier is tried, exactly once, and nothing
   * else is.
   */
  lemma EveryOffsetOnce(f: int, m: nat)
    ensures After(m) == Trying(f) <==> InRange(f) && m == AttemptFor(f)
    ensures InRange(f) ==> 0 <= AttemptFor(f) <= 150
  {
    SearchOrder(m);
    hide After;
    if m <= 150 {
      AttemptOfOffset(m);
    }
    if InRange(f) {
      OffsetOfAttempt(f);
    }
    hide OffsetOf, AttemptFor, InRange;
  }

  lemma AttemptOfOffset(m: nat)
    requires m <= 150
    ensures InRange(OffsetOf(m)) && AttemptFor(OffsetOf(m)) == m
  {
    if m % 2 == 0 {
      assert STEP * (m / 2) / STEP == m / 2;
    } else {
      assert STEP * (m / 2 + 1) / STEP == m / 2 + 1;
    }
  }

  lemma OffsetOfAttempt(f: int)
    requires InRange(f)
    ensures 0 <= AttemptFor(f) <= 150 && OffsetOf(AttemptFor(f)) == f
  {
    var k := f / STEP;
    assert f == STEP * k;
    if f >= 0 {
      assert 2 * k / 2 == k;
    } else {
      assert -f / STEP == -k;
      assert (2 * (-k) - 1) / 2 == -k - 1;
    }
  }

  /** The synchronisation thread's own offset variable. */
  class Synch {
    var freqOffset: int

    constructor ()
      ensures freqOffset == 0
    {
      freqOffset := 0;
    }

    /** One failed attempt; without scan mode the same offset is simply tried again. */
    method InitialSyncFailed(scan: bool) returns (abandon: bool)
      modifies this
      ensures !scan ==> !abandon && freqOffset == old(freqOffset)
      ensures scan ==> (abandon <==> Failed(Trying(old(freqOffset))) == Abandoned)
      ensures scan ==> (abandon <==> freqOffset > 7500 || freqOffset < -7500)
      ensures scan && !abandon ==> Trying(freqOffset) == Failed(Trying(old(freqOffset)))
    {
      abandon := false;
      if scan {
        if freqOffset >= 0 {
          freqOffset := freqOffset + STEP;
        }
        freqOffset := freqOffset * -1;
        abandon := freqOffset > LIMIT || freqOffset < -LIMIT;
      }
    }

    /** The search in scan mode, whatever the attempts answer: `answers(m, f)` says whether attempt m,
        made at offset f, synchronises. */
    method Search(answers: (nat, int) -> bool) returns (found: bool, failures: nat)
      requires freqOffset == 0
      modifies this
      ensures found <==> exists m: nat | m <= 150 :: Answers(answers, m)
      ensures found ==> failures <= 150 && freqOffset == OffsetOf(failures) && Answers(answers, failures)
      ensures found ==> forall m: nat | m < failures :: !Answers(answers, m)
      ensures !found ==> failures == 151
    {
      failures := 0;
      assert OffsetOf(0) == 0;
      hide OffsetOf, Failed, Answers;
      while !answers(failures, freqOffset)
        invariant failures <= 150 && freqOffset == OffsetOf(failures)
        invariant forall m: nat | m < failures :: !Answers(answers, m)
        decreases 150 - failures
      {
        AnswersMeans(answers, failures);
        NextOffset(failures);
        var abandon := InitialSyncFailed(true);
        failures := failures + 1;
        if abandon {
          return false, failures;
        }
      }
      AnswersMeans(answers, failures);
      return true, failures;
    }
  }

  /** Attempt m, at the offset the search order gives it, synchronises. */
  predicate Answers(answers: (nat, int) -> bool, m: nat) {
    answers(m, OffsetOf(m))
  }

  lemma AnswersMeans(answers: (nat, int) -> bool, m: nat)
    ensures Answers(answers, m) <==> answers(m, OffsetOf(m))
  {
  }

  /** So Search finds a cell that answers exactly at its own offset if and only if that is in range, and
      then after the failures that come before it. */
  lemma CellInRange(cell: int)
    ensures
      var answers := (m: nat, f: int) => f == cell;
      && ((exists m: nat | m <= 150 :: Answers(answers, m)) <==> InRange(cell))
      && forall m: nat | m <= 150 && Answers(answers, m) :: m == AttemptFor(cell)
  {
    var answers := (m: nat, f: int) => f == cell;
    if InRange(cell) {
      OffsetOfAttempt(cell);
      assert Answers(answers, AttemptFor(cell));
    }
    forall m: nat | m <= 150 && Answers(answers, m) ensures InRange(cell) && m == AttemptFor(cell) {
      AttemptOfOffset(m);
    }
  }
}
