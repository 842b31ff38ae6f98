/**
 * The internal millisecond timer of the UE in stub mode (timer_thread of executables/lte-ue.c).
 * Tick k publishes a frame and subframe, reads the clock, and sleeps towards the absolute
 * deadline of subframe k, so that late ticks are not paid for by later ones.
 */
module SubframeTimer {
  import opened SubframeTime

  const MS: int := 1000000

  /** The timer before its next tick; `count` ticks have been made since time `origin`. */
  datatype Timer = Timer(now: Sfn, count: nat, origin: int)

  function Start(origin: int): Timer {
    Timer(Sfn(1023, 9), 0, origin)
  }

  function Deadline(origin: int, k: nat): int {
    origin + k * MS
  }

  /** The sleep asked for at tick k when the clock shows `clock`. */
  function Sleep(origin: int, k: nat, clock: int): (r: int)
    ensures r >= 0
    ensures clock + r >= Deadline(origin, k)
  {
    if clock > Deadline(origin, k) then 0 else Deadline(origin, k) - clock
  }

  function Tick(t: Timer): Timer {
    Timer(Succ(t.now), t.count + 1, t.origin)
  }

  function Ticks(origin: int, k: nat): Timer {
    if k == 0 then Start(origin) else Tick(Ticks(origin, k - 1))
  }

  /** Tick k publishes absolute subframe (k-1) modulo 10240, for any number of wraps. */
  lemma {:induction false} PublishedSubframe(origin: int, k: nat)
    requires k > 0
    ensures var t := Ticks(origin, k);
      Valid(t.now) && Abs(t.now) == Hyper(k - 1) && t.count == k && t.origin == origin
  {
    if k == 1 {
      assert Ticks(origin, 1) == Tick(Ticks(origin, 0));
    } else {
      PublishedSubframe(origin, k - 1);
      SuccAbs(Ticks(origin, k - 1).now);
      NextHyper(k - 2);
      hide Succ, Hyper, Abs;
    }
  }

  lemma NextHyper(k: nat)
    ensures Hyper(Hyper(k) + 1) == Hyper(k + 1)
  {
  }

  /**
   * A run against the environment: tick k (from 1) reads the clock as clocks[k-1], sleeps, and
   * the next reading is no earlier than the end of a sleep that may last longer than requested.
   */
  ghost predicate Realistic(origin: int, clocks: seq<int>) {
    && (clocks != [] ==> clocks[0] >= origin)
    && forall k | 0 < k < |clocks| ::
         clocks[k] >= clocks[k - 1] + Sleep(origin, k, clocks[k - 1])
  }

  /**
   * Tick k+1 never starts before the origin plus k milliseconds, however late the ticks before
   * it were, and no sleep is longer than one millisecond.
   */
  lemma NeverEarly(origin: int, clocks: seq<int>, k: nat)
    requires Realistic(origin, clocks) && k < |clocks|
    ensures clocks[k] >= Deadline(origin, k) == origin + 1000000 * k
    ensures 0 <= Sleep(origin, k + 1, clocks[k]) <= 1000000
  {
    if k > 0 {
      assert clocks[k] >= clocks[k - 1] + Sleep(origin, k, clocks[k - 1]);
    }
  }

  /** Every tick reads the clock at most `jitter` after the sleep before it should have ended. */
  ghost predicate Prompt(origin: int, clocks: seq<int>, jitter: int) {
    && (clocks != [] ==> clocks[0] <= origin + jitter)
    && forall k | 0 < k < |clocks| ::
         clocks[k] <= clocks[k - 1] + Sleep(origin, k, clocks[k - 1]) + jitter
  }

  /** What a jitter above one millisecond adds to the lateness at every tick. */
  function Excess(jitter: int): (r: int)
    ensures r >= 0
  {
    if jitter > MS then jitter - MS else 0
  }

  /** Drift-free: lateness does not accumulate. However many ticks there were, each starts within the
      jitter of its absolute deadline, as long as the jitter is at most a millisecond; a larger one adds
      up only by its excess over a millisecond. */
  lemma {:induction false} LatenessDoesNotAccumulate(origin: int, clocks: seq<int>, jitter: int, k: nat)
    requires Realistic(origin, clocks) && Prompt(origin, clocks, jitter) && jitter >= 0 && k < |clocks|
    ensures Deadline(origin, k) <= clocks[k] <= Deadline(origin, k) + jitter + k * Excess(jitter)
  {
    NeverEarly(origin, clocks, k);
    if k > 0 {
      LatenessDoesNotAccumulate(origin, clocks, jitter, k - 1);
      assert clocks[k] <= clocks[k - 1] + Sleep(origin, k, clocks[k - 1]) + jitter;
      OneMore(k, Excess(jitter));
      hide Realistic, Prompt;
    }
  }

  lemma OneMore(k: int, x: int)
    ensures k * x == (k - 1) * x + x
  {
  }

  /** The bound is met: with a jitter of at least a millisecond the timer can be that late at every tick. */
  lemma LatenessReached(origin: int, jitter: int, n: nat) returns (clocks: seq<int>)
    requires jitter >= MS
    ensures |clocks| == n && Realistic(origin, clocks) && Prompt(origin, clocks, jitter)
    ensures forall k: nat | k < n :: clocks[k] == Deadline(origin, k) + jitter + k * Excess(jitter)
  {
    clocks := seq(n, k => origin + (k + 1) * jitter);
    forall k: nat | k < n ensures clocks[k] == Deadline(origin, k) + jitter + k * Excess(jitter) {
      Spread(k, jitter);
    }
    forall k | 0 < k < n ensures clocks[k] == clocks[k - 1] + jitter && Sleep(origin, k, clocks[k - 1]) == 0 {
      OneMore(k + 1, jitter);
      AtLeast(k, jitter);
    }
  }

  lemma Spread(k: nat, jitter: int)
    requires jitter >= MS
    ensures (k + 1) * jitter == k * MS + jitter + k * Excess(jitter)
  {
  }

  lemma AtLeast(k: nat, jitter: int)
    requires jitter >= MS
    ensures k * jitter >= k * MS
  {
    assert k * (jitter - MS) >= 0;
  }

  class TimerThread {
    var frame: int
    var subframe: int
    var count: nat
    const origin: int

    constructor (origin: int)
      ensures State() == Start(origin)
    {
      frame, subframe, count := 1023, 9, 0;
      this.origin := origin;
    }

    ghost function State(): Timer
      reads this
    {
      Timer(Sfn(frame, subframe), count, origin)
    }

    /** One round of the loop: returns what is published and the sleep asked for. */
    method Round(clock: int) returns (published: Sfn, sleep: int)
      modifies this
      ensures State() == Tick(old(State()))
      ensures published == State().now
      ensures sleep == Sleep(origin, count, clock)
    {
      if subframe == 9 {
        subframe := 0;
        frame := And1023(frame + 1);
      } else {
        subframe := subframe + 1;
      }
      published := Sfn(frame, subframe);
      count := count + 1;
      var next := origin + count * MS;
      if clock > next {
        sleep := 0;
      } else {
        sleep := next - clock;
      }
    }

    /** The thread over a whole run of clock readings. */
    method Thread(clocks: seq<int>) returns (published: seq<Sfn>, sleeps: seq<int>)
      requires State() == Start(origin)
      requires Realistic(origin, clocks)
      modifies this
      ensures |published| == |sleeps| == |clocks|
      ensures forall k: nat | k < |clocks| :: Abs(published[k]) == Hyper(k)
      ensures forall k: nat | k < |clocks| :: 0 <= sleeps[k] <= 1000000
      ensures forall k: nat | k < |clocks| :: clocks[k] + sleeps[k] >= origin + 1000000 * (k + 1)
    {
      published, sleeps := [], [];
      while |published| < |clocks|
        invariant |published| == |sleeps| <= |clocks|
        invariant State() == Ticks(origin, |published|)
        invariant forall k: nat | k < |published| :: Abs(published[k]) == Hyper(k)
        invariant forall k: nat | k < |published| ::
          0 <= sleeps[k] <= MS && clocks[k] + sleeps[k] >= Deadline(origin, k + 1)
      {
        var k := |published|;
        PublishedSubframe(origin, k + 1);
        NeverEarly(origin, clocks, k);
        assert Ticks(origin, k + 1) == Tick(Ticks(origin, k));
        hide Ticks, Hyper, Abs, Tick;
        var sfn, sleep := Round(clocks[k]);
        published, sleeps := published + [sfn], sleeps + [sleep];
      }
    }
  }
}
