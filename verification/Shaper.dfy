/** The time-bucket shaper: every call pushes a moment forward by what its bytes cost. */
module Shaper {

  const MICROSECOND := 1_000
  const MILLISECOND := 1_000_000

  /** The time a number of bytes costs, in nanoseconds, rounded down to microseconds. */
  function Need(kiBps: nat, length: nat): nat
    requires kiBps > 0
  {
    MICROSECOND * ((length * 1024) / kiBps)
  }

  function Burst(kiBps: nat, burstKiB: nat): nat
    requires kiBps > 0
  {
    MILLISECOND * ((burstKiB * 1024) / kiBps)
  }

  function Max(a: int, b: int): int {
    if a < b then b else a
  }

  class TimeBucket {
    var depth: int
    const burst: nat
    const kiBps: nat

    /** Both figures must be positive. */
    constructor (speedKiBps: nat, burstKiB: nat)
      requires speedKiBps > 0 && burstKiB > 0
      ensures depth == 0 && burst == Burst(speedKiBps, burstKiB) && kiBps == speedKiBps
    {
      depth, kiBps := 0, speedKiBps;
      burst := MILLISECOND * ((burstKiB * 1024) / speedKiBps);
    }

    /** `ended` says whether the context ends before the wait does; `until` is when an admitted call may go. */
    method Shape(now: int, length: nat, ended: bool) returns (admitted: bool, until: int)
      requires kiBps > 0
      modifies this`depth
      ensures depth == Max(old(depth), now - burst) + Need(kiBps, length)
      ensures admitted <==> now > depth || !ended
      ensures until == Max(now, depth)
    {
      if now - depth > burst {
        depth := now - burst;
      }
      var need := MICROSECOND * ((length * 1024) / kiBps);
      depth := depth + need;
      if now > depth {
        return true, now;
      }
      var wait := depth - now;
      return !ended, now + wait;
    }
  }

  // ---- runs -----------------------------------------------------------------------------

  /** A call: the clock on entry, its length, whether it was let through, and the clock when it returned. */
  datatype Call = Call(now: int, length: nat, admitted: bool, back: int)

  datatype Config = Config(kiBps: nat, burst: nat)

  /** The depth before the n-th call. */
  function Depth(c: Config, start: int, calls: seq<Call>, n: nat): int
    requires c.kiBps > 0 && n <= |calls|
  {
    if n == 0 then start
    else Max(Depth(c, start, calls, n - 1), calls[n - 1].now - c.burst) + Need(c.kiBps, calls[n - 1].length)
  }

  /** Calls take turns, and an admitted one does not return before the depth it set. */
  ghost predicate Run(c: Config, start: int, calls: seq<Call>) {
    && c.kiBps > 0
    && (forall i :: 0 <= i < |calls| ==> calls[i].now <= calls[i].back)
    && (forall i, j :: 0 <= i < j < |calls| ==> calls[i].back <= calls[j].now)
    && forall i :: 0 <= i < |calls| && calls[i].admitted ==> calls[i].back >= Depth(c, start, calls, i + 1)
  }

  /** The cost, and the bytes, of the calls i up to but not including j. */
  function Cost(c: Config, calls: seq<Call>, i: nat, j: nat): nat
    requires c.kiBps > 0 && i <= j <= |calls|
  {
    if i == j then 0 else Cost(c, calls, i, j - 1) + Need(c.kiBps, calls[j - 1].length)
  }

  function Bytes(calls: seq<Call>, i: nat, j: nat): nat
    requires i <= j <= |calls|
  {
    if i == j then 0 else Bytes(calls, i, j - 1) + calls[j - 1].length
  }

  /** The depth is at least every window's start, less the burst, plus the window's cost. */
  lemma {:induction false} DepthAtLeast(c: Config, start: int, calls: seq<Call>, i: nat, j: nat)
    requires c.kiBps > 0 && i < j <= |calls|
    ensures Depth(c, start, calls, j) >= calls[i].now - c.burst + Cost(c, calls, i, j)
  {
    if i < j - 1 {
      DepthAtLeast(c, start, calls, i, j - 1);
    } else {
      assert Cost(c, calls, i, i) == 0;
    }
  }

  lemma {:induction false} DepthFromStart(c: Config, start: int, calls: seq<Call>, j: nat)
    requires c.kiBps > 0 && j <= |calls|
    ensures Depth(c, start, calls, j) >= start + Cost(c, calls, 0, j)
  {
    if j > 0 { DepthFromStart(c, start, calls, j - 1); }
  }

  /** Any window of calls that ends in an admitted one costs no more than the time it takes plus the burst. */
  lemma WindowCost(c: Config, start: int, calls: seq<Call>, i: nat, j: nat)
    requires Run(c, start, calls) && i < j <= |calls| && calls[j - 1].admitted
    ensures Cost(c, calls, i, j) <= calls[j - 1].back - calls[i].now + c.burst
  {
    DepthAtLeast(c, start, calls, i, j);
  }

  lemma NeedCovers(k: nat, length: nat)
    requires k > 0
    ensures MICROSECOND * 1024 * length < k * (Need(k, length) + MICROSECOND)
  {
    var x := length * 1024;
    var q := x / k;
    assert x < k * (q + 1);
    assert k * (MICROSECOND * q + MICROSECOND) == MICROSECOND * (k * (q + 1));
  }

  lemma {:induction false} BytesCovered(c: Config, calls: seq<Call>, i: nat, j: nat)
    requires c.kiBps > 0 && i < j <= |calls|
    ensures MICROSECOND * 1024 * Bytes(calls, i, j) < c.kiBps * (Cost(c, calls, i, j) + MICROSECOND * (j - i))
  {
    var k, last := c.kiBps, calls[j - 1].length;
    NeedCovers(k, last);
    if i < j - 1 {
      BytesCovered(c, calls, i, j - 1);
      var a, b := Cost(c, calls, i, j - 1) + MICROSECOND * (j - 1 - i), Need(k, last) + MICROSECOND;
      assert k * (a + b) == k * a + k * b;
    } else {
      assert Cost(c, calls, i, i) == 0 && Bytes(calls, i, i) == 0;
    }
  }

  /** The rate bound: bytes let in over a window of n calls stay below kiBps * (elapsed + burst + n us),
      with a KiB per second being 1024 bytes per 10^6 us and rounding costing one us a call. */
  lemma RateBound(c: Config, start: int, calls: seq<Call>, i: nat, j: nat)
    requires Run(c, start, calls) && i < j <= |calls| && calls[j - 1].admitted
    ensures MICROSECOND * 1024 * Bytes(calls, i, j)
          < c.kiBps * (calls[j - 1].back - calls[i].now + c.burst + MICROSECOND * (j - i))
  {
    WindowCost(c, start, calls, i, j);
    BytesCovered(c, calls, i, j);
    Wider(c.kiBps, Cost(c, calls, i, j) + MICROSECOND * (j - i),
          calls[j - 1].back - calls[i].now + c.burst + MICROSECOND * (j - i));
  }

  /** The same in the figures the shaper is made with: the burst adds at most a thousand bytes for each of
      the caller's KiB. */
  lemma RateBoundInKiB(c: Config, burstKiB: nat, start: int, calls: seq<Call>, i: nat, j: nat)
    requires Run(c, start, calls) && i < j <= |calls| && calls[j - 1].admitted
    requires c.burst == Burst(c.kiBps, burstKiB)
    ensures MICROSECOND * 1024 * (Bytes(calls, i, j) - 1000 * burstKiB)
          < c.kiBps * (calls[j - 1].back - calls[i].now + MICROSECOND * (j - i))
  {
    RateBound(c, start, calls, i, j);
    BurstCovered(c.kiBps, burstKiB);
    Apart(c.kiBps, calls[j - 1].back - calls[i].now + MICROSECOND * (j - i), c.burst);
  }

  lemma BurstCovered(kiBps: nat, burstKiB: nat)
    requires kiBps > 0
    ensures kiBps * Burst(kiBps, burstKiB) <= MILLISECOND * 1024 * burstKiB
  {
    var q := (burstKiB * 1024) / kiBps;
    assert kiBps * q <= burstKiB * 1024;
    assert kiBps * (MILLISECOND * q) == MILLISECOND * (kiBps * q);
  }

  lemma Apart(k: nat, a: int, b: int)
    ensures k * (a + b) == k * a + k * b
  {
  }

  lemma Wider(k: nat, a: int, b: int)
    requires a <= b
    ensures k * a <= k * b
  {
  }

  // ---- the reference: which calls go at once -----------------------------------------------

  /** The window from i to the call j - 1 fits: it costs less than the time since i plus the burst. */
  predicate Fits(c: Config, calls: seq<Call>, i: nat, j: nat)
    requires c.kiBps > 0 && i < j <= |calls|
  {
    Cost(c, calls, i, j) < calls[j - 1].now - calls[i].now + c.burst
  }

  /** The depth is one of its lower bounds: the start's, or that of some window. */
  lemma {:induction false} DepthIsOne(c: Config, start: int, calls: seq<Call>, j: nat) returns (i: nat)
    requires c.kiBps > 0 && j <= |calls|
    ensures i <= j
    ensures i == j ==> Depth(c, start, calls, j) == start + Cost(c, calls, 0, j)
    ensures i < j ==> Depth(c, start, calls, j) == calls[i].now - c.burst + Cost(c, calls, i, j)
  {
    i := j;
    if j > 0 {
      var h := DepthIsOne(c, start, calls, j - 1);
      if calls[j - 1].now - c.burst > Depth(c, start, calls, j - 1) {
        i := j - 1;
        assert Cost(c, calls, j - 1, j - 1) == 0;
      } else if h < j - 1 {
        i := h;
      }
    }
  }

  /** A call goes without waiting exactly when every window that ends with it fits, the one since the
      bucket's start included: the depth is a faithful summary of the whole past. */
  lemma AtOnceIff(c: Config, start: int, calls: seq<Call>, j: nat)
    requires c.kiBps > 0 && 0 < j <= |calls|
    ensures calls[j - 1].now > Depth(c, start, calls, j) <==>
      && start + Cost(c, calls, 0, j) < calls[j - 1].now
      && forall i :: 0 <= i < j ==> Fits(c, calls, i, j)
  {
    DepthFromStart(c, start, calls, j);
    forall i | 0 <= i < j ensures Depth(c, start, calls, j) >= calls[i].now - c.burst + Cost(c, calls, i, j) {
      DepthAtLeast(c, start, calls, i, j);
    }
    var w := DepthIsOne(c, start, calls, j);
    if w < j && Fits(c, calls, w, j) {
      assert calls[j - 1].now > Depth(c, start, calls, j);
    }
  }

  // ---- the same in bytes ----------------------------------------------------------------------

  /** A call is charged no more than its bytes take at the full speed, and less than a microsecond less. */
  lemma NeedWithin(k: nat, length: nat)
    requires k > 0
    ensures k * Need(k, length) <= MICROSECOND * 1024 * length
  {
    var q := (length * 1024) / k;
    assert k * q <= length * 1024;
    assert k * (MICROSECOND * q) == MICROSECOND * (k * q);
  }

  lemma {:induction false} CostWithin(c: Config, calls: seq<Call>, i: nat, j: nat)
    requires c.kiBps > 0 && i <= j <= |calls|
    ensures c.kiBps * Cost(c, calls, i, j) <= MICROSECOND * 1024 * Bytes(calls, i, j)
  {
    if i < j {
      CostWithin(c, calls, i, j - 1);
      NeedWithin(c.kiBps, calls[j - 1].length);
      Apart(c.kiBps, Cost(c, calls, i, j - 1), Need(c.kiBps, calls[j - 1].length));
    }
  }

  lemma Below(k: nat, a: int, b: int)
    requires k > 0 && k * a < k * b
    ensures a < b
  {
    if a >= b { Wider(k, b, a); }
  }

  /** A call goes at once if every window that ends with it, and all since the start, carry fewer bytes than the
      speed allows in the time of the window and the burst. */
  lemma GoesAtOnce(c: Config, start: int, calls: seq<Call>, j: nat)
    requires c.kiBps > 0 && 0 < j <= |calls|
    requires 1_024_000 * Bytes(calls, 0, j) < c.kiBps * (calls[j - 1].now - start)
    requires forall i :: 0 <= i < j ==>
               1_024_000 * Bytes(calls, i, j) < c.kiBps * (calls[j - 1].now - calls[i].now + c.burst)
    ensures calls[j - 1].now > Depth(c, start, calls, j)
  {
    CostWithin(c, calls, 0, j);
    Below(c.kiBps, Cost(c, calls, 0, j), calls[j - 1].now - start);
    forall i | 0 <= i < j ensures Fits(c, calls, i, j) {
      CostWithin(c, calls, i, j);
      Below(c.kiBps, Cost(c, calls, i, j), calls[j - 1].now - calls[i].now + c.burst);
    }
    AtOnceIff(c, start, calls, j);
  }

  /** And it waits if some window carries more than that and a microsecond for each of its calls. */
  lemma MustWait(c: Config, start: int, calls: seq<Call>, i: nat, j: nat)
    requires c.kiBps > 0 && i < j <= |calls|
    requires 1_024_000 * Bytes(calls, i, j)
          >= c.kiBps * (calls[j - 1].now - calls[i].now + c.burst + 1_000 * (j - i))
    ensures calls[j - 1].now <= Depth(c, start, calls, j)
  {
    BytesCovered(c, calls, i, j);
    Below(c.kiBps, calls[j - 1].now - calls[i].now + c.burst + MICROSECOND * (j - i),
          Cost(c, calls, i, j) + MICROSECOND * (j - i));
    DepthAtLeast(c, start, calls, i, j);
  }

  /** The burst is what the caller's KiB take at that speed, to the millisecond. */
  lemma BurstExact(kiBps: nat, burstKiB: nat)
    requires kiBps > 0
    ensures kiBps * Burst(kiBps, burstKiB) <= 1_024_000_000 * burstKiB
          < kiBps * (Burst(kiBps, burstKiB) + 1_000_000)
  {
    BurstCovered(kiBps, burstKiB);
    var x := burstKiB * 1024;
    var q := x / kiBps;
    assert x < kiBps * (q + 1);
    assert kiBps * (MILLISECOND * q + MILLISECOND) == MILLISECOND * (kiBps * (q + 1));
  }
}
