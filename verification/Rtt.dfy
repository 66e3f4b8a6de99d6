/** The round-trip-time estimator of the reliable datagram client, in exact reals. */
module Rtt {
  const RTT_RXTMIN: real := 2.0
  const RTT_RXTMAX: real := 60.0
  const RTT_MAXNREXMT: int := 3

  /** The estimate of the retransmission timeout, before it is clamped. */
  function RtoCalc(srtt: real, rttvar: real): real { srtt + 4.0 * rttvar }

  function MinMax(rto: real): (r: real)
    ensures RTT_RXTMIN <= r <= RTT_RXTMAX
    ensures RTT_RXTMIN <= rto <= RTT_RXTMAX ==> r == rto
    ensures (rto < 2.0 ==> r == 2.0) && (rto > 60.0 ==> r == 60.0)
  {
    if rto < RTT_RXTMIN then RTT_RXTMIN else if rto > RTT_RXTMAX then RTT_RXTMAX else rto
  }

  function Abs(x: real): real { if x < 0.0 then -x else x }

  /** Smoothed round-trip time and mean deviation, in seconds. */
  datatype Estimate = Estimate(srtt: real, rttvar: real)

  const INITIAL := Estimate(0.0, 0.75)

  /** Jacobson's update: gain 1/8 for the mean, 1/4 for the deviation. */
  function Update(e: Estimate, sample: real): Estimate
  {
    var delta := sample - e.srtt;
    Estimate(e.srtt + delta / 8.0, e.rttvar + (Abs(delta) - e.rttvar) / 4.0)
  }

  /** Rounds a timeout to whole seconds for alarm. */
  function WholeSeconds(rto: real): (seconds: int)
    ensures seconds as real - 0.5 <= rto < seconds as real + 0.5
  {
    (rto + 0.5).Floor
  }

  class RttInfo {
    var rtt: real
    var srtt: real
    var rttvar: real
    var rto: real
    var nrexmt: int
    var base: nat

    function Current(): Estimate
      reads this
    {
      Estimate(srtt, rttvar)
    }

    constructor ()
    {
      rtt, srtt, rttvar, rto, nrexmt, base := 0.0, 0.0, 0.0, 0.0, 0, 0;
    }

    /** rtt_init at `sec` seconds since 1970; the first timeout is 3 seconds. */
    method Init(sec: nat)
      modifies this
      ensures base == sec % 0x1_0000_0000 && rtt == 0.0 && nrexmt == old(nrexmt)
      ensures Current() == INITIAL && rto == 3.0
    {
      base := sec % 0x1_0000_0000;
      rtt := 0.0;
      srtt := 0.0;
      rttvar := 0.75;
      rto := MinMax(RtoCalc(srtt, rttvar));
    }

    method NewPack()
      modifies `nrexmt
      ensures nrexmt == 0
    {
      nrexmt := 0;
    }

    method Start() returns (seconds: int)
      ensures seconds == WholeSeconds(rto)
    {
      seconds := (rto + 0.5).Floor;
    }

    /** rtt_stop, with the measured time in milliseconds. */
    method Stop(ms: nat)
      modifies this
      ensures rtt == ms as real / 1000.0 && Current() == Update(old(Current()), rtt)
      ensures rto == MinMax(RtoCalc(srtt, rttvar))
      ensures nrexmt == old(nrexmt) && base == old(base)
    {
      rtt := ms as real / 1000.0;
      var delta := rtt - srtt;
      srtt := srtt + delta / 8.0;
      if delta < 0.0 {
        delta := -delta;
      }
      rttvar := rttvar + (delta - rttvar) / 4.0;
      rto := MinMax(RtoCalc(srtt, rttvar));
    }

    /** rtt_timeout: doubles the timeout, without clamping it, and tells whether to give up. */
    method Timeout() returns (giveUp: bool)
      modifies `rto, `nrexmt
      ensures rto == 2.0 * old(rto) && nrexmt == old(nrexmt) + 1
      ensures giveUp <==> nrexmt > RTT_MAXNREXMT
    {
      rto := rto * 2.0;
      nrexmt := nrexmt + 1;
      giveUp := nrexmt > RTT_MAXNREXMT;
    }
  }

  // ----- every run of samples

  /** The estimate after a run of samples. */
  function After(samples: seq<real>): Estimate
  {
    if samples == [] then INITIAL
    else Update(After(samples[..|samples| - 1]), samples[|samples| - 1])
  }

  /** Whatever the samples, the mean stays within their range and the deviation is positive and never exceeds
      the larger of that range and its first value. */
  lemma {:induction false} EstimateStaysInRange(samples: seq<real>, max: real)
    requires forall k :: 0 <= k < |samples| ==> 0.0 <= samples[k] <= max
    requires max >= 0.0
    ensures var e := After(samples);
            0.0 <= e.srtt <= max && 0.0 < e.rttvar && (e.rttvar <= max || e.rttvar <= 0.75)
  {
    if samples != [] {
      EstimateStaysInRange(samples[..|samples| - 1], max);
    }
  }

  function Repeat(r: real, n: nat): (s: seq<real>)
    ensures |s| == n
  {
    seq(n, _ => r)
  }

  function Pow(q: real, n: nat): real
  {
    if n == 0 then 1.0 else q * Pow(q, n - 1)
  }

  lemma {:induction false} PowPositive(q: real, n: nat)
    requires q > 0.0
    ensures Pow(q, n) > 0.0
  {
    if n > 0 {
      PowPositive(q, n - 1);
    }
  }

  /** The first `k` of `xs`, each weighted by a power of `q`: the last of `xs` by 1, the one before it by `q`. */
  function Weighted(xs: seq<real>, q: real, k: nat): real
    requires k <= |xs|
  {
    if k == 0 then 0.0 else Weighted(xs, q, k - 1) + Pow(q, |xs| - k) * xs[k - 1]
  }

  lemma {:induction false} WeightedInit(xs: seq<real>, q: real, k: nat)
    requires k < |xs|
    ensures Weighted(xs, q, k) == q * Weighted(xs[..|xs| - 1], q, k)
  {
    if k > 0 {
      var init := xs[..|xs| - 1];
      WeightedInit(xs, q, k - 1);
      assert Pow(q, |xs| - k) == q * Pow(q, |init| - k) && xs[k - 1] == init[k - 1];
      hide Weighted, Pow;
      Distribute(q, Weighted(init, q, k - 1), Pow(q, |init| - k), init[k - 1]);
      WeightedLast(init, q, k);
      WeightedLast(xs, q, k);
    }
  }

  lemma WeightedLast(xs: seq<real>, q: real, k: nat)
    requires 0 < k <= |xs|
    ensures Weighted(xs, q, k) == Weighted(xs, q, k - 1) + Pow(q, |xs| - k) * xs[k - 1]
  {
  }

  lemma Distribute(q: real, a: real, b: real, c: real)
    ensures q * (a + b * c) == q * a + q * b * c
  {
  }

  lemma WeightedSnoc(xs: seq<real>, q: real)
    requires xs != []
    ensures var init := xs[..|xs| - 1];
            Weighted(xs, q, |xs|) == q * Weighted(init, q, |init|) + xs[|xs| - 1]
  {
    var n := |xs| - 1;
    WeightedInit(xs, q, n);
    WeightedLast(xs, q, n + 1);
    assert Pow(q, 0) == 1.0;
    hide Weighted;
  }

  /** The mean after any samples: an eighth of each, fading by an eighth with every sample after it. */
  lemma {:induction false} MeanOfSamples(samples: seq<real>)
    ensures After(samples).srtt == Weighted(samples, 0.875, |samples|) / 8.0
  {
    if samples != [] {
      var init := samples[..|samples| - 1];
      MeanOfSamples(init);
      WeightedSnoc(samples, 0.875);
      hide Weighted;
    }
  }

  /** How far each sample was from the mean before it. */
  ghost predicate Distances(samples: seq<real>, ds: seq<real>)
  {
    && |ds| == |samples|
    && forall k :: 0 <= k < |samples| ==>
         var mean := After(samples[..k]).srtt;
         ds[k] == if samples[k] >= mean then samples[k] - mean else mean - samples[k]
  }

  /** The deviation after any samples: a quarter of each distance, fading by a quarter, and what is left of the first
      0.75. */
  lemma {:induction false} DeviationOfSamples(samples: seq<real>, ds: seq<real>)
    requires Distances(samples, ds)
    ensures After(samples).rttvar == 0.75 * Pow(0.75, |samples|) + Weighted(ds, 0.75, |ds|) / 4.0
  {
    if samples == [] {
      assert Pow(0.75, 0) == 1.0 && Weighted(ds, 0.75, 0) == 0.0;
    } else {
      var n := |samples| - 1;
      FewerDistances(samples, ds);
      DeviationOfSamples(samples[..n], ds[..n]);
      WeightedSnoc(ds, 0.75);
      hide Weighted;
    }
  }

  lemma FewerDistances(samples: seq<real>, ds: seq<real>)
    requires Distances(samples, ds) && samples != []
    ensures Distances(samples[..|samples| - 1], ds[..|ds| - 1])
  {
    var n := |samples| - 1;
    assert forall k :: 0 <= k < n ==> samples[..n][..k] == samples[..k];
    hide After;
  }

  lemma AfterRepeat(r: real, n: nat)
    requires n > 0
    ensures After(Repeat(r, n)) == Update(After(Repeat(r, n - 1)), r)
    ensures Pow(0.75, n) == 0.75 * Pow(0.75, n - 1) && Pow(0.875, n) == 0.875 * Pow(0.875, n - 1)
  {
    assert Repeat(r, n)[..n - 1] == Repeat(r, n - 1);
    hide Update;
  }

  lemma AfterNone(r: real)
    ensures After(Repeat(r, 0)) == Estimate(0.0, 0.75) && Pow(0.75, 0) == 1.0 && Pow(0.875, 0) == 1.0
  {
  }

  /** `n` equal samples: the mean closes in on them by an eighth of the distance each time. */
  lemma {:induction false} EqualSamples(r: real, n: nat)
    requires r >= 0.0
    ensures var p, q := Pow(0.75, n), Pow(0.875, n);
            After(Repeat(r, n)) == Estimate(r - r * q, 0.75 * p + 2.0 * (r * q) - 2.0 * (r * p))
  {
    hide *;
    if n == 0 {
      AfterNone(r);
      assert r * 1.0 == r;
    } else {
      EqualSamples(r, n - 1);
      AfterRepeat(r, n);
      var p, q := Pow(0.75, n - 1), Pow(0.875, n - 1);
      PowPositive(0.875, n - 1);
      Product(r, q);
      Scaled(r, 0.75, p);
      Scaled(r, 0.875, q);
      EqualSample(r, r * q, r * p, p);
      var p', q' := Pow(0.75, n), Pow(0.875, n);
      assert After(Repeat(r, n - 1)) == Estimate(r - r * q, 0.75 * p + 2.0 * (r * q) - 2.0 * (r * p));
      assert r - r * q' == r - 0.875 * (r * q);
      assert 0.75 * p' + 2.0 * (r * q') - 2.0 * (r * p') ==
        0.75 * (0.75 * p) + 2.0 * (0.875 * (r * q)) - 2.0 * (0.75 * (r * p));
    }
  }

  lemma EqualSample(r: real, a: real, b: real, p: real)
    requires a >= 0.0
    ensures Update(Estimate(r - a, 0.75 * p + 2.0 * a - 2.0 * b), r) ==
            Estimate(r - 0.875 * a, 0.75 * (0.75 * p) + 2.0 * (0.875 * a) - 2.0 * (0.75 * b))
  {
  }

  lemma Product(r: real, q: real)
    requires r >= 0.0 && q > 0.0
    ensures r * q >= 0.0
  {
  }

  lemma Scaled(r: real, c: real, p: real)
    ensures r * (c * p) == c * (r * p)
  {
  }

  /** The unclamped timeout after `n` equal samples. */
  lemma EqualSamplesRto(r: real, n: nat)
    requires r >= 0.0
    ensures var e := After(Repeat(r, n));
            RtoCalc(e.srtt, e.rttvar) == r + 7.0 * (r * Pow(0.875, n)) + 3.0 * Pow(0.75, n) - 8.0 * (r * Pow(0.75, n))
  {
    EqualSamples(r, n);
  }

  /** 7 (7/8)^n is at least 8 (3/4)^n from the first sample on. */
  lemma {:induction false} SlowerDecay(n: nat)
    requires n >= 1
    ensures 7.0 * Pow(0.875, n) > 8.0 * Pow(0.75, n)
  {
    if n == 1 {
      assert Pow(0.875, 0) == Pow(0.75, 0) == 1.0;
      assert Pow(0.875, 1) == 0.875 && Pow(0.75, 1) == 0.75;
    } else {
      SlowerDecay(n - 1);
      PowPositive(0.875, n - 1);
    }
  }

  /** With a constant round-trip time the unclamped timeout exceeds it exactly when a sample has been taken, or the
      round trip is shorter than the initial three seconds. */
  lemma TimeoutExceedsRoundTrip(r: real, n: nat)
    requires r >= 0.0
    ensures var e := After(Repeat(r, n)); RtoCalc(e.srtt, e.rttvar) > r <==> (n >= 1 || r < 3.0)
  {
    EqualSamplesRto(r, n);
    AfterNone(r);
    var p, q := Pow(0.75, n), Pow(0.875, n);
    hide *;
    if n >= 1 {
      SlowerDecay(n);
      PowPositive(0.75, n);
      Compare(r, q, p);
    } else {
      assert r * 1.0 == r && r * p == r && r * q == r;
    }
  }

  lemma Compare(r: real, q: real, p: real)
    requires r >= 0.0 && 7.0 * q > 8.0 * p
    ensures 7.0 * (r * q) >= 8.0 * (r * p)
  {
    Product(r, 7.0 * q - 8.0 * p);
    assert r * (7.0 * q - 8.0 * p) == 7.0 * (r * q) - 8.0 * (r * p);
  }

  // ----- back-off

  /** The timeout of the `i`-th copy of a request whose first timeout is `r`. */
  function Backoff(r: real, i: nat): real
  {
    if i == 0 then r else 2.0 * Backoff(r, i - 1)
  }

  function Timer(r: real, i: nat): int { WholeSeconds(Backoff(r, i)) }

  function TimerSum(r: real, n: nat): int
  {
    if n == 0 then 0 else TimerSum(r, n - 1) + Timer(r, n - 1)
  }

  /** The timeouts of the four copies. */
  lemma Doubled(r: real)
    ensures Backoff(r, 0) == r && Backoff(r, 1) == 2.0 * r && Backoff(r, 2) == 4.0 * r && Backoff(r, 3) == 8.0 * r
  {
    assert Backoff(r, 2) == 2.0 * Backoff(r, 1) && Backoff(r, 1) == 2.0 * Backoff(r, 0);
  }

  /** Four doublings of a clamped timeout wait 900 seconds at most. */
  lemma TotalWait(r: real, n: nat)
    requires RTT_RXTMIN <= r <= RTT_RXTMAX && n <= RTT_MAXNREXMT + 1
    ensures 0 <= TimerSum(r, n) <= 900
  {
    Doublings(r);
    Rounded(r, 60);
    Rounded(2.0 * r, 120);
    Rounded(4.0 * r, 240);
    Rounded(8.0 * r, 480);
    TimerSums(r);
    hide *;
  }

  /** Rounding to whole seconds does not pass a whole bound. */
  lemma Rounded(x: real, max: int)
    requires 0.0 <= x <= max as real
    ensures 0 <= WholeSeconds(x) <= max
  {
    var y := x + 0.5;
    assert y.Floor as real <= y < max as real + 1.0;
    assert y.Floor as real < (max + 1) as real;
  }

  lemma Doublings(r: real)
    ensures Backoff(r, 0) == r && Backoff(r, 1) == 2.0 * r && Backoff(r, 2) == 4.0 * r && Backoff(r, 3) == 8.0 * r
    ensures Timer(r, 0) == WholeSeconds(r) && Timer(r, 1) == WholeSeconds(2.0 * r)
    ensures Timer(r, 2) == WholeSeconds(4.0 * r) && Timer(r, 3) == WholeSeconds(8.0 * r)
  {
    hide WholeSeconds;
    assert Backoff(r, 1) == 2.0 * Backoff(r, 0);
    assert Backoff(r, 2) == 2.0 * Backoff(r, 1);
    assert Backoff(r, 3) == 2.0 * Backoff(r, 2);
  }

  lemma TimerSums(r: real)
    ensures TimerSum(r, 0) == 0 && TimerSum(r, 1) == Timer(r, 0) && TimerSum(r, 2) == Timer(r, 0) + Timer(r, 1)
    ensures TimerSum(r, 3) == Timer(r, 0) + Timer(r, 1) + Timer(r, 2)
    ensures TimerSum(r, 4) == Timer(r, 0) + Timer(r, 1) + Timer(r, 2) + Timer(r, 3)
  {
    hide Timer;
    assert TimerSum(r, 1) == TimerSum(r, 0) + Timer(r, 0);
    assert TimerSum(r, 2) == TimerSum(r, 1) + Timer(r, 1);
    assert TimerSum(r, 3) == TimerSum(r, 2) + Timer(r, 2);
    assert TimerSum(r, 4) == TimerSum(r, 3) + Timer(r, 3);
  }
}
