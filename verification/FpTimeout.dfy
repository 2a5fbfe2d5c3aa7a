/** The retransmission timeout of a host in the IPv6 OS detection engine. */
module FpTimeout {

  /** Clock granularity and least timeout, in microseconds. */
  const GRANULARITY := 500000
  const LEAST_TIMEOUT := 100000

  /** -1 in both averages means that there is no sample yet. */
  datatype Estimate = Estimate(srtt: int, rttvar: int, rto: int)

  function Max(a: int, b: int): int { if a > b then a else b }

  function Abs(a: int): int { if a >= 0 then a else -a }

  /** Arithmetic shifts to the right, which round down, also below zero. */
  function Shift2(a: int): int { a / 4 }

  function Shift3(a: int): int { a / 8 }

  function AtLeast(rto: int): int { if rto < LEAST_TIMEOUT then LEAST_TIMEOUT else rto }

  function Updated(e: Estimate, sample: int, retransmission: bool): Estimate
  {
    if retransmission then e
    else if e.srtt == -1 && e.rttvar == -1 then
      var v := if sample >= 0 then sample / 2 else -(-sample / 2);
      Estimate(sample, v, AtLeast(sample + Max(GRANULARITY, 4 * v)))
    else
      var v := e.rttvar + Shift2(Abs(e.srtt - sample) - e.rttvar);
      var s := e.srtt + Shift3(sample - e.srtt);
      Estimate(s, v, AtLeast(s + Max(GRANULARITY, 4 * v)))
  }

  class Timer {
    var srtt: int
    var rttvar: int
    var rto: int

    constructor (rto: int)
      ensures Now() == Estimate(-1, -1, rto)
    {
      srtt, rttvar, this.rto := -1, -1, rto;
    }

    function Now(): Estimate
      reads this
    {
      Estimate(srtt, rttvar, rto)
    }

    method UpdateRto(sample: int, retransmission: bool)
      modifies this
      ensures Now() == Updated(old(Now()), sample, retransmission)
    {
      if retransmission {
        return;
      }
      if srtt == -1 && rttvar == -1 {
        srtt := sample;
        rttvar := if sample >= 0 then sample / 2 else -(-sample / 2);
        rto := srtt + Max(GRANULARITY, 4 * rttvar);
      } else {
        rttvar := rttvar + Shift2(Abs(srtt - sample) - rttvar);
        srtt := srtt + Shift3(sample - srtt);
        rto := srtt + Max(GRANULARITY, 4 * rttvar);
      }
      if rto < LEAST_TIMEOUT {
        rto := LEAST_TIMEOUT;
      }
    }
  }

  datatype Sample = Sample(usecs: int, retransmission: bool)

  function After(e: Estimate, samples: seq<Sample>): Estimate
  {
    if samples == [] then e
    else Updated(After(e, samples[..|samples| - 1]), samples[|samples| - 1].usecs, samples[|samples| - 1].retransmission)
  }

  predicate Within(samples: seq<Sample>, lo: int, hi: int)
  {
    forall i :: 0 <= i < |samples| && !samples[i].retransmission ==> lo <= samples[i].usecs <= hi
  }

  predicate Bounded(e: Estimate, lo: int, hi: int)
  {
    && lo <= e.srtt <= hi
    && 0 <= e.rttvar <= Max(hi - lo, hi / 2)
    && e.rto == e.srtt + Max(GRANULARITY, 4 * e.rttvar)
  }

  lemma {:induction false} StepBounded(e: Estimate, sample: int, lo: int, hi: int)
    requires 0 <= lo <= sample <= hi && (e.srtt == e.rttvar == -1 || Bounded(e, lo, hi))
    ensures Bounded(Updated(e, sample, false), lo, hi)
  {
  }

  /**
   * Section 2 of RFC 2988: an eighth of the difference moves the average, a quarter of it the variation, up
   * to rounding down; the first sample is the average, half of it the variation. Samples of a probe that was
   * sent again change nothing, and no timeout is below the least one.
   */
  lemma {:induction false} SampleWeights(e: Estimate, sample: nat, retransmission: bool)
    ensures var u := Updated(e, sample, retransmission);
            && (retransmission ==> u == e)
            && (!retransmission && e.srtt == e.rttvar == -1 ==> u.srtt == sample && sample - 1 <= 2 * u.rttvar <= sample)
            && (!retransmission && !(e.srtt == e.rttvar == -1) ==>
                  && 7 * e.srtt + sample - 7 <= 8 * u.srtt <= 7 * e.srtt + sample
                  && 3 * e.rttvar + Abs(e.srtt - sample) - 3 <= 4 * u.rttvar <= 3 * e.rttvar + Abs(e.srtt - sample))
            && (!retransmission ==>
                  && u.rto >= 100000 && u.rto >= u.srtt + 4 * u.rttvar && u.rto >= u.srtt + 500000
                  && (u.rto == 100000 || u.rto == u.srtt + 4 * u.rttvar || u.rto == u.srtt + 500000))
  {
  }

  /**
   * Over every run: the average stays between the least and the greatest sample that was used, the
   * variation below their distance or half the greatest, and the timeout above the granularity.
   */
  lemma {:induction false} RunBounded(rto: int, samples: seq<Sample>, lo: int, hi: int)
    requires 0 <= lo <= hi && Within(samples, lo, hi)
    ensures var e := After(Estimate(-1, -1, rto), samples);
            if forall i :: 0 <= i < |samples| ==> samples[i].retransmission then e == Estimate(-1, -1, rto)
            else Bounded(e, lo, hi) && GRANULARITY <= e.rto <= hi + Max(GRANULARITY, 4 * hi)
    decreases |samples|
  {
    if samples != [] {
      var front, last := samples[..|samples| - 1], samples[|samples| - 1];
      RunBounded(rto, front, lo, hi);
      assert forall i :: 0 <= i < |front| ==> samples[i] == front[i];
      if !last.retransmission {
        StepBounded(After(Estimate(-1, -1, rto), front), last.usecs, lo, hi);
      }
    }
  }

  /** A fifth of the greatest signed 32-bit integer: the timeout is at most five times the greatest sample. */
  const SAFE_SAMPLE := 429496729

  /** With samples up to seven minutes no intermediate value leaves the range of a 32-bit int. */
  lemma {:induction false} FitsInt32(rto: int, samples: seq<Sample>, sample: int)
    requires Within(samples, 0, SAFE_SAMPLE) && 0 <= sample <= SAFE_SAMPLE
    ensures var e := After(Estimate(-1, -1, rto), samples);
            var f := Updated(e, sample, false);
            && -0x8000_0000 <= e.srtt - sample <= 0x7FFF_FFFF
            && -0x8000_0000 <= Abs(e.srtt - sample) - e.rttvar <= 0x7FFF_FFFF
            && 4 * f.rttvar <= 0x7FFF_FFFF
            && f.srtt + Max(GRANULARITY, 4 * f.rttvar) <= 0x7FFF_FFFF
  {
    RunBounded(rto, samples, 0, SAFE_SAMPLE);
    StepBounded(After(Estimate(-1, -1, rto), samples), sample, 0, SAFE_SAMPLE);
  }

  /** A steady round trip time is learnt: the variation wears off and only the granularity remains. */
  lemma {:induction false} SteadySettles(rto: int, sample: int, n: nat)
    requires sample >= 0 && n > 0
    ensures var e := After(Estimate(-1, -1, rto), seq(n, _ => Sample(sample, false)));
            && e.srtt == sample
            && 0 <= e.rttvar <= Max(0, sample / 2 - (n - 1))
            && (n > sample / 2 ==> e.rto == sample + GRANULARITY)
    decreases n
  {
    var all := seq(n, _ => Sample(sample, false));
    var e := Estimate(-1, -1, rto);
    assert all[..n - 1] == seq(n - 1, _ => Sample(sample, false));
    if n == 1 {
      assert After(e, all[..0]) == e;
    } else {
      SteadySettles(rto, sample, n - 1);
    }
  }
}
