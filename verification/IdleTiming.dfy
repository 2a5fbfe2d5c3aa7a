/** Group size and send delay of the idle scan; the group size is real, its rounding is not the point. */
module IdleTiming {

  const MAX_SEND_DELAY := 100000

  /** 0 stands for an option that is not set. */
  datatype Timing = Timing(minGroup: int, maxGroup: int, group: real, delay: int)

  function RMax(a: real, b: real): real { if a > b then a else b }

  function RMin(a: real, b: real): real { if a < b then a else b }

  function IMin(a: int, b: int): int { if a < b then a else b }

  function IMax(a: int, b: int): int { if a > b then a else b }

  /** No group should take more than half a second of delays. */
  function DelayGroup(delay: int): real
    requires delay >= 0
  {
    (500000 / (delay + 1)) as real
  }

  /** A product cut off to an integer; both factors are not negative. */
  function Scaled(delay: int, factor: real): int { (delay as real * factor).Floor }

  /** Both group sizes are kept in 16 bits. */
  function Narrowed(n: nat): (r: nat)
    ensures r < 0x1_0000
  {
    n % 0x1_0000
  }

  function Least(minParallelism: nat): nat { Narrowed(if minParallelism != 0 then minParallelism else 4) }

  function Greatest(minParallelism: nat, maxParallelism: nat): nat
  {
    Narrowed(IMax(Least(minParallelism), if maxParallelism != 0 then maxParallelism else 100))
  }

  function Initially(minParallelism: nat, maxParallelism: nat, lost: bool): Timing
  {
    var lo, hi := Least(minParallelism), Greatest(minParallelism, maxParallelism);
    if lost then Timing(lo, hi, RMax(RMin(12.0, hi as real), lo as real), 5000)
    else Timing(lo, hi, RMin(hi as real, 30.0), 0)
  }

  /** After a count that probes were lost in, or were not. */
  function AfterCount(t: Timing, lost: bool): Timing
    requires t.delay >= 0
  {
    var d := if lost then IMin(MAX_SEND_DELAY, t.delay + 5000) else Eased(t.delay, 0.95);
    t.(delay := d, group := RMax(t.minGroup as real, RMin(t.group, DelayGroup(d))))
  }

  /** A shorter delay; a very short one becomes none. */
  function Eased(delay: int, factor: real): (d: int)
    ensures d >= 0
  {
    var d := Scaled(delay, factor);
    if d < 500 then 0 else d
  }

  /** After a count of `tested` open ports where there were `actual` ones. */
  function Adjusted(t: Timing, tested: int, actual: int): Timing
    requires t.delay >= 0
  {
    if tested < actual then
      var d := IMin(MAX_SEND_DELAY, t.delay + 10000);
      var g := RMax(t.minGroup as real, t.group * 0.8);
      t.(delay := d, group := RMax(t.minGroup as real, RMin(g, DelayGroup(d))))
    else if tested > actual then t.(group := RMax(t.minGroup as real, t.group * 0.8))
    else
      var d := Eased(t.delay, 0.9);
      t.(delay := d, group := RMin(t.maxGroup as real, RMin(t.group * 1.1, DelayGroup(d))))
  }

  /** What holds for all options, and after every update. */
  predicate Sane(t: Timing)
  {
    && 0 <= t.minGroup && 0 <= t.maxGroup
    && 0 <= t.delay <= MAX_SEND_DELAY
    && 0.0 <= t.group <= RMax(t.minGroup as real, t.maxGroup as real)
  }

  /** What keeps chunks from being empty. */
  predicate Usable(t: Timing)
  {
    Sane(t) && 1 <= t.minGroup && 1 <= t.maxGroup && RMin(RMin(t.minGroup as real, t.maxGroup as real), 4.0) <= t.group
  }

  /** The group size is within the bounds that the options mean to set. */
  predicate Bounded(t: Timing)
  {
    Usable(t) && t.minGroup <= t.maxGroup && RMin(t.minGroup as real, 4.0) <= t.group <= t.maxGroup as real
  }

  lemma {:induction false} InitiallySane(minParallelism: nat, maxParallelism: nat, lost: bool)
    ensures Sane(Initially(minParallelism, maxParallelism, lost))
  {
  }

  /** The bounds hold at the start if and only if what 16 bits leave of them is in order. */
  lemma {:induction false} InitiallyBounded(minParallelism: nat, maxParallelism: nat, lost: bool)
    ensures var (t, lo, hi) := (Initially(minParallelism, maxParallelism, lost), Least(minParallelism),
                                Greatest(minParallelism, maxParallelism));
            && (Bounded(t) <==> 1 <= lo <= hi)
            && (Usable(t) <==> 1 <= lo && 1 <= hi)
  {
  }

  lemma {:induction false} DelayGroupLeast(delay: int)
    requires 0 <= delay <= MAX_SEND_DELAY
    ensures DelayGroup(delay) >= 4.0
  {
    assert 500000 / (delay + 1) >= 4 by {
      assert 4 * (delay + 1) <= 500000;
    }
  }

  lemma {:induction false} EasedBounded(delay: int)
    requires 0 <= delay <= MAX_SEND_DELAY
    ensures 0 <= Eased(delay, 0.95) <= delay && 0 <= Eased(delay, 0.9) <= delay
  {
  }

  /** Of several limits the group meets one, and keeps to all of them as far as the lower limit `lo` allows. */
  predicate Limited(group: real, a: real, b: real, lo: real)
  {
    group >= lo && group <= RMax(lo, a) && group <= RMax(lo, b) && (group == lo || group == a || group == b)
    && (group >= a || group >= b)
  }

  /** Half a second of delays fits the group, and that of one more probe does not. */
  lemma {:induction false} DelayGroupExact(delay: nat)
    ensures var n := DelayGroup(delay).Floor;
            && DelayGroup(delay) == n as real
            && n * (delay + 1) <= 500000 < (n + 1) * (delay + 1)
  {
    var n := 500000 / (delay + 1);
    assert 500000 == n * (delay + 1) + 500000 % (delay + 1);
    assert (n + 1) * (delay + 1) == n * (delay + 1) + (delay + 1);
  }

  lemma ShareBounded(all: real, factor: real)
    requires 0.0 <= all && 0.0 <= factor < 1.0
    ensures 0.0 <= all * factor <= all && (all > 0.0 ==> all * factor < all)
  {
    var rest := 1.0 - factor;
    assert all * factor + all * rest == all;
    assert 0.0 <= all * factor && 0.0 <= all * rest && (all > 0.0 ==> all * rest > 0.0);
  }

  /** A delay is eased to the whole part of the given share of it, but to none below half a millisecond. */
  lemma {:induction false} EasedExact(delay: nat, factor: real)
    requires 0.0 <= factor < 1.0
    ensures var (d, share) := (Eased(delay, factor), delay as real * factor);
            && d <= delay && (d == delay <==> delay == 0)
            && (if share < 500.0 then d == 0 else share - 1.0 < d as real <= share)
  {
    var share := delay as real * factor;
    ShareBounded(delay as real, factor);
    assert share.Floor as real <= share < share.Floor as real + 1.0;
    var d := share.Floor;
    assert Scaled(delay, factor) == d;
    assert delay > 0 ==> d as real < delay as real;
    assert delay > 0 ==> d < delay;
  }

  /**
   * A scan that misses ports slows down, one that sees too many sends smaller groups, and one that counts
   * right speeds up.
   */
  lemma {:induction false} AdjustedExact(t: Timing, tested: int, actual: int)
    requires Sane(t)
    ensures var (u, lo) := (Adjusted(t, tested, actual), t.minGroup as real);
            && (tested < actual ==>
                  && u.delay == (if t.delay <= 90000 then t.delay + 10000 else 100000)
                  && Limited(u.group, t.group * 0.8, DelayGroup(u.delay), lo))
            && (tested > actual ==> u.delay == t.delay && Limited(u.group, t.group * 0.8, t.group, lo))
            && (tested == actual ==>
                  && u.delay == Eased(t.delay, 0.9) <= t.delay
                  && u.group <= t.group * 1.1 && u.group <= DelayGroup(u.delay) && u.group <= t.maxGroup as real
                  && u.group in {t.group * 1.1, DelayGroup(u.delay), t.maxGroup as real})
  {
    hide Eased;
    EasedExact(t.delay, 0.9);
  }

  /** Lost probes make the delays longer, others shorter; the group follows the delay. */
  lemma {:induction false} AfterCountExact(t: Timing, lost: bool)
    requires Sane(t)
    ensures var (u, lo) := (AfterCount(t, lost), t.minGroup as real);
            && (lost ==> u.delay == if t.delay <= 95000 then t.delay + 5000 else 100000)
            && (!lost ==> u.delay == Eased(t.delay, 0.95) <= t.delay)
            && Limited(u.group, t.group, DelayGroup(u.delay), lo)
  {
    hide Eased;
    EasedExact(t.delay, 0.95);
  }

  /** Without options, and with options in order. */
  lemma {:induction false} Starts(lo: nat, hi: nat)
    requires 0 < lo <= hi < 0x1_0000
    ensures Initially(0, 0, false) == Timing(4, 100, 30.0, 0) && Initially(0, 0, true) == Timing(4, 100, 12.0, 5000)
    ensures var (t, u) := (Initially(lo, hi, false), Initially(lo, hi, true));
            && t.minGroup == u.minGroup == lo && t.maxGroup == u.maxGroup == hi && t.delay == 0 && u.delay == 5000
            && t.group == (if hi <= 30 then hi as real else 30.0)
            && u.group == if hi <= 12 then hi as real else if lo <= 12 then 12.0 else lo as real
  {
  }

  datatype Update = Counted(lost: bool) | Compared(tested: int, actual: int)

  function Updated(t: Timing, u: Update): Timing
    requires t.delay >= 0
  {
    if u.Counted? then AfterCount(t, u.lost) else Adjusted(t, u.tested, u.actual)
  }

  /** Every update keeps the limits, and whatever of the bounds held. */
  lemma {:induction false} UpdateBounded(t: Timing, u: Update)
    requires Sane(t)
    ensures Sane(Updated(t, u)) && Updated(t, u).minGroup == t.minGroup && Updated(t, u).maxGroup == t.maxGroup
    ensures Usable(t) ==> Usable(Updated(t, u))
    ensures Bounded(t) ==> Bounded(Updated(t, u))
  {
    hide Eased;
    EasedBounded(t.delay);
    DelayGroupLeast(Updated(t, u).delay);
  }

  ghost function Run(t: Timing, us: seq<Update>): (r: Timing)
    requires Sane(t)
    ensures Sane(r) && r.minGroup == t.minGroup && r.maxGroup == t.maxGroup && (Usable(t) ==> Usable(r))
  {
    if us == [] then t
    else
      UpdateBounded(Run(t, us[..|us| - 1]), us[|us| - 1]);
      Updated(Run(t, us[..|us| - 1]), us[|us| - 1])
  }

  /** After every run of updates the next chunk has a port. */
  ghost predicate NeverEmpty(t: Timing)
    requires Sane(t)
  {
    forall us: seq<Update>, left: nat :: left > 0 ==> 1 <= Chunk(Run(t, us), left)
  }

  /**
   * Over every run of timing updates from the start of a scan no chunk of ports is empty, if and only if
   * neither limit is cut to 0; a chunk is never larger than twice the larger limit.
   */
  lemma {:induction false} ChunksNotEmpty(minParallelism: nat, maxParallelism: nat, lost: bool)
    ensures var t := Initially(minParallelism, maxParallelism, lost);
            && Sane(t)
            && (NeverEmpty(t) <==> 1 <= Least(minParallelism) && 1 <= Greatest(minParallelism, maxParallelism))
            && (forall us, left: nat :: Chunk(Run(t, us), left) <= IMin(left, 2 * IMax(t.minGroup, t.maxGroup)))
  {
    hide Run, Chunk;
    InitiallySane(minParallelism, maxParallelism, lost);
    InitiallyBounded(minParallelism, maxParallelism, lost);
    var t := Initially(minParallelism, maxParallelism, lost);
    forall us, left: nat
      ensures Chunk(Run(t, us), left) <= IMin(left, 2 * IMax(t.minGroup, t.maxGroup))
    {
      ChunkBounded(Run(t, us), left);
    }
    if Usable(t) {
      forall us: seq<Update>, left: nat | left > 0 ensures 1 <= Chunk(Run(t, us), left) {
        ChunkBounded(Run(t, us), left);
      }
    } else {
      var us := EmptyRun(t);
      var left: nat := 1;
      assert Chunk(Run(t, us), left) == 0;
      assert !NeverEmpty(t);
    }
  }

  /** Updates after which the next chunk is empty. */
  lemma {:induction false} EmptyRun(t: Timing) returns (us: seq<Update>)
    requires Sane(t) && (t.minGroup == 0 || t.maxGroup == 0) && (t.minGroup == 0 ==> t.group <= 30.0)
    ensures forall left: nat :: Chunk(Run(t, us), left) == 0
    ensures 0.0 <= Run(t, us).group < 0.5
  {
    hide Run, Chunk, Sane;
    if t.maxGroup == 0 {
      us := [Compared(0, 0)];
      OneRight(t);
    } else {
      us := seq(20, _ => Compared(1, 0));
      ManyHigh(t);
    }
    forall left: nat ensures Chunk(Run(t, us), left) == 0 {
      SmallChunk(Run(t, us), left);
    }
  }

  lemma {:induction false} ManyHigh(t: Timing)
    requires Sane(t) && t.minGroup == 0 && t.group <= 30.0
    ensures 0.0 <= Run(t, seq(20, _ => Compared(1, 0))).group < 0.5
  {
    hide Run, Power;
    Decay(t, 20);
    PowerSmall();
    Shrinks(t.group, Power(20));
  }

  /** A right count gives a group that is at most the greatest, here 0. */
  lemma {:induction false} OneRight(t: Timing)
    requires Sane(t) && t.maxGroup == 0
    ensures Run(t, [Compared(0, 0)]).group == 0.0
  {
    hide Eased;
    var us := [Compared(0, 0)];
    assert us[..0] == [];
    assert Run(t, []) == t;
    EasedBounded(t.delay);
    DelayGroupLeast(Eased(t.delay, 0.9));
  }

  lemma {:induction false} SmallChunk(t: Timing, left: nat)
    requires 0.0 <= t.group < 0.5
    ensures Chunk(t, left) == 0
  {
  }

  /** Options that the limits lose: a greatest group that makes the first chunk empty, and no least group. */
  lemma {:induction false} CutOptions(left: nat)
    ensures Greatest(0, 0x1_0000) == 0 && Chunk(Initially(0, 0x1_0000, false), left) == 0
    ensures Least(0x1_0000) == 0
  {
  }

  function Power(n: nat): real { if n == 0 then 1.0 else Power(n - 1) * 0.8 }

  lemma {:induction false} PowerSmall()
    ensures 0.0 < Power(20) < 0.0125
  {
    assert Power(5) == 0.32768;
    assert Power(10) == 0.1073741824;
    PowerAdd(10, 10);
    assert 0.1073741824 * 0.1073741824 < 0.0125;
  }

  lemma {:induction false} PowerAdd(m: nat, n: nat)
    ensures Power(m + n) == Power(m) * Power(n)
    decreases n
  {
    if n > 0 {
      PowerAdd(m, n - 1);
      assert Power(m) * Power(n - 1) * 0.8 == Power(m) * (Power(n - 1) * 0.8);
    }
  }

  lemma {:induction false} Shrinks(group: real, power: real)
    requires 0.0 <= group <= 30.0 && 0.0 < power < 0.0125
    ensures 0.0 <= group * power < 0.5
  {
    assert group * power <= 30.0 * power;
  }

  /** Without a lower limit counts that are too high make the group ever smaller. */
  lemma {:induction false} Decay(t: Timing, n: nat)
    requires Sane(t) && t.minGroup == 0
    ensures Run(t, seq(n, _ => Compared(1, 0))).group == t.group * Power(n)
    decreases n
  {
    hide Eased;
    var us: seq<Update> := seq(n, _ => Compared(1, 0));
    if n > 0 {
      assert us[..n - 1] == seq(n - 1, _ => Compared(1, 0));
      Decay(t, n - 1);
      assert t.group * Power(n - 1) * 0.8 == t.group * (Power(n - 1) * 0.8);
    }
  }

  /** What counting alone does: the group is at least the lower limit, but one that is cut to 0 stays so. */
  predicate Idled(before: Timing, after: Timing)
  {
    && after.group >= after.minGroup as real
    && (before.minGroup == 0 && before.group < 0.5 ==> after.group == before.group)
  }

  lemma {:induction false} CountIdles(t: Timing, lost: bool)
    requires Sane(t)
    ensures Idled(t, AfterCount(t, lost))
  {
    hide Eased;
    EasedBounded(t.delay);
    DelayGroupLeast(AfterCount(t, lost).delay);
  }

  /**
   * Without a lower limit the scan can get stuck: there is a run after which the next chunk is empty, and
   * after any more counts, which are all that an empty chunk leads to, it is empty again.
   */
  lemma {:induction false} ScanSticks(minParallelism: nat, maxParallelism: nat, lost: bool) returns (us: seq<Update>)
    requires Least(minParallelism) == 0
    ensures var t := Initially(minParallelism, maxParallelism, lost);
            && Sane(t)
            && forall more: seq<Update>, left: nat ::
                 (forall i :: 0 <= i < |more| ==> more[i].Counted?) ==> Chunk(Run(t, us + more), left) == 0
  {
    InitiallySane(minParallelism, maxParallelism, lost);
    var t := Initially(minParallelism, maxParallelism, lost);
    us := EmptyRun(t);
    forall more: seq<Update>, left: nat | forall i :: 0 <= i < |more| ==> more[i].Counted?
      ensures Chunk(Run(t, us + more), left) == 0
    {
      StaysSmall(t, us, more);
    }
  }

  lemma {:induction false} StaysSmall(t: Timing, us: seq<Update>, more: seq<Update>)
    requires Sane(t) && t.minGroup == 0 && Run(t, us).group < 0.5
    requires forall i :: 0 <= i < |more| ==> more[i].Counted?
    ensures Run(t, us + more).group == Run(t, us).group
    decreases |more|
  {
    if more == [] {
      assert us + more == us;
    } else {
      var front, last := more[..|more| - 1], more[|more| - 1];
      StaysSmall(t, us, front);
      assert (us + more)[..|us + more| - 1] == us + front && (us + more)[|us + more| - 1] == last;
      CountIdles(Run(t, us + front), last.lost);
    }
  }

  /** How many of the remaining ports are scanned next. */
  function Chunk(t: Timing, left: nat): int { IMin(left, (t.group * 2.0).Floor) }

  lemma {:induction false} ChunkBounded(t: Timing, left: nat)
    requires Sane(t)
    ensures if left as real <= t.group * 2.0 then Chunk(t, left) == left
            else Chunk(t, left) as real <= t.group * 2.0 < Chunk(t, left) as real + 1.0
    ensures 0 <= Chunk(t, left) <= left && Chunk(t, left) <= 2 * IMax(t.minGroup, t.maxGroup)
    ensures left > 0 && (Usable(t) || 1.0 <= t.group) ==> 1 <= Chunk(t, left)
  {
  }
}
