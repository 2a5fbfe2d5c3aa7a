/** The idle scan's recursive search for open ports, over a zombie that may count wrongly. */
module IdleScan {
  import opened IdleTiming

  type Port = p: int | 0 <= p < 0x1_0000

  datatype PortState = Open | ClosedFiltered

  predicate Distinct(ps: seq<Port>) { forall i, j :: 0 <= i < j < |ps| ==> ps[i] != ps[j] }

  /** How many of these ports are in the set. */
  function Count(ps: seq<Port>, s: set<Port>): (n: nat)
    ensures n <= |ps|
  {
    if ps == [] then 0 else Count(ps[..|ps| - 1], s) + if ps[|ps| - 1] in s then 1 else 0
  }

  lemma {:induction false} CountJoin(a: seq<Port>, b: seq<Port>, s: set<Port>)
    ensures Count(a + b, s) == Count(a, s) + Count(b, s)
    decreases |b|
  {
    if b == [] {
      assert a + b == a;
    } else {
      CountJoin(a, b[..|b| - 1], s);
      assert (a + b)[..|a + b| - 1] == a + b[..|b| - 1];
    }
  }

  lemma {:induction false} CountSame(ps: seq<Port>, s: set<Port>, t: set<Port>)
    requires forall p :: p in ps ==> (p in s <==> p in t)
    ensures Count(ps, s) == Count(ps, t)
    decreases |ps|
  {
    if ps != [] {
      assert ps[|ps| - 1] in ps;
      CountSame(ps[..|ps| - 1], s, t);
    }
  }

  lemma {:induction false} CountNone(ps: seq<Port>, s: set<Port>)
    ensures Count(ps, s) == 0 <==> forall p :: p in ps ==> p !in s
    decreases |ps|
  {
    if ps != [] {
      var front, last := ps[..|ps| - 1], ps[|ps| - 1];
      CountNone(front, s);
      assert last in ps;
      assert ps == front + [last];
    }
  }

  /** Without repetitions the count is the number of ports. */
  lemma {:induction false} CountIsSize(ps: seq<Port>, s: set<Port>)
    requires Distinct(ps)
    ensures Count(ps, s) == |Both(ps, s)|
    decreases |ps|
  {
    if ps == [] {
      assert Both(ps, s) == {};
    } else {
      var front, last := ps[..|ps| - 1], ps[|ps| - 1];
      assert forall i :: 0 <= i < |front| ==> ps[i] == front[i];
      CountIsSize(front, s);
      assert ps == front + [last];
      BothStep(front, last, s);
    }
  }

  function Both(ps: seq<Port>, s: set<Port>): set<Port> { set p | p in ps && p in s }

  lemma {:induction false} BothStep(front: seq<Port>, last: Port, s: set<Port>)
    requires last !in front
    ensures |Both(front + [last], s)| == |Both(front, s)| + if last in s then 1 else 0
  {
    if last in s {
      assert Both(front + [last], s) == Both(front, s) + {last};
      assert last !in Both(front, s);
    } else {
      assert Both(front + [last], s) == Both(front, s);
    }
  }

  /** A step keeps the limits, and chunks from being empty if they were. */
  predicate Kept(before: Timing, after: Timing)
  {
    && Sane(after)
    && after.minGroup == before.minGroup && after.maxGroup == before.maxGroup
    && (Usable(before) ==> Usable(after))
  }

  predicate Apart(a: seq<Port>, b: seq<Port>)
  {
    && Distinct(a) && Distinct(b) && (forall p :: p in a ==> p !in b) && (forall p :: p in b ==> p !in a)
    && (|a| > 1 ==> b != []) && (|b| > 1 ==> a != [])
  }

  /** What a half has shown: the result of its search, or of counting it. */
  function Found(flat: int, deep: int): int { if deep == -1 then flat else deep }

  lemma {:induction false} CountAll(ps: seq<Port>, s: set<Port>)
    ensures 0 <= Count(ps, s) <= |ps|
  {
  }

  /** From `before` to `after`, only ports of this slice were added. */
  predicate Grown(before: set<Port>, after: set<Port>, ports: seq<Port>)
  {
    before <= after && forall p :: p in after && p !in before ==> p in ports
  }

  lemma {:induction false} Elsewhere(before: set<Port>, after: set<Port>, ports: seq<Port>, others: seq<Port>)
    requires Grown(before, after, ports) && forall p :: p in ports ==> p !in others
    ensures Count(others, after) == Count(others, before)
  {
    CountSame(others, before, after);
  }

  // ---------- What the counter was asked, and what it said ----------

  datatype Ask = Ask(ports: seq<Port>, n: int)

  /** An answer out of range is not used. */
  predicate Used(a: Ask) { 0 <= a.n <= |a.ports| }

  predicate Correct(a: Ask, truth: set<Port>) { Used(a) ==> a.n == Count(a.ports, truth) }

  predicate AllCorrect(s: seq<Ask>, truth: set<Port>) { forall i :: 0 <= i < |s| ==> Correct(s[i], truth) }

  predicate FirstAsk(s: seq<Ask>, i: nat)
    requires i < |s|
  {
    forall j :: 0 <= j < i ==> s[j].ports != s[i].ports
  }

  /** A wrong answer was a zero, the first time the slice was asked for. */
  predicate WrongZeros(s: seq<Ask>, truth: set<Port>)
  {
    forall i :: 0 <= i < |s| ==> Correct(s[i], truth) || (s[i].n == 0 && FirstAsk(s, i))
  }

  /** A wrong answer, whatever it was, was the first one for one of these two slices. */
  predicate WrongFirsts(s: seq<Ask>, a: seq<Port>, b: seq<Port>, truth: set<Port>)
  {
    forall i :: 0 <= i < |s| ==> Correct(s[i], truth) || ((s[i].ports == a || s[i].ports == b) && FirstAsk(s, i))
  }

  /** How often a slice was counted with an answer that was used. */
  function Times(s: seq<Ask>, ps: seq<Port>): nat
  {
    if s == [] then 0
    else Times(s[..|s| - 1], ps) + if s[|s| - 1].ports == ps && Used(s[|s| - 1]) then 1 else 0
  }

  lemma {:induction false} TimesJoin(s: seq<Ask>, t: seq<Ask>, ps: seq<Port>)
    ensures Times(s + t, ps) == Times(s, ps) + Times(t, ps)
    decreases |t|
  {
    hide Used;
    if t == [] {
      assert s + t == s;
    } else {
      TimesJoin(s, t[..|t| - 1], ps);
      assert (s + t)[..|s + t| - 1] == s + t[..|t| - 1];
    }
  }

  lemma {:induction false} TimesNone(s: seq<Ask>, ps: seq<Port>)
    requires forall i :: 0 <= i < |s| ==> s[i].ports != ps || !Used(s[i])
    ensures Times(s, ps) == 0
    decreases |s|
  {
    if s != [] {
      TimesNone(s[..|s| - 1], ps);
    }
  }

  lemma {:induction false} TimesSome(s: seq<Ask>, ps: seq<Port>)
    requires Times(s, ps) > 0
    ensures exists i :: 0 <= i < |s| && s[i].ports == ps
    decreases |s|
  {
    if s[|s| - 1].ports != ps {
      TimesSome(s[..|s| - 1], ps);
    }
  }

  function Front(ports: seq<Port>): seq<Port> { ports[..(|ports| + 1) / 2] }

  function Back(ports: seq<Port>): seq<Port> { ports[(|ports| + 1) / 2..] }

  /** A half was counted twice, or searched. */
  predicate Rechecked(s: seq<Ask>, half: seq<Port>)
  {
    Times(s, half) >= 2 || (|half| > 1 && Times(s, Front(half)) >= 1)
  }

  /** The answers for one slice are right, and no others are wrong but for zeros at first. */
  predicate Reliable(s: seq<Ask>, half: seq<Port>, truth: set<Port>)
  {
    (forall i :: 0 <= i < |s| && s[i].ports == half ==> Correct(s[i], truth)) && WrongZeros(s, truth)
  }

  predicate OthersCorrect(s: seq<Ask>, half: seq<Port>, truth: set<Port>)
  {
    forall i :: 0 <= i < |s| && s[i].ports != half ==> Correct(s[i], truth)
  }

  /** Only this slice and parts of it were asked for. */
  predicate Inside(s: seq<Ask>, half: seq<Port>)
  {
    forall i :: 0 <= i < |s| ==> |s[i].ports| <= |half| && forall p :: p in s[i].ports ==> p in half
  }

  /** Only slices of half the size were asked for. */
  predicate Narrower(s: seq<Ask>, ports: seq<Port>)
  {
    forall i :: 0 <= i < |s| ==> 2 * |s[i].ports| <= |ports| + 1 && forall p :: p in s[i].ports ==> p in ports
  }

  /** Is the answer of a search to be relied on? */
  predicate Trusted(s: seq<Ask>, ports: seq<Port>, expected: int, truth: set<Port>)
  {
    || AllCorrect(s, truth)
    || (WrongZeros(s, truth) && !(0 <= expected < Count(ports, truth)))
    || (WrongFirsts(s, Front(ports), Back(ports), truth) && Rechecked(s, Front(ports)) && Rechecked(s, Back(ports)))
  }

  lemma {:induction false} ZerosSplit(s: seq<Ask>, t: seq<Ask>, truth: set<Port>)
    requires WrongZeros(s + t, truth)
    ensures WrongZeros(s, truth) && WrongZeros(t, truth)
    ensures forall i :: 0 <= i < |t| ==> Correct(t[i], truth) || forall j :: 0 <= j < |s| ==> s[j].ports != t[i].ports
  {
    hide Correct;
    forall i | 0 <= i < |s| ensures Correct(s[i], truth) || (s[i].n == 0 && FirstAsk(s, i)) {
      assert (s + t)[i] == s[i];
      assert forall j :: 0 <= j < i ==> (s + t)[j] == s[j];
    }
    forall i | 0 <= i < |t|
      ensures Correct(t[i], truth) || (t[i].n == 0 && FirstAsk(t, i) && forall j :: 0 <= j < |s| ==> s[j].ports != t[i].ports)
    {
      assert (s + t)[|s| + i] == t[i];
      assert forall j :: 0 <= j < i ==> (s + t)[|s| + j] == t[j];
      assert forall j :: 0 <= j < |s| ==> (s + t)[j] == s[j];
    }
  }

  /** What holds of a part of all that was asked. */
  lemma {:induction false} PartOf(a: seq<Ask>, s: seq<Ask>, b: seq<Ask>, first: seq<Port>, second: seq<Port>, truth: set<Port>)
    ensures AllCorrect(a + s + b, truth) ==> AllCorrect(s, truth)
    ensures WrongZeros(a + s + b, truth) ==> WrongZeros(s, truth)
    ensures WrongZeros(a + s + b, truth) ==>
              forall i :: 0 <= i < |s| ==> Correct(s[i], truth) || forall j :: 0 <= j < |a| ==> a[j].ports != s[i].ports
    ensures WrongFirsts(a + s + b, first, second, truth) ==>
              forall i :: 0 <= i < |s| ==>
                || Correct(s[i], truth)
                || ((s[i].ports == first || s[i].ports == second) && forall j :: 0 <= j < |a| ==> a[j].ports != s[i].ports)
  {
    hide Correct;
    var all := a + s + b;
    assert forall i :: 0 <= i < |s| ==> all[|a| + i] == s[i];
    assert forall j :: 0 <= j < |a| ==> all[j] == a[j];
    if WrongZeros(all, truth) {
      ZerosSplit(a + s, b, truth);
      ZerosSplit(a, s, truth);
    }
  }

  /** In the scan of a half only the other half can have been asked for besides, and that only if it is empty. */
  lemma {:induction false} OthersInside(s: seq<Ask>, half: seq<Port>, other: seq<Port>, truth: set<Port>)
    requires Inside(s, half) && Apart(half, other)
    requires forall i :: 0 <= i < |s| ==> Correct(s[i], truth) || s[i].ports == half || s[i].ports == other
    ensures OthersCorrect(s, half, truth)
  {
    if other != [] {
      assert other[0] in other && other[0] !in half;
    }
  }

  /** If all that was asked is to be trusted, so is the part where a half was counted again. */
  lemma {:induction false} AgainReliable(a: seq<Ask>, s: seq<Ask>, b: seq<Ask>, half: seq<Port>, other: seq<Port>,
                                         truth: set<Port>)
    requires Inside(s, half) && Apart(half, other) && Times(a, half) > 0
    ensures AllCorrect(a + s + b, truth) || WrongZeros(a + s + b, truth) || WrongFirsts(a + s + b, half, other, truth) ==>
              Reliable(s, half, truth)
  {
    hide Correct, AllCorrect, Times, Inside;
    PartOf(a, s, b, half, other, truth);
    TimesSome(a, half);
    var k :| 0 <= k < |a| && a[k].ports == half;
    if AllCorrect(s, truth) {
      AllReliable(s, half, truth);
    } else if WrongFirsts(a + s + b, half, other, truth) {
      OthersInside(s, half, other, truth);
    }
  }

  lemma FirstsSwap(s: seq<Ask>, a: seq<Port>, b: seq<Port>, truth: set<Port>)
    ensures WrongFirsts(s, a, b, truth) == WrongFirsts(s, b, a, truth)
  {
    hide Correct, FirstAsk;
  }

  lemma NarrowJoin(s: seq<Ask>, t: seq<Ask>, ports: seq<Port>)
    requires Narrower(s, ports) && Narrower(t, ports)
    ensures Narrower(s + t, ports)
  {
  }

  lemma AllJoin(s: seq<Ask>, t: seq<Ask>, truth: set<Port>)
    ensures AllCorrect(s, truth) && AllCorrect(t, truth) ==> AllCorrect(s + t, truth)
  {
    hide Correct;
  }

  lemma {:induction false} AllReliable(s: seq<Ask>, half: seq<Port>, truth: set<Port>)
    requires AllCorrect(s, truth)
    ensures Reliable(s, half, truth)
  {
    hide Correct;
  }

  /** Where the halves were just scanned, one that was not searched was counted once. */
  lemma {:induction false} OnlyScanned(s: seq<Ask>, t: seq<Ask>, half: seq<Port>, other: seq<Port>)
    requires half != [] && Apart(half, other) && Inside(t, other)
    requires Times(s, half) == 1 && forall i :: 0 <= i < |s| ==> s[i].ports == half
    ensures !Rechecked(s + t, half) && !Rechecked(t + s, half)
  {
    hide Times;
    var part := Front(half);
    forall i | 0 <= i < |t| ensures t[i].ports != half && (|half| > 1 ==> t[i].ports != part) {
      assert half[0] in half && half[0] !in other;
      if |half| > 1 {
        assert part[0] == half[0];
      }
    }
    TimesNone(t, half);
    TimesJoin(s, t, half);
    TimesJoin(t, s, half);
    if |half| > 1 {
      TimesNone(s, part);
      TimesNone(t, part);
      TimesJoin(s, t, part);
      TimesJoin(t, s, part);
    }
  }

  /**
   * A scan of one target. `raw` is what the zombie's counter says the k-th time it is asked and `lossy`
   * whether probes were lost then; both are arbitrary. `open` are the ports set open so far, `truth` those
   * that are, and `log` has all that was asked.
   */
  class Scan {
    const raw: (nat, seq<Port>) -> int
    const lossy: nat -> bool
    ghost const truth: set<Port>
    var asked: nat
    var timing: Timing
    var open: set<Port>
    ghost var log: seq<Ask>

    constructor (raw: (nat, seq<Port>) -> int, lossy: nat -> bool, ghost truth: set<Port>, start: Timing)
      requires Sane(start)
      ensures timing == start && Sane(timing) && open == {} && this.raw == raw && this.lossy == lossy && this.truth == truth
      ensures asked == 0 && log == []
    {
      this.raw, this.lossy, this.truth := raw, lossy, truth;
      asked, timing, open, log := 0, start, {}, [];
    }

    /** Does the counter always tell the truth? */
    ghost predicate Exact()
    {
      forall k: nat, ps: seq<Port> :: raw(k, ps) == Count(ps, truth)
    }

    method CountOnce(ports: seq<Port>) returns (n: int)
      requires Sane(timing)
      modifies this`asked, this`timing, this`log
      ensures Kept(old(timing), timing) && Idled(old(timing), timing) && n == raw(old(asked), ports)
      ensures timing == AfterCount(old(timing), lossy(old(asked))) && asked == old(asked) + 1
      ensures log == old(log) + [Ask(ports, n)]
    {
      n := raw(asked, ports);
      UpdateBounded(timing, Counted(lossy(asked)));
      CountIdles(timing, lossy(asked));
      timing := AfterCount(timing, lossy(asked));
      asked := asked + 1;
      log := log + [Ask(ports, n)];
    }

    /** Six tries for a number that makes sense; otherwise the scan is given up. */
    method CountOpen(ports: seq<Port>) returns (ok: bool, n: int, ghost s: seq<Ask>)
      requires Sane(timing)
      modifies this`asked, this`timing, this`log
      ensures Kept(old(timing), timing)
      ensures Idled(old(timing), timing)
      ensures ok <==> 0 <= n <= |ports|
      ensures Exact() ==> ok && AllCorrect(s, truth)
      ensures old(asked) < asked <= old(asked) + 6 && n == raw(asked - 1, ports)
      ensures forall k :: old(asked) <= k < asked - 1 ==> !(0 <= raw(k, ports) <= |ports|)
      ensures !ok ==> asked == old(asked) + 6
      ensures log == old(log) + s && s != [] && s[|s| - 1].n == n
      ensures forall i :: 0 <= i < |s| ==> s[i].ports == ports && (i < |s| - 1 ==> !Used(s[i]))
    {
      hide Sane, Usable, AfterCount;
      var tries := 0;
      s := [];
      while true
        invariant 0 <= tries < 6 && asked == old(asked) + tries && Kept(old(timing), timing)
        invariant if tries == 0 then timing == old(timing) else Idled(old(timing), timing)
        invariant forall k :: old(asked) <= k < asked ==> !(0 <= raw(k, ports) <= |ports|)
        invariant log == old(log) + s && forall i :: 0 <= i < |s| ==> s[i].ports == ports && !Used(s[i])
        decreases 6 - tries
      {
        n := CountOnce(ports);
        tries := tries + 1;
        s := s + [Ask(ports, n)];
        if tries == 6 || 0 <= n <= |ports| {
          break;
        }
      }
      ok := 0 <= n <= |ports|;
    }

    /** The last thing that changed the timing was the comparison of these two counts. */
    ghost predicate AdjustedBy(after: Timing, tested: int, actual: int)
    {
      exists before: Timing :: before.delay >= 0 && after == Adjusted(before, tested, actual)
    }

    method AdjustIdleTiming(tested: int, actual: int)
      requires Sane(timing)
      modifies this`timing
      ensures Kept(old(timing), timing) && timing == Adjusted(old(timing), tested, actual)
      ensures AdjustedBy(timing, tested, actual)
    {
      UpdateBounded(timing, Compared(tested, actual));
      timing := Adjusted(timing, tested, actual);
    }

    /** A half of at most one port is only counted, a longer one is searched. */
    ghost predicate HalfDone(o: set<Port>, half: seq<Port>, n: int)
    {
      if |half| > 1 then n == Count(half, o) else 0 <= n <= |half| && Count(half, o) == 0
    }

    /** The right ports of a half are open, or a single one was counted right. */
    ghost predicate HalfRight(o: set<Port>, half: seq<Port>, n: int)
    {
      if |half| > 1 then Right(o, half, truth) else n == Count(half, truth)
    }

    /** What one half has shown so far: a count and, if that was not the end of it, the result of a search. */
    ghost predicate Half(o: set<Port>, half: seq<Port>, flat: int, deep: int)
    {
      && HalfDone(o, half, Found(flat, deep))
      && (deep == -1 ==> Count(half, o) == 0 && 0 <= flat <= |half| && (|half| <= 1 || flat == 0))
      && (deep != -1 ==> |half| > 1)
    }

    /** What was asked for the first scan of a half, and when its result is right. */
    ghost predicate Scanned(o: set<Port>, half: seq<Port>, flat: int, deep: int, s: seq<Ask>)
    {
      && Inside(s, half) && Times(s, half) == 1
      && (if deep == -1 then forall i :: 0 <= i < |s| ==> s[i].ports == half else Times(s, Front(half)) >= 1)
      && (Reliable(s, half, truth) || (deep != -1 && OthersCorrect(s, half, truth)) ==> HalfRight(o, half, Found(flat, deep)))
      && (WrongZeros(s, truth) ==> if deep != -1 then Reliable(s, half, truth) else flat == 0 || flat == Count(half, truth))
    }

    /** What was asked when a half was counted again. */
    ghost predicate Recounted(o: set<Port>, half: seq<Port>, n: int, s: seq<Ask>)
    {
      Inside(s, half) && Times(s, half) == 1 && (Reliable(s, half, truth) ==> HalfRight(o, half, n))
    }

    /** A half is right where nothing was counted, rightly. */
    lemma NothingFound(o: set<Port>, half: seq<Port>, n: int)
      requires Count(half, o) == 0 && (|half| > 1 ==> n == 0) && n == Count(half, truth)
      ensures HalfRight(o, half, n)
    {
      CountNone(half, o);
      CountNone(half, truth);
    }

    lemma RightCount(o: set<Port>, half: seq<Port>, n: int)
      requires HalfDone(o, half, n) && HalfRight(o, half, n)
      ensures n == Count(half, truth)
    {
      if |half| > 1 {
        CountSame(half, o, truth);
      }
    }

    /** What happens in the other half does not touch this one. */
    lemma HalfKept(before: set<Port>, after: set<Port>, ports: seq<Port>, half: seq<Port>, n: int)
      requires Grown(before, after, ports) && forall p :: p in ports ==> p !in half
      ensures HalfDone(before, half, n) ==> HalfDone(after, half, n)
      ensures HalfRight(before, half, n) ==> HalfRight(after, half, n)
      ensures Right(before, half, truth) ==> Right(after, half, truth)
      ensures Count(half, after) == Count(half, before)
    {
      Elsewhere(before, after, ports, half);
    }

    /** One count of a half, without or with a search of it behind. */
    lemma CountedHalf(s: seq<Ask>, half: seq<Port>, n: int, t: seq<Ask>)
      requires s != [] && s[|s| - 1] == Ask(half, n) && 0 <= n <= |half|
      requires forall i :: 0 <= i < |s| ==> s[i].ports == half && (i < |s| - 1 ==> !Used(s[i]))
      requires t == [] || (|half| > 1 && Narrower(t, half))
      ensures Inside(s + t, half) && Times(s + t, half) == 1 && Times(s + t, Front(half)) >= Times(t, Front(half))
      ensures Reliable(s + t, half, truth) ==> n == Count(half, truth) && WrongZeros(t, truth)
      ensures OthersCorrect(s + t, half, truth) ==> AllCorrect(t, truth)
      ensures WrongZeros(s + t, truth) ==> n == 0 || n == Count(half, truth)
      ensures WrongZeros(s + t, truth) && n == Count(half, truth) ==> Reliable(s + t, half, truth)
    {
      var r, k := s + t, |s| - 1;
      assert forall i :: 0 <= i < |s| ==> r[i] == s[i];
      assert forall i :: 0 <= i < |t| ==> r[|s| + i] == t[i];
      assert r[k] == Ask(half, n);
      hide Correct, WrongZeros;
      TimesJoin(s, t, half);
      TimesJoin(s, t, Front(half));
      TimesNone(s[..k], half);
      TimesNone(t, half);
      assert Times(s, half) == 1;
      if WrongZeros(r, truth) {
        ZerosSplit(s, t, truth);
        ZeroOrRight(r, k, truth);
      }
      assert Correct(r[k], truth) <==> n == Count(half, truth) by { CorrectIs(r[k], truth); }
      forall i | 0 <= i < k ensures Correct(r[i], truth) { CorrectIs(r[i], truth); }
    }

    lemma CorrectIs(a: Ask, truth: set<Port>)
      ensures Correct(a, truth) <==> (Used(a) ==> a.n == Count(a.ports, truth))
    {
    }

    lemma ZeroOrRight(s: seq<Ask>, k: nat, truth: set<Port>)
      requires k < |s| && WrongZeros(s, truth) && Used(s[k])
      ensures s[k].n == 0 || s[k].n == Count(s[k].ports, truth)
    {
    }

    /** Counts one half and digs deeper if it has open ports; `deep` is -1 if it did not. */
    method ScanHalf(half: seq<Port>) returns (ok: bool, flat: int, deep: int, ghost s: seq<Ask>)
      requires Sane(timing) && Distinct(half) && Count(half, open) == 0
      modifies this
      ensures Kept(old(timing), timing)
      ensures half == [] ==> Idled(old(timing), timing)
      ensures Exact() ==> ok && AllCorrect(s, truth)
      ensures ok ==> Grown(old(open), open, half) && Half(open, half, flat, deep)
      ensures ok ==> log == old(log) + s && Scanned(open, half, flat, deep, s)
      ensures ok && deep != -1 ==> AdjustedBy(timing, flat, deep)
      decreases Rank(half), 4
    {
      hide Sane, Usable, Count, Adjusted, Correct, WrongZeros, AllCorrect, WrongFirsts, Right;
      ok, flat, s := CountOpen(half);
      deep := -1;
      if !ok {
        return;
      }
      ghost var t: seq<Ask> := [];
      if |half| > 1 && flat > 0 {
        ok, deep, t := TreeScan(half, flat);
        if !ok {
          return;
        }
        AdjustIdleTiming(flat, deep);
      }
      CountedHalf(s, half, flat, t);
      AllJoin(s, t, truth);
      s := s + t;
      if deep == -1 && flat == Count(half, truth) {
        NothingFound(open, half, flat);
      }
    }

    /** Counts a half again that was not searched; a new count of several ports starts a search. */
    method RecountHalf(half: seq<Port>, flat: int) returns (ok: bool, count: int, ghost s: seq<Ask>)
      requires Sane(timing) && Distinct(half) && Half(open, half, flat, -1)
      modifies this
      ensures Kept(old(timing), timing)
      ensures half == [] ==> Idled(old(timing), timing)
      ensures Exact() ==> ok && AllCorrect(s, truth)
      ensures ok ==> Grown(old(open), open, half) && HalfDone(open, half, count)
      ensures ok ==> log == old(log) + s && Recounted(open, half, count, s)
      ensures ok && |half| <= 1 && count != flat ==> AdjustedBy(timing, flat, count)
      ensures ok && |half| > 1 ==>
                exists i ::
                  0 <= i < |s| && s[i].ports == half && Used(s[i]) && (s[i].n != 0 ==> AdjustedBy(timing, s[i].n, count))
      decreases Rank(half), 4
    {
      hide Sane, Usable, Count, Adjusted, Correct, WrongZeros, AllCorrect, WrongFirsts, Right;
      ok, count, s := CountOpen(half);
      if !ok {
        return;
      }
      var again := count;
      ghost var t: seq<Ask> := [];
      if count != flat {
        if |half| > 1 && count > 0 {
          ok, count, t := TreeScan(half, count);
          if !ok {
            return;
          }
          AdjustIdleTiming(again, count);
        } else {
          AdjustIdleTiming(flat, count);
        }
      }
      CountedHalf(s, half, again, t);
      assert (s + t)[|s| - 1] == s[|s| - 1];
      AllJoin(s, t, truth);
      s := s + t;
      if (|half| <= 1 || again == 0) && again == Count(half, truth) {
        NothingFound(open, half, again);
      }
    }

    /** Scans one half after the other. */
    method ScanBoth(first: seq<Port>, second: seq<Port>)
      returns (ok: bool, flat1: int, deep1: int, flat2: int, deep2: int, ghost s1: seq<Ask>, ghost s2: seq<Ask>)
      requires Sane(timing) && Apart(first, second) && Count(first, open) == 0 && Count(second, open) == 0
      modifies this
      ensures Kept(old(timing), timing)
      ensures ok && first == second == [] ==> Idled(old(timing), timing)
      ensures Exact() ==> ok && AllCorrect(s1, truth) && AllCorrect(s2, truth)
      ensures ok ==> Grown(old(open), open, first + second) && log == old(log) + s1 + s2
      ensures ok ==> Half(open, first, flat1, deep1) && Half(open, second, flat2, deep2)
      ensures ok ==> Scanned(open, first, flat1, deep1, s1) && Scanned(open, second, flat2, deep2, s2)
      decreases |first| + |second| + 1, 2
    {
      hide Sane, Usable, Count, HalfDone, HalfRight, Inside, Times, Reliable, OthersCorrect, WrongZeros;
      flat2, deep2, s2 := 0, 0, [];
      ok, flat1, deep1, s1 := ScanHalf(first);
      if !ok {
        return;
      }
      HalfKept(old(open), open, first, second, 0);
      ghost var one := open;
      ok, flat2, deep2, s2 := ScanHalf(second);
      if ok {
        HalfKept(one, open, second, first, Found(flat1, deep1));
      }
    }

    /** One half is counted again if it was not searched; the total follows. */
    method RecountOne(half: seq<Port>, other: seq<Port>, flat: int, found: int, sum: int)
      returns (ok: bool, now: int, total: int, ghost s: seq<Ask>)
      requires Sane(timing) && Apart(half, other) && Half(open, half, flat, -1) && HalfDone(open, other, found)
      modifies this
      ensures Kept(old(timing), timing)
      ensures half == [] ==> Idled(old(timing), timing)
      ensures Exact() ==> ok && AllCorrect(s, truth)
      ensures ok ==> Grown(old(open), open, half) && HalfDone(open, half, now) && HalfDone(open, other, found)
      ensures ok ==> HalfRight(old(open), other, found) ==> HalfRight(open, other, found)
      ensures ok ==> total == sum + now - flat && Count(other, open) == old(Count(other, open))
      ensures ok ==> log == old(log) + s && Recounted(open, half, now, s)
      decreases |half| + |other| + 1, 1
    {
      hide Sane, Usable, Count, HalfDone, HalfRight, Recounted;
      total := sum;
      ok, now, s := RecountHalf(half, flat);
      if !ok {
        return;
      }
      HalfKept(old(open), open, half, other, found);
      if now != flat {
        total := total + now - flat;
      }
    }

    method RecountBoth(first: seq<Port>, second: seq<Port>, flat1: int, deep1: int, flat2: int, deep2: int)
      returns (ok: bool, now1: int, now2: int, total: int, ghost r1: seq<Ask>, ghost r2: seq<Ask>)
      requires Sane(timing) && Apart(first, second)
      requires Half(open, first, flat1, deep1) && Half(open, second, flat2, deep2)
      modifies this
      ensures Kept(old(timing), timing)
      ensures ok && first == second == [] ==> Idled(old(timing), timing)
      ensures Exact() ==> ok && AllCorrect(r1, truth) && AllCorrect(r2, truth)
      ensures ok ==> Grown(old(open), open, first + second) && log == old(log) + r1 + r2
      ensures ok ==> HalfDone(open, first, Found(now1, deep1)) && HalfDone(open, second, Found(now2, deep2))
      ensures ok ==> total == Found(now1, deep1) + Found(now2, deep2)
      ensures ok ==> After(old(open), open, first, deep1, now1, r1) && After(old(open), open, second, deep2, now2, r2)
      decreases |first| + |second| + 1, 2
    {
      hide Sane, Usable, Count, HalfDone, HalfRight, Inside, Times, Reliable;
      now1, now2, total := flat1, flat2, Found(flat1, deep1) + Found(flat2, deep2);
      ok, r1, r2 := true, [], [];
      if deep1 == -1 {
        ok, now1, total, r1 := RecountOne(first, second, flat1, Found(flat2, deep2), total);
        if !ok {
          return;
        }
      }
      if deep2 == -1 {
        ok, now2, total, r2 := RecountOne(second, first, flat2, Found(now1, deep1), total);
      }
    }

    /** A half was counted again if it had not been searched, or it is as right as it was. */
    ghost predicate After(before: set<Port>, after: set<Port>, half: seq<Port>, deep: int, now: int, r: seq<Ask>)
    {
      if deep == -1 then Recounted(after, half, now, r)
      else r == [] && (HalfRight(before, half, deep) ==> HalfRight(after, half, deep))
    }

    /** A half of one port that was counted is set open. */
    method MarkSingle(half: seq<Port>, n: int)
      requires HalfDone(open, half, n)
      modifies this`open
      ensures n == Count(half, open) && Grown(old(open), open, half)
      ensures HalfRight(old(open), half, n) ==> Right(open, half, truth)
    {
      if |half| == 1 && n == 1 {
        open := open + {half[0]};
      }
      if |half| == 1 {
        assert half == [] + [half[0]];
        OneCount(half[0], old(open));
        OneCount(half[0], open);
        OneCount(half[0], truth);
      }
    }

    /** What was asked in all makes a half right. */
    lemma HalfTrusted(a: seq<Ask>, s: seq<Ask>, b: seq<Ask>, half: seq<Port>, other: seq<Port>, flat: int, deep: int,
                      o: set<Port>)
      requires Apart(half, other) && Scanned(o, half, flat, deep, s)
      ensures var all := a + s + b;
              AllCorrect(all, truth) || (deep != -1 && (WrongZeros(all, truth) || WrongFirsts(all, half, other, truth))) ==>
                HalfRight(o, half, Found(flat, deep))
    {
      hide Correct, AllCorrect, Times, Inside, HalfRight, Reliable, WrongZeros, OthersCorrect;
      PartOf(a, s, b, half, other, truth);
      var all := a + s + b;
      if AllCorrect(all, truth) {
        AllReliable(s, half, truth);
      } else if WrongZeros(all, truth) {
      } else if WrongFirsts(all, half, other, truth) {
        OthersInside(s, half, other, truth);
      }
    }

    /** A half that was counted again, or searched, has been checked. */
    lemma Checked(a: seq<Ask>, s: seq<Ask>, m: seq<Ask>, r: seq<Ask>, b: seq<Ask>, half: seq<Port>, flat: int, deep: int,
                  now: int, before: set<Port>, after: set<Port>)
      requires Half(before, half, flat, deep)
      requires Scanned(before, half, flat, deep, s) && After(before, after, half, deep, now, r)
      ensures Rechecked(a + s + m + r + b, half)
    {
      hide Times, HalfRight, Inside, Reliable, OthersCorrect, WrongZeros;
      var ps := if deep == -1 then half else Front(half);
      TimesJoin(a + s + m + r, b, ps);
      TimesJoin(a + s + m, r, ps);
      TimesJoin(a + s, m, ps);
      TimesJoin(a, s, ps);
    }

    /** Zeros that add up to no less than is there are right. */
    lemma ZerosAddUp(o: set<Port>, first: seq<Port>, second: seq<Port>, flat1: int, deep1: int, flat2: int, deep2: int,
                     s1: seq<Ask>, s2: seq<Ask>)
      requires Half(o, first, flat1, deep1) && Half(o, second, flat2, deep2)
      requires Scanned(o, first, flat1, deep1, s1) && Scanned(o, second, flat2, deep2, s2)
      requires WrongZeros(s1, truth) && WrongZeros(s2, truth)
      requires Found(flat1, deep1) + Found(flat2, deep2) >= Count(first, truth) + Count(second, truth)
      ensures HalfRight(o, first, Found(flat1, deep1)) && HalfRight(o, second, Found(flat2, deep2))
    {
      hide Times, Inside, Reliable, OthersCorrect, WrongZeros, HalfRight, HalfDone;
      if deep1 != -1 {
        RightCount(o, first, deep1);
      }
      if deep2 != -1 {
        RightCount(o, second, deep2);
      }
      assert Found(flat1, deep1) == Count(first, truth) && Found(flat2, deep2) == Count(second, truth);
      if deep1 == -1 {
        NothingFound(o, first, flat1);
      }
      if deep2 == -1 {
        NothingFound(o, second, flat2);
      }
    }

    /** The two halves of a slice after their first scan, and after they were counted again. */
    ghost predicate Halfway(ports: seq<Port>, o: set<Port>, flat1: int, deep1: int, flat2: int, deep2: int,
                            s1: seq<Ask>, s2: seq<Ask>)
    {
      && Apart(Front(ports), Back(ports))
      && Half(o, Front(ports), flat1, deep1) && Half(o, Back(ports), flat2, deep2)
      && Scanned(o, Front(ports), flat1, deep1, s1) && Scanned(o, Back(ports), flat2, deep2, s2)
      && Count(Front(ports), truth) + Count(Back(ports), truth) == Count(ports, truth)
    }

    /** Without a second count. */
    lemma TrustedOnce(ports: seq<Port>, o: set<Port>, flat1: int, deep1: int, flat2: int, deep2: int, s1: seq<Ask>, s2: seq<Ask>)
      requires Halfway(ports, o, flat1, deep1, flat2, deep2, s1, s2)
      requires Trusted(s1 + s2, ports, Found(flat1, deep1) + Found(flat2, deep2), truth)
      ensures HalfRight(o, Front(ports), Found(flat1, deep1)) && HalfRight(o, Back(ports), Found(flat2, deep2))
    {
      hide Times, HalfRight, Reliable, OthersCorrect, WrongZeros, Correct, Inside, Count, Front, Back, WrongFirsts, AllCorrect;
      var first, second := Front(ports), Back(ports);
      assert [] + s1 + s2 == s1 + s2 && s1 + s2 + [] == s1 + s2;
      HalfTrusted([], s1, s2, first, second, flat1, deep1, o);
      HalfTrusted(s1, s2, [], second, first, flat2, deep2, o);
      if WrongZeros(s1 + s2, truth) && !AllCorrect(s1 + s2, truth) &&
         Found(flat1, deep1) + Found(flat2, deep2) >= Count(ports, truth) {
        ZerosSplit(s1, s2, truth);
        ZerosAddUp(o, first, second, flat1, deep1, flat2, deep2, s1, s2);
      } else if !AllCorrect(s1 + s2, truth) {
        FirstsSwap(s1 + s2, first, second, truth);
        NotOnce(s1, s2, o, first, second, flat1, deep1);
        NotOnce(s2, s1, o, second, first, flat2, deep2);
      }
    }

    /** A half that was checked in the first scan was searched, or is empty. */
    lemma NotOnce(s: seq<Ask>, t: seq<Ask>, o: set<Port>, half: seq<Port>, other: seq<Port>, flat: int, deep: int)
      requires Apart(half, other) && Half(o, half, flat, deep) && Scanned(o, half, flat, deep, s) && Inside(t, other)
      requires Rechecked(s + t, half) || Rechecked(t + s, half)
      ensures deep == -1 ==> HalfRight(o, half, flat)
    {
      hide Times, Reliable, OthersCorrect, WrongZeros, Inside;
      if half != [] && deep == -1 {
        OnlyScanned(s, t, half, other);
        assert false;
      }
    }

    /** With a second count of what was not searched. */
    lemma TrustedTwice(ports: seq<Port>, expected: int, o: set<Port>, flat1: int, deep1: int, flat2: int, deep2: int,
                       s1: seq<Ask>, s2: seq<Ask>, after: set<Port>, now1: int, now2: int, r1: seq<Ask>, r2: seq<Ask>)
      requires Halfway(ports, o, flat1, deep1, flat2, deep2, s1, s2)
      requires After(o, after, Front(ports), deep1, now1, r1) && After(o, after, Back(ports), deep2, now2, r2)
      requires Trusted(s1 + s2 + r1 + r2, ports, expected, truth)
      ensures HalfRight(after, Front(ports), Found(now1, deep1)) && HalfRight(after, Back(ports), Found(now2, deep2))
    {
      hide Times, HalfRight, Reliable, OthersCorrect, WrongZeros, Correct, Inside, Count, Front, Back, WrongFirsts, AllCorrect;
      var first, second, all := Front(ports), Back(ports), s1 + s2 + r1 + r2;
      assert [] + s1 + (s2 + r1 + r2) == all && s1 + s2 + (r1 + r2) == all && all + [] == all;
      HalfTrusted([], s1, s2 + r1 + r2, first, second, flat1, deep1, o);
      HalfTrusted(s1, s2, r1 + r2, second, first, flat2, deep2, o);
      FirstsSwap(all, first, second, truth);
      TimesJoin(s1, s2, first);
      TimesJoin(s1, s2, second);
      TimesJoin(s1 + s2, r1, second);
      if deep1 == -1 {
        AgainReliable(s1 + s2, r1, r2, first, second, truth);
      }
      if deep2 == -1 {
        AgainReliable(s1 + s2 + r1, r2, [], second, first, truth);
      }
    }

    /**
     * Returns how many ports of the slice it has set open, whatever the counter says. Unless that is what was
     * expected, each half has been searched or counted twice. The right ports are open if the counter was
     * right; if its errors were zeros at first and the expected number is not too low; or if it erred in
     * nothing but the first counts of the halves, and both have been checked.
     */
    method TreeScan(ports: seq<Port>, expected: int) returns (ok: bool, total: int, ghost s: seq<Ask>)
      requires Sane(timing) && Distinct(ports) && Count(ports, open) == 0
      modifies this
      ensures Kept(old(timing), timing)
      ensures ok && ports == [] ==> Idled(old(timing), timing)
      ensures Exact() ==> ok && AllCorrect(s, truth)
      ensures ok ==> Grown(old(open), open, ports) && total == Count(ports, open) && 0 <= total <= |ports|
      ensures ok ==> log == old(log) + s && Narrower(s, ports)
      ensures ok ==> Times(s, Front(ports)) >= 1
      ensures ok ==> total == expected || (Rechecked(s, Front(ports)) && Rechecked(s, Back(ports)))
      ensures ok && Trusted(s, ports, expected, truth) ==> Right(open, ports, truth)
      decreases |ports| + 1, 3
    {
      hide Sane, Usable, Count, HalfDone, HalfRight, Scanned, After, Trusted, Rechecked, Inside, Times, Right, AllCorrect;
      var first, second := Front(ports), Back(ports);
      ghost var start := open;
      HalvesApart(ports, open);
      HalvesApart(ports, truth);
      var flat1, deep1, flat2, deep2;
      ghost var s1, s2;
      total, s := 0, [];
      ok, flat1, deep1, flat2, deep2, s1, s2 := ScanBoth(first, second);
      if !ok {
        return;
      }
      total, s := Found(flat1, deep1) + Found(flat2, deep2), s1 + s2;
      ghost var o, f1, f2 := open, flat1, flat2;
      AllJoin(s1, s2, truth);
      ScannedOnce(ports, o, flat1, deep1, flat2, deep2, s1, s2);
      if total != expected {
        ghost var r1, r2;
        ok, flat1, flat2, total, r1, r2 := RecountBoth(first, second, flat1, deep1, flat2, deep2);
        if !ok {
          return;
        }
        s := s1 + s2 + r1 + r2;
        AllJoin(s1 + s2, r1, truth);
        AllJoin(s1 + s2 + r1, r2, truth);
        Twice(ports, expected, o, f1, deep1, f2, deep2, s1, s2, open, flat1, flat2, r1, r2);
      } else if Trusted(s, ports, expected, truth) {
        TrustedOnce(ports, o, flat1, deep1, flat2, deep2, s1, s2);
      }
      MarkBoth(ports, start, Found(flat1, deep1), Found(flat2, deep2));
    }

    /** Sets open what was counted in halves of one port; then the slice is done. */
    method MarkBoth(ports: seq<Port>, ghost start: set<Port>, n1: int, n2: int)
      requires Distinct(ports) && HalfDone(open, Front(ports), n1) && HalfDone(open, Back(ports), n2) && Grown(start, open, ports)
      modifies this`open
      ensures Grown(start, open, ports) && n1 + n2 == Count(ports, open) && 0 <= n1 + n2 <= |ports|
      ensures old(HalfRight(open, Front(ports), n1) && HalfRight(open, Back(ports), n2)) ==> Right(open, ports, truth)
    {
      hide Count, HalfDone, HalfRight;
      var first, second := Front(ports), Back(ports);
      HalvesApart(ports, open);
      ghost var scanned := open;
      MarkSingle(first, n1);
      ghost var marked := open;
      HalfKept(scanned, marked, first, second, n2);
      MarkSingle(second, n2);
      HalfKept(marked, open, second, first, n1);
      HalvesApart(ports, open);
      CountAll(ports, open);
    }

    /** After the second count: all that was asked, and what it says. */
    lemma Twice(ports: seq<Port>, expected: int, o: set<Port>, flat1: int, deep1: int, flat2: int, deep2: int, s1: seq<Ask>,
                s2: seq<Ask>, after: set<Port>, now1: int, now2: int, r1: seq<Ask>, r2: seq<Ask>)
      requires Halfway(ports, o, flat1, deep1, flat2, deep2, s1, s2)
      requires After(o, after, Front(ports), deep1, now1, r1) && After(o, after, Back(ports), deep2, now2, r2)
      ensures var all := s1 + s2 + r1 + r2;
              && Narrower(all, ports) && Times(all, Front(ports)) >= 1
              && Rechecked(all, Front(ports)) && Rechecked(all, Back(ports))
              && (Trusted(all, ports, expected, truth) ==>
                    HalfRight(after, Front(ports), Found(now1, deep1)) && HalfRight(after, Back(ports), Found(now2, deep2)))
    {
      hide Times, Trusted, Rechecked, Scanned, After, Half, Narrower, Inside, Front, Back, Apart, Count;
      var all := s1 + s2 + r1 + r2;
      ScannedInside(o, Front(ports), flat1, deep1, s1);
      ScannedInside(o, Back(ports), flat2, deep2, s2);
      AfterInside(o, Front(ports), deep1, after, now1, r1);
      AfterInside(o, Back(ports), deep2, after, now2, r2);
      ScannedTimes(ports, s1, s2, r1, r2);
      assert [] + s1 + s2 + r1 + r2 == all && s1 + s2 + r1 + r2 + [] == all;
      Checked([], s1, s2, r1, r2, Front(ports), flat1, deep1, now1, o, after);
      Checked(s1, s2, r1, r2, [], Back(ports), flat2, deep2, now2, o, after);
      if Trusted(all, ports, expected, truth) {
        TrustedTwice(ports, expected, o, flat1, deep1, flat2, deep2, s1, s2, after, now1, now2, r1, r2);
      }
    }

    lemma ScannedInside(o: set<Port>, half: seq<Port>, flat: int, deep: int, s: seq<Ask>)
      requires Scanned(o, half, flat, deep, s)
      ensures Inside(s, half) && Times(s, half) == 1
    {
      hide Times, HalfRight, Reliable, OthersCorrect, WrongZeros;
    }

    lemma AfterInside(o: set<Port>, half: seq<Port>, deep: int, after: set<Port>, now: int, r: seq<Ask>)
      requires After(o, after, half, deep, now, r)
      ensures Inside(r, half)
    {
      hide Times, HalfRight, Reliable;
    }

    lemma ScannedOnce(ports: seq<Port>, o: set<Port>, flat1: int, deep1: int, flat2: int, deep2: int, s1: seq<Ask>, s2: seq<Ask>)
      requires Scanned(o, Front(ports), flat1, deep1, s1) && Scanned(o, Back(ports), flat2, deep2, s2)
      ensures Narrower(s1 + s2, ports) && Times(s1 + s2, Front(ports)) >= 1
    {
      hide Times, Scanned, Narrower, Front, Back;
      ScannedInside(o, Front(ports), flat1, deep1, s1);
      ScannedInside(o, Back(ports), flat2, deep2, s2);
      ScannedTimes(ports, s1, s2, [], []);
      assert s1 + s2 + [] + [] == s1 + s2;
    }

    lemma ScannedTimes(ports: seq<Port>, s1: seq<Ask>, s2: seq<Ask>, r1: seq<Ask>, r2: seq<Ask>)
      requires Inside(s1, Front(ports)) && Inside(s2, Back(ports)) && Inside(r1, Front(ports)) && Inside(r2, Back(ports))
      requires Times(s1, Front(ports)) == 1
      ensures Narrower(s1 + s2 + r1 + r2, ports) && Times(s1 + s2 + r1 + r2, Front(ports)) >= 1
    {
      hide Times;
      var first := Front(ports);
      TimesJoin(s1 + s2 + r1, r2, first);
      TimesJoin(s1 + s2, r1, first);
      TimesJoin(s1, s2, first);
      assert |Back(ports)| <= |first| && 2 * |first| <= |ports| + 1;
      assert forall s :: Inside(s, first) || Inside(s, Back(ports)) ==> Narrower(s, ports);
      NarrowJoin(s1, s2, ports);
      NarrowJoin(s1 + s2, r1, ports);
      NarrowJoin(s1 + s2 + r1, r2, ports);
    }

    /**
     * Searches the chunks one after the other; they cover each port once, in order. The right ports are open if
     * the counter erred in nothing but zeros for slices that it was asked about for the first time. With a lower limit
     * the loop ends, since counting makes the group large enough again, and with an upper one no chunk
     * is empty.
     */
    method ScanChunks(ports: seq<Port>) returns (ok: bool, chunks: seq<seq<Port>>, ghost s: seq<Ask>)
      requires Sane(timing) && timing.minGroup >= 1 && Distinct(ports) && Count(ports, open) == 0
      modifies this
      ensures Kept(old(timing), timing)
      ensures ok ==> Joined(chunks) == ports
      ensures old(Usable(timing)) ==> forall i :: 0 <= i < |chunks| ==> chunks[i] != []
      ensures ok ==> Grown(old(open), open, ports)
      ensures ok ==> log == old(log) + s
      ensures Exact() ==> ok && WrongZeros(s, truth)
      ensures ok && WrongZeros(s, truth) ==> Right(open, ports, truth)
    {
      hide Sane, Usable, Count, Grown, Right, Distinct, WrongZeros, AllCorrect, Trusted, Narrower, Rechecked, Times, Front, Back;
      chunks, ok, s := [], true, [];
      var at: nat := 0;
      ghost var start := open;
      Nothing(ports, open, truth);
      ChunkTrusted([], [], [], truth);
      while at < |ports|
        invariant at <= |ports| && Kept(old(timing), timing) && Joined(chunks) == ports[..at]
        invariant old(Usable(timing)) ==> forall i :: 0 <= i < |chunks| ==> chunks[i] != []
        invariant Grown(start, open, ports[..at])
        invariant log == old(log) + s && (Exact() ==> AllCorrect(s, truth))
        invariant WrongZeros(s, truth) ==> Right(open, ports[..at], truth)
        decreases |ports| - at, if Chunk(timing, |ports| - at) == 0 then 1 else 0
      {
        ghost var before := open;
        ChunkBounded(timing, |ports| - at);
        var size := Chunk(timing, |ports| - at);
        var chunk := ports[at..at + size];
        ghost var found, asks;
        Slices(ports, at, at + size);
        NoneYet(ports, at, at + size, start, open);
        ok, found, asks := TreeScan(chunk, -1);
        if !ok {
          return;
        }
        ChunkDone(ports, at, at + size, start, before, open, truth);
        ChunkTrusted(s, asks, chunk, truth);
        s := s + asks;
        JoinedStep(chunks, chunk);
        chunks := chunks + [chunk];
        at := at + size;
        ChunkBounded(timing, |ports| - at);
      }
      assert ports[..at] == ports;
      ChunkTrusted(s, [], [], truth);
    }

    /** Scans all ports and gives each of them a state. */
    method ScanPorts(ports: seq<Port>) returns (ok: bool, states: map<Port, PortState>, ghost s: seq<Ask>)
      requires Sane(timing) && timing.minGroup >= 1 && Distinct(ports) && Count(ports, open) == 0
      modifies this
      ensures Kept(old(timing), timing)
      ensures ok ==> forall p :: p in states <==> p in ports
      ensures ok ==> forall p :: p in ports ==> (states[p] == Open <==> p in open)
      ensures ok ==> log == old(log) + s
      ensures Exact() ==> ok && WrongZeros(s, truth)
      ensures ok && WrongZeros(s, truth) ==> forall p :: p in ports ==> (states[p] == Open <==> p in truth)
    {
      hide Sane, Usable, Count, WrongZeros;
      states := map[];
      var chunks;
      ok, chunks, s := ScanChunks(ports);
      if !ok {
        return;
      }
      for i := 0 to |ports|
        modifies {}
        invariant forall p :: p in states <==> p in ports[..i]
        invariant forall p :: p in ports[..i] ==> (states[p] == Open <==> p in open)
      {
        assert ports[..i + 1] == ports[..i] + [ports[i]];
        states := states[ports[i] := if ports[i] in open then Open else ClosedFiltered];
      }
      assert ports[..|ports|] == ports;
    }
  }

  /** Are just the right ports of the slice open? */
  predicate Right(open: set<Port>, ports: seq<Port>, truth: set<Port>) { forall p :: p in ports ==> (p in open <==> p in truth) }

  lemma {:induction false} Nothing(ports: seq<Port>, open: set<Port>, truth: set<Port>)
    ensures Grown(open, open, ports[..0]) && Right(open, ports[..0], truth) && Joined([]) == ports[..0]
  {
  }

  /** The next chunk has no open port yet. */
  lemma {:induction false} NoneYet(ports: seq<Port>, i: nat, j: nat, start: set<Port>, open: set<Port>)
    requires i <= j <= |ports| && Distinct(ports) && Count(ports, start) == 0 && Grown(start, open, ports[..i])
    ensures Count(ports[i..j], open) == 0
  {
    Slices(ports, i, j);
    CountNone(ports, start);
    CountNone(ports[i..j], start);
    Elsewhere(start, open, ports[..i], ports[i..j]);
  }

  lemma {:induction false} ChunkDone(ports: seq<Port>, i: nat, j: nat, start: set<Port>, before: set<Port>, after: set<Port>,
                                     truth: set<Port>)
    requires i <= j <= |ports| && Distinct(ports) && Grown(start, before, ports[..i]) && Grown(before, after, ports[i..j])
    ensures Grown(start, after, ports[..j])
    ensures Right(before, ports[..i], truth) && Right(after, ports[i..j], truth) ==> Right(after, ports[..j], truth)
  {
    Slices(ports, i, j);
  }

  lemma {:induction false} Slices(ports: seq<Port>, i: nat, j: nat)
    requires i <= j <= |ports| && Distinct(ports)
    ensures Distinct(ports[i..j]) && ports[..j] == ports[..i] + ports[i..j]
    ensures forall p :: p in ports[i..j] ==> p in ports && p !in ports[..i]
  {
  }

  /** A chunk is searched with no expectation, so that zeros at first are found out. */
  lemma ChunkTrusted(s: seq<Ask>, asks: seq<Ask>, chunk: seq<Port>, truth: set<Port>)
    ensures WrongZeros(s + asks, truth) ==> WrongZeros(s, truth) && Trusted(asks, chunk, -1, truth)
    ensures AllCorrect(s, truth) && AllCorrect(asks, truth) ==> AllCorrect(s + asks, truth)
    ensures AllCorrect(s, truth) ==> WrongZeros(s, truth)
    ensures AllCorrect([], truth)
  {
    hide Correct, FirstAsk;
    if WrongZeros(s + asks, truth) {
      ZerosSplit(s, asks, truth);
    }
  }

  function Joined(chunks: seq<seq<Port>>): seq<Port>
  {
    if chunks == [] then [] else Joined(chunks[..|chunks| - 1]) + chunks[|chunks| - 1]
  }

  lemma {:induction false} JoinedStep(chunks: seq<seq<Port>>, c: seq<Port>)
    ensures Joined(chunks + [c]) == Joined(chunks) + c
  {
    assert (chunks + [c])[..|chunks|] == chunks;
  }

  /** Halves of at most one port are not searched. */
  function Rank(half: seq<Port>): nat { if |half| <= 1 then 0 else |half| + 1 }

  lemma {:induction false} OneCount(p: Port, s: set<Port>)
    ensures Count([p], s) == if p in s then 1 else 0
  {
    assert [p][..0] == [];
    assert Count([], s) == 0;
  }

  lemma {:induction false} HalvesApart(ports: seq<Port>, s: set<Port>)
    requires Distinct(ports)
    ensures Front(ports) + Back(ports) == ports && Apart(Front(ports), Back(ports))
    ensures forall p :: p in ports <==> p in Front(ports) || p in Back(ports)
    ensures Count(ports, s) == Count(Front(ports), s) + Count(Back(ports), s)
  {
    Halves(ports, (|ports| + 1) / 2, s);
  }

  lemma {:induction false} Halves(ports: seq<Port>, h: nat, s: set<Port>)
    requires h <= |ports| && (h == |ports| ==> h <= 1) && (h == 0 ==> ports == []) && Distinct(ports)
    ensures Apart(ports[..h], ports[h..])
    ensures forall p :: p in ports <==> p in ports[..h] || p in ports[h..]
    ensures Count(ports, s) == Count(ports[..h], s) + Count(ports[h..], s)
  {
    assert ports == ports[..h] + ports[h..];
    CountJoin(ports[..h], ports[h..], s);
  }
}
