/** One host in the IPv6 OS detection engine: its probes, their responses, and the best timed round. */
module FpRounds {
  import opened Options
  import opened FpTimeout

  /** `sent` is the time of the last transmission; 0 means that there was none. */
  datatype Probe = Probe(retransmissions: nat, replies: nat, failed: bool, sent: nat)

  type Packet = nat

  type Round = seq<Option<Packet>>

  function Count(r: Round): nat
  {
    if r == [] then 0 else Count(r[..|r| - 1]) + if r[|r| - 1].Some? then 1 else 0
  }

  function Silent(n: nat): Round { seq(n, _ => None) }

  /** The round that is saved after `rounds`: the first of those with the most responses. */
  function Saved(rounds: seq<Round>, n: nat): Round
  {
    if rounds == [] then Silent(n)
    else
      var before, last := Saved(rounds[..|rounds| - 1], n), rounds[|rounds| - 1];
      if Count(last) > Count(before) then last else before
  }

  /** The round that is used in the end. */
  function Chosen(rounds: seq<Round>, current: Round): Round
  {
    if Count(Saved(rounds, |current|)) > Count(current) then Saved(rounds, |current|) else current
  }

  lemma {:induction false} SilentCount(n: nat)
    ensures Count(Silent(n)) == 0
    decreases n
  {
    if n > 0 {
      assert Silent(n)[..n - 1] == Silent(n - 1);
      SilentCount(n - 1);
    }
  }

  lemma {:induction false} SavedBest(rounds: seq<Round>, n: nat)
    ensures forall i :: 0 <= i < |rounds| ==> Count(rounds[i]) <= Count(Saved(rounds, n))
    ensures Saved(rounds, n) in rounds || Count(Saved(rounds, n)) == 0
    decreases |rounds|
  {
    if rounds == [] {
      SilentCount(n);
    } else {
      SavedBest(rounds[..|rounds| - 1], n);
    }
  }

  /** The responses that are used are those of one single round, and no round has more; the last round wins ties. */
  lemma {:induction false} BestRoundWins(rounds: seq<Round>, current: Round)
    ensures Chosen(rounds, current) in rounds + [current]
    ensures forall r :: r in rounds + [current] ==> Count(r) <= Count(Chosen(rounds, current))
    ensures (forall r :: r in rounds ==> Count(r) <= Count(current)) ==> Chosen(rounds, current) == current
  {
    SavedBest(rounds, |current|);
    assert (rounds + [current])[|rounds|] == current;
    forall r | r in rounds + [current] ensures Count(r) <= Count(Chosen(rounds, current)) {
      if r != current {
        assert r in rounds;
      }
    }
    if Saved(rounds, |current|) in rounds {
      assert Saved(rounds, |current|) in rounds + [current];
    }
  }

  lemma {:induction false} CountSet(r: Round, i: nat, p: Packet)
    requires i < |r| && r[i].None?
    ensures Count(r[i := Some(p)]) == Count(r) + 1
    decreases |r|
  {
    var n := |r|;
    if i < n - 1 {
      CountSet(r[..n - 1], i, p);
      assert r[i := Some(p)][..n - 1] == r[..n - 1][i := Some(p)];
    } else {
      assert r[i := Some(p)][..n - 1] == r[..n - 1];
    }
  }

  lemma {:induction false} CountSplit(r: Round, k: nat)
    requires k <= |r|
    ensures Count(r) == Count(r[..k]) + Count(r[k..])
    decreases |r|
  {
    if k < |r| {
      CountSplit(r[..|r| - 1], k);
      assert r[..|r| - 1][..k] == r[..k];
      assert r[k..][..|r[k..]| - 1] == r[..|r| - 1][k..];
    } else {
      assert r[..k] == r && r[k..] == [];
    }
  }

  lemma {:induction false} SavedStep(rounds: seq<Round>, r: Round, n: nat)
    ensures Saved(rounds + [r], n) == if Count(r) > Count(Saved(rounds, n)) then r else Saved(rounds, n)
  {
    assert (rounds + [r])[..|rounds|] == rounds;
  }

  /** Taking back the first `k` responses. */
  lemma {:induction false} NowSilent(before: Round, after: Round, k: nat)
    requires k <= |before| == |after| && after[..k] == Silent(k) && after[k..] == before[k..]
    ensures Count(before) == Count(before[..k]) + Count(after)
  {
    CountSplit(before, k);
    CountSplit(after, k);
    SilentCount(k);
  }

  lemma {:induction false} CountNone(r: Round)
    ensures r == [] ==> Count(r) == 0
  {
  }

  lemma {:induction false} CountNext(r: Round, i: nat)
    requires i < |r|
    ensures Count(r[..i + 1]) == Count(r[..i]) + if r[i].Some? then 1 else 0
  {
    assert r[..i + 1][..i] == r[..i];
  }

  /** How many probes have been given up. */
  function Failed(ps: seq<Probe>): nat
  {
    if ps == [] then 0 else Failed(ps[..|ps| - 1]) + if ps[|ps| - 1].failed then 1 else 0
  }

  lemma {:induction false} FailedSet(ps: seq<Probe>, i: nat, p: Probe)
    requires i < |ps|
    ensures Failed(ps[i := p]) == Failed(ps) + (if p.failed then 1 else 0) - (if ps[i].failed then 1 else 0)
    decreases |ps|
  {
    var n := |ps|;
    if i < n - 1 {
      FailedSet(ps[..n - 1], i, p);
      assert ps[i := p][..n - 1] == ps[..n - 1][i := p];
    } else {
      assert ps[i := p][..n - 1] == ps[..n - 1];
    }
  }

  /**
   * A host under detection. `rounds` are the responses of all earlier transmission rounds of the timed
   * probes, which are the first `timedProbes` ones; after the end it includes the last round.
   */
  class Host {
    const totalProbes: nat
    const timedProbes: nat
    const maxTries: nat
    const probes: array<Probe>
    const responses: array<Option<Packet>>
    const aux: array<Option<Packet>>
    const timer: Timer
    var probesSent: nat
    var probesAnswered: nat
    var probesUnanswered: nat
    var timedSent: bool
    var detectionDone: bool
    ghost var rounds: seq<Round>

    constructor (totalProbes: nat, timedProbes: nat, maxTries: nat, rto: int)
      requires timedProbes <= totalProbes
      ensures Valid() && rounds == [] && !detectionDone && !timedSent
      ensures this.totalProbes == totalProbes && this.timedProbes == timedProbes && this.maxTries == maxTries
      ensures probesSent == probesAnswered == probesUnanswered == 0 && timer.Now() == Estimate(-1, -1, rto)
      ensures forall i :: 0 <= i < totalProbes ==> probes[i] == Probe(0, 0, false, 0) && responses[i].None?
      ensures fresh(probes) && fresh(responses) && fresh(aux) && fresh(timer)
    {
      this.totalProbes, this.timedProbes, this.maxTries := totalProbes, timedProbes, maxTries;
      probes := new Probe[totalProbes](_ => Probe(0, 0, false, 0));
      responses := new Option<Packet>[totalProbes](_ => None);
      aux := new Option<Packet>[timedProbes](_ => None);
      timer := new Timer(rto);
      probesSent, probesAnswered, probesUnanswered, timedSent, detectionDone := 0, 0, 0, false, false;
      rounds := [];
      new;
      SilentCount(totalProbes);
      assert responses[..] == Silent(totalProbes);
      assert aux[..] == Silent(timedProbes);
    }

    ghost predicate Shape()
      reads this
    {
      && timedProbes <= totalProbes
      && probes.Length == responses.Length == totalProbes
      && aux.Length == timedProbes
      && responses != aux
      && probesSent <= totalProbes
      && (timedProbes > 0 && !timedSent ==> probesSent == 0)
      && (timedSent ==> timedProbes <= probesSent)
    }

    ghost function Current(): Round
      reads this, responses
      requires Shape()
    {
      responses[..timedProbes]
    }

    /** What holds between all calls, in every interleaving of them. */
    ghost predicate Valid()
      reads this, responses, aux
    {
      && Shape()
      && (!detectionDone ==> probesAnswered == Count(responses[..]) && aux[..] == Saved(rounds, timedProbes))
      && (detectionDone ==> Finished())
    }

    /** The timed responses are those of one round, and no round had more of them. */
    ghost predicate Finished()
      reads this, responses
      requires Shape()
    {
      Current() in rounds && forall r :: r in rounds ==> Count(r) <= Count(Current())
    }

    method CountResponses(a: array<Option<Packet>>, n: nat) returns (c: nat)
      requires n <= a.Length
      ensures c == Count(a[..n])
    {
      c := 0;
      for i := 0 to n
        invariant c == Count(a[..i])
      {
        assert a[..i + 1][..i] == a[..i];
        if a[i].Some? {
          c := c + 1;
        }
      }
    }

    /** Everything has been answered or given up: keep the better set of timed responses. */
    method SetDoneAndWrapUp()
      requires Shape() && aux[..] == Saved(rounds, timedProbes)
      modifies this`detectionDone, this`rounds, responses, aux
      ensures Valid() && detectionDone && rounds == old(rounds) + [old(Current())]
      ensures Current() == Chosen(old(rounds), old(Current()))
      ensures responses[timedProbes..] == old(responses[timedProbes..])
    {
      detectionDone := true;
      ghost var current := Current();
      assert aux[..timedProbes] == aux[..];
      BestRoundWins(rounds, current);
      var stored := CountResponses(aux, timedProbes);
      var now := CountResponses(responses, timedProbes);
      if stored > now {
        UseSaved();
      } else {
        DropSaved();
      }
      rounds := rounds + [current];
    }

    method UseSaved()
      requires Shape()
      modifies responses, aux
      ensures Current() == old(aux[..]) && responses[timedProbes..] == old(responses[timedProbes..])
    {
      for i := 0 to timedProbes
        invariant forall j :: 0 <= j < i ==> responses[j] == old(aux[j])
        invariant forall j :: i <= j < totalProbes ==> responses[j] == old(responses[j])
        invariant forall j :: i <= j < timedProbes ==> aux[j] == old(aux[j])
      {
        responses[i] := aux[i];
        aux[i] := None;
      }
    }

    method DropSaved()
      requires Shape()
      modifies aux
      ensures forall j :: 0 <= j < timedProbes ==> aux[j].None?
    {
      for i := 0 to timedProbes
        invariant forall j :: 0 <= j < i ==> aux[j].None?
      {
        aux[i] := None;
      }
    }

    /** The network controller has sent probe `i`, or has failed to. */
    method Transmitted(i: nat, now: nat, sent: bool)
      requires Valid() && i < probesSent && now > 0
      modifies probes, this`probesUnanswered
      ensures Valid() && probesUnanswered == old(probesUnanswered) + if sent then 0 else 1
      ensures probes[..] == old(probes[..])[i := old(probes[i]).(sent := now, failed := old(probes[i]).failed || !sent)]
    {
      if !sent {
        probes[i] := probes[i].(failed := true);
        probesUnanswered := probesUnanswered + 1;
      }
      probes[i] := probes[i].(sent := now);
    }

    /**
     * A packet has been captured that answers the probes in `matches`; `usecs` is the time since its probe
     * was sent. The first such probe without a response takes it.
     */
    method Callback(packet: Packet, matches: set<nat>, usecs: nat) returns (times: int)
      requires Valid()
      modifies this, probes, responses, aux, timer
      ensures Valid()
      ensures old(detectionDone) ==> times < 0
      ensures probesUnanswered == old(probesUnanswered) && probesSent == old(probesSent) && timedSent == old(timedSent)
      ensures times < 0 ==> responses[..] == old(responses[..]) && rounds == old(rounds) && detectionDone == old(detectionDone)
      ensures times < 0 ==> probes[..] == old(probes[..]) && timer.Now() == old(timer.Now())
      ensures times < 0 && !old(detectionDone) ==>
                forall j :: 0 <= j < probesSent ==> j !in matches || old(responses[j]).Some?
      ensures times >= 0 ==>
                && probesAnswered == old(probesAnswered) + 1
                && (detectionDone <==> probesAnswered + probesUnanswered == totalProbes)
      ensures forall j :: 0 <= j < totalProbes ==> probes[j] == old(probes[j]).(replies := probes[j].replies)
      ensures times >= 0 ==>
                exists i: nat ::
                  && i < old(probesSent)
                  && i in matches
                  && old(responses[i]).None?
                  && (forall j :: 0 <= j < i ==> j !in matches || old(responses[j]).Some?)
                  && (times == 0 <==> i < timedProbes && old(probes[i]).retransmissions > 0 && old(probes[i]).replies > 0)
                  && (times == 0 || times == old(probes[i]).retransmissions + 1)
                  && probes[..] == old(probes[..])[i := old(probes[i]).(replies := old(probes[i]).replies + 1)]
                  && timer.Now() == FpTimeout.Updated(old(timer.Now()), usecs, old(probes[i]).retransmissions != 0)
                  && Took(old(responses[..]), old(rounds), i, packet)
    {
      hide Count, Saved, Chosen;
      if detectionDone {
        return -1;
      }
      for i := 0 to probesSent
        invariant forall j :: 0 <= j < i ==> j !in matches || responses[j].Some?
        invariant probesSent == old(probesSent)
        invariant responses[..] == old(responses[..]) && probes[..] == old(probes[..]) && unchanged(this) && unchanged(timer)
        invariant Valid()
      {
        if responses[i].None? && i in matches {
          CountSet(responses[..], i, packet);
          responses[i] := Some(packet);
          assert responses[..] == old(responses[..])[i := Some(packet)];
          probes[i] := probes[i].(replies := probes[i].replies + 1);
          if i < timedProbes && probes[i].retransmissions > 0 && probes[i].replies > 1 {
            times := 0;
          } else {
            times := probes[i].retransmissions + 1;
          }
          probesAnswered := probesAnswered + 1;
          timer.UpdateRto(usecs, probes[i].retransmissions != 0);
          if probesAnswered + probesUnanswered == totalProbes {
            SetDoneAndWrapUp();
          }
          assert Took(old(responses[..]), old(rounds), i, packet);
          return;
        }
      }
      times := -3;
    }

    /** The response of probe `i` was stored, and nothing else changed but what the end of detection changes. */
    ghost predicate Took(before: Round, earlier: seq<Round>, i: nat, packet: Packet)
      reads this, responses
    {
      && Shape() && i < |before| == totalProbes
      && var got := before[i := Some(packet)];
         if detectionDone then
           && rounds == earlier + [got[..timedProbes]]
           && Current() == Chosen(earlier, got[..timedProbes])
           && responses[timedProbes..] == got[timedProbes..]
         else rounds == earlier && responses[..] == got
    }

    /** Asks for something to send, at time `now`; the network controller grants slots or not. */
    method Schedule(now: int, granted: bool) returns (ok: bool)
      requires Valid()
      modifies this, probes, responses, aux
      ensures Valid()
      ensures old(detectionDone) ==> detectionDone && responses[..] == old(responses[..]) && rounds == old(rounds)
      ensures !old(detectionDone) ==>
                (detectionDone <==> old(probesAnswered) + old(probesUnanswered) == totalProbes)
      ensures !old(detectionDone) && detectionDone ==>
                && rounds == old(rounds) + [old(Current())]
                && Current() == Chosen(old(rounds), old(Current()))
                && responses[timedProbes..] == old(responses[timedProbes..])
      ensures probesUnanswered + old(Failed(probes[..])) == old(probesUnanswered) + Failed(probes[..])
      ensures detectionDone ==> probes[..] == old(probes[..]) && probesSent == old(probesSent)
      ensures probesUnanswered >= old(probesUnanswered)
      ensures !detectionDone ==>
                if timedProbes > 0 && (!old(timedSent) || old(probes[timedProbes - 1]).sent == 0) then
                  probes[..] == old(probes[..]) && Kept(old(responses[..]), old(rounds))
                else
                  && ProbesStep(old(probes[..]), old(responses[..]), now)
                  && (if RoundDue(old(probes[..]), old(responses[..]), now) then RoundOver(old(responses[..]), old(rounds))
                      else Kept(old(responses[..]), old(rounds)))
      ensures timedSent <==> old(timedSent) || (!detectionDone && granted && timedProbes > 0)
      ensures probesSent ==
              if !granted || detectionDone then old(probesSent)
              else if timedProbes > 0 && !old(timedSent) then timedProbes
              else if timedProbes > 0 && old(probes[timedProbes - 1]).sent == 0 then old(probesSent)
              else if old(probesSent) < totalProbes then old(probesSent) + 1
              else totalProbes
    {
      hide Failed;
      if detectionDone || probesAnswered + probesUnanswered == totalProbes {
        if !detectionDone {
          SetDoneAndWrapUp();
        }
        return true;
      }
      if timedProbes > 0 && !timedSent {
        if granted {
          timedSent := true;
          probesSent := probesSent + timedProbes;
        }
        return granted;
      }
      if timedProbes > 0 && probes[timedProbes - 1].sent == 0 {
        return false;
      }
      if probesSent < totalProbes && granted {
        probesSent := probesSent + 1;
      }
      ok := CheckTimeouts(now);
    }

    method CheckTimeouts(now: int) returns (ok: bool)
      requires Valid() && !detectionDone
      modifies this`probesUnanswered, this`probesAnswered, this`rounds, probes, responses, aux
      ensures Valid()
      ensures ProbesStep(old(probes[..]), old(responses[..]), now)
      ensures if RoundDue(old(probes[..]), old(responses[..]), now) then RoundOver(old(responses[..]), old(rounds))
              else Kept(old(responses[..]), old(rounds))
      ensures probesUnanswered >= old(probesUnanswered)
      ensures probesUnanswered + old(Failed(probes[..])) == old(probesUnanswered) + Failed(probes[..])
    {
      hide Failed, Count, Saved;
      ghost var before, answers := probes[..], responses[..];
      CheckRegular(now);
      ghost var mid := probes[..];
      ghost var stop: nat :| RegularStep(before, answers, now, stop);
      if timedProbes == 0 {
        assert TimedStep(before, answers, now, 0);
        return true;
      }
      assert RoundDue(mid, answers, now) == RoundDue(before, answers, now);
      ok := CheckTimed(now);
      ghost var stopTimed: nat :| TimedStep(mid, answers, now, stopTimed);
      assert TimedStep(before, answers, now, stopTimed);
      assert RegularStep(before, answers, now, stop);
    }

    ghost predicate Kept(before: Round, earlier: seq<Round>)
      reads this, responses
    {
      responses[..] == before && rounds == earlier
    }

    /** All timed probes are sent again: their responses were saved or dropped, the others are untouched. */
    ghost predicate RoundOver(before: Round, earlier: seq<Round>)
      reads this, responses
    {
      && Shape() && |before| == totalProbes
      && rounds == earlier + [before[..timedProbes]]
      && Current() == Silent(timedProbes)
      && Count(before[..timedProbes]) < timedProbes
      && responses[timedProbes..] == before[timedProbes..]
    }

    predicate TimedOut(p: Probe, now: int)
      reads timer
    {
      p.sent != 0 && !p.failed && now - p.sent >= timer.rto
    }

    /** The probe has timed out and may be sent again. */
    predicate Again(p: Probe, now: int)
      reads this, timer
    {
      TimedOut(p, now) && p.retransmissions < maxTries
    }

    predicate Exhausted(p: Probe, now: int)
      reads this, timer
    {
      TimedOut(p, now) && p.retransmissions >= maxTries
    }

    /** Where the walk over the other probes ends: at the first that is due and not exhausted, or behind them. */
    ghost predicate RegularStop(before: seq<Probe>, answers: Round, now: int, stop: nat)
      reads this, timer
    {
      && timedProbes <= stop <= totalProbes == |before| == |answers| && probesSent <= totalProbes
      && (stop <= probesSent || stop == timedProbes)
      && (forall i :: timedProbes <= i < stop ==> answers[i].Some? || !Again(before[i], now))
      && (stop < probesSent ==> answers[stop].None? && Again(before[stop], now))
    }

    /** Of the other probes, those that are exhausted are given up, and that at the end of the walk is sent again. */
    ghost function RegularAfter(before: seq<Probe>, answers: Round, now: int, stop: nat, i: nat): Probe
      reads this, timer
      requires i < |before| == |answers|
    {
      if timedProbes <= i < stop && answers[i].None? && Exhausted(before[i], now) then before[i].(failed := true)
      else if i == stop < probesSent then before[i].(retransmissions := before[i].retransmissions + 1)
      else before[i]
    }

    /** What the walk leaves of the other probes; no more than one is sent again. */
    ghost predicate RegularStep(before: seq<Probe>, answers: Round, now: int, stop: nat)
      reads this, probes, timer
    {
      && RegularStop(before, answers, now, stop) && probes.Length == totalProbes
      && forall i :: timedProbes <= i < totalProbes ==> probes[i] == RegularAfter(before, answers, now, stop, i)
    }

    method GiveUp(i: nat)
      requires Shape() && i < totalProbes && !probes[i].failed
      modifies this`probesUnanswered, probes
      ensures probes[..] == old(probes[..])[i := old(probes[i]).(failed := true)]
      ensures probesUnanswered == old(probesUnanswered) + 1 && Failed(probes[..]) == old(Failed(probes[..])) + 1
    {
      hide Failed;
      ghost var was := probes[..];
      FailedSet(was, i, was[i].(failed := true));
      probes[i] := probes[i].(failed := true);
      assert probes[..] == was[i := probes[i]];
      probesUnanswered := probesUnanswered + 1;
    }

    /** One of the other probes that has timed out is sent again; those tried too often are given up. */
    method CheckRegular(now: int)
      requires Shape()
      modifies this`probesUnanswered, probes
      ensures exists stop: nat :: RegularStep(old(probes[..]), responses[..], now, stop)
      ensures forall i :: 0 <= i < timedProbes ==> probes[i] == old(probes[i])
      ensures probesUnanswered >= old(probesUnanswered)
      ensures probesUnanswered + old(Failed(probes[..])) == old(probesUnanswered) + Failed(probes[..])
    {
      hide Failed;
      ghost var before := probes[..];
      var i := timedProbes;
      while i < probesSent
        invariant timedProbes <= i <= totalProbes && (i <= probesSent || i == timedProbes)
        invariant forall j :: timedProbes <= j < i ==> responses[j].Some? || !Again(before[j], now)
        invariant forall j :: 0 <= j < totalProbes ==>
                    probes[j] ==
                    if timedProbes <= j < i && responses[j].None? && Exhausted(before[j], now) then before[j].(failed := true)
                    else before[j]
        invariant probesUnanswered >= old(probesUnanswered)
        invariant probesUnanswered + Failed(before) == old(probesUnanswered) + Failed(probes[..])
      {
        ghost var was := probes[..];
        if responses[i].None? && TimedOut(probes[i], now) {
          if probes[i].retransmissions >= maxTries {
            GiveUp(i);
          } else {
            FailedSet(was, i, was[i].(retransmissions := was[i].retransmissions + 1));
            probes[i] := probes[i].(retransmissions := probes[i].retransmissions + 1);
            assert probes[..] == was[i := probes[i]];
            assert RegularStep(before, responses[..], now, i);
            return;
          }
        }
        i := i + 1;
      }
      assert RegularStep(before, responses[..], now, i);
    }

    /** Every timed probe is answered or due and not exhausted, and some are due. */
    ghost predicate RoundDue(before: seq<Probe>, answers: Round, now: int)
      reads this, timer
    {
      && |before| == |answers| >= timedProbes
      && Count(answers[..timedProbes]) < timedProbes
      && forall i :: 0 <= i < timedProbes && answers[i].None? ==> Again(before[i], now)
    }

    /** Where the walk over the timed probes ends: at the first that has not been sent yet, or behind them. */
    ghost predicate TimedStop(before: seq<Probe>, answers: Round, stop: nat)
      reads this
    {
      && stop <= timedProbes <= totalProbes == |before| == |answers|
      && (forall i :: 0 <= i < stop ==> answers[i].Some? || before[i].sent != 0)
      && (stop < timedProbes ==> answers[stop].None? && before[stop].sent == 0)
    }

    /** The timed probes that are exhausted are given up; if all that is left is due, all are sent again instead. */
    ghost function TimedAfter(before: seq<Probe>, answers: Round, now: int, stop: nat, i: nat): Probe
      reads this, timer
      requires i < |before| == |answers|
    {
      if RoundDue(before, answers, now) then before[i].(retransmissions := before[i].retransmissions + 1)
      else if i < stop && answers[i].None? && Exhausted(before[i], now) then before[i].(failed := true)
      else before[i]
    }

    ghost predicate TimedStep(before: seq<Probe>, answers: Round, now: int, stop: nat)
      reads this, probes, timer
    {
      && TimedStop(before, answers, stop) && probes.Length == totalProbes
      && forall i :: 0 <= i < timedProbes ==> probes[i] == TimedAfter(before, answers, now, stop, i)
    }

    /** What asking for something to send does to the probes that have been sent. */
    ghost predicate ProbesStep(before: seq<Probe>, answers: Round, now: int)
      reads this, probes, timer
    {
      && (exists stop: nat :: RegularStep(before, answers, now, stop))
      && (exists stop: nat :: TimedStep(before, answers, now, stop))
    }

    /** The timed probes up to `n`, after those that are exhausted have been given up. */
    ghost predicate GivenUp(before: seq<Probe>, now: int, n: nat)
      reads this, probes, responses, timer
    {
      && Shape() && |before| == totalProbes && n <= timedProbes
      && (forall j :: 0 <= j < n ==> responses[j].Some? || before[j].sent != 0)
      && (forall j :: 0 <= j < totalProbes ==>
            probes[j] == if j < n && responses[j].None? && Exhausted(before[j], now) then before[j].(failed := true)
                         else before[j])
    }

    /**
     * Counts the answered and the timed out timed probes, and gives up those that are exhausted, up to
     * the first that waits to be sent. `ready` says that all are answered or may be sent again.
     */
    method SurveyTimed(now: int) returns (waiting: bool, ready: bool, answered: nat, stop: nat)
      requires Shape() && timedProbes > 0
      modifies this`probesUnanswered, probes
      ensures GivenUp(old(probes[..]), now, stop)
      ensures waiting <==> stop < timedProbes
      ensures waiting ==> responses[stop].None? && old(probes[stop]).sent == 0
      ensures !waiting ==> answered == Count(responses[..timedProbes])
      ensures ready <==> !waiting && Count(responses[..timedProbes]) < timedProbes &&
                         forall j :: 0 <= j < timedProbes && responses[j].None? ==> Again(old(probes[j]), now)
      ensures probesUnanswered >= old(probesUnanswered)
      ensures probesUnanswered + old(Failed(probes[..])) == old(probesUnanswered) + Failed(probes[..])
    {
      hide Failed, Count;
      CountNone(responses[..0]);
      ghost var before := probes[..];
      var timedOut: nat, failed := 0, false;
      answered, stop, waiting, ready := 0, 0, false, false;
      while stop < timedProbes
        invariant stop <= timedProbes && GivenUp(before, now, stop)
        invariant answered == Count(responses[..stop]) && answered + timedOut <= stop
        invariant (!failed && answered + timedOut == stop) <==>
                  forall j :: 0 <= j < stop && responses[j].None? ==> Again(before[j], now)
        invariant probesUnanswered >= old(probesUnanswered)
        invariant probesUnanswered + Failed(before) == old(probesUnanswered) + Failed(probes[..])
      {
        var i := stop;
        CountNext(responses[..], i);
        assert responses[..][..i] == responses[..i] && responses[..][..i + 1] == responses[..i + 1];
        ghost var was := probes[..];
        if responses[i].Some? {
          answered := answered + 1;
        } else if probes[i].sent == 0 {
          waiting := true;
          return;
        } else if probes[i].failed {
          failed := true;
        } else if now - probes[i].sent >= timer.rto {
          if probes[i].retransmissions >= maxTries {
            GiveUp(i);
          } else {
            timedOut := timedOut + 1;
          }
        }
        stop := stop + 1;
      }
      ready := !failed && timedOut > 0 && answered + timedOut == timedProbes;
    }

    method CheckTimed(now: int) returns (ok: bool)
      requires Valid() && !detectionDone && timedProbes > 0
      modifies this`probesUnanswered, this`probesAnswered, this`rounds, probes, responses, aux
      ensures Valid()
      ensures if RoundDue(old(probes[..]), old(responses[..]), now) then RoundOver(old(responses[..]), old(rounds))
              else Kept(old(responses[..]), old(rounds))
      ensures exists stop: nat :: TimedStep(old(probes[..]), old(responses[..]), now, stop)
      ensures forall i :: timedProbes <= i < totalProbes ==> probes[i] == old(probes[i])
      ensures probesUnanswered >= old(probesUnanswered)
      ensures probesUnanswered + old(Failed(probes[..])) == old(probesUnanswered) + Failed(probes[..])
    {
      hide Failed, Saved, Count;
      ghost var before, answers := probes[..], responses[..];
      var waiting, ready, answered, stop := SurveyTimed(now);
      assert responses[..timedProbes] == answers[..timedProbes];
      if waiting {
        assert !Again(before[stop], now);
        assert TimedStep(before, answers, now, stop);
        return true;
      }
      assert ready <==> RoundDue(before, answers, now);
      if ready {
        assert forall i :: 0 <= i < totalProbes ==> probes[i] == before[i];
        assert probes[..] == before;
        Retransmit(answered);
      }
      assert TimedStep(before, answers, now, timedProbes);
      ok := false;
    }

    method Retransmit(answered: nat)
      requires Valid() && !detectionDone && answered == Count(Current()) < timedProbes
      modifies this`probesAnswered, this`rounds, probes, responses, aux
      ensures Valid() && RoundOver(old(responses[..]), old(rounds))
      ensures AllAgain(old(probes[..])) && Failed(probes[..]) == old(Failed(probes[..]))
    {
      hide Count, Saved, Silent, Failed;
      ghost var current, before := Current(), responses[..];
      assert aux[..timedProbes] == aux[..] && before[..timedProbes] == current;
      var stored := CountResponses(aux, timedProbes);
      var now := CountResponses(responses, timedProbes);
      SaveOrDrop(now > stored);
      SavedStep(rounds, current, timedProbes);
      ghost var after := responses[..];
      NowSilent(before, after, timedProbes);
      probesAnswered := probesAnswered - answered;
      SendAllAgain();
      rounds := rounds + [current];
      assert responses[..] == after && responses[timedProbes..] == before[timedProbes..];
    }

    ghost predicate AllAgain(before: seq<Probe>)
      reads this, probes
    {
      && timedProbes <= totalProbes == probes.Length == |before|
      && forall i :: 0 <= i < totalProbes ==>
           probes[i] ==
           if i < timedProbes then before[i].(retransmissions := before[i].retransmissions + 1) else before[i]
    }

    method SendAllAgain()
      requires Shape()
      modifies probes
      ensures AllAgain(old(probes[..])) && Failed(probes[..]) == old(Failed(probes[..]))
    {
      hide Failed;
      for l := 0 to timedProbes
        invariant forall j :: 0 <= j < totalProbes ==>
                    probes[j] == if j < l then old(probes[j]).(retransmissions := old(probes[j]).retransmissions + 1)
                                 else old(probes[j])
        invariant Failed(probes[..]) == old(Failed(probes[..]))
      {
        ghost var was := probes[..];
        FailedSet(was, l, was[l].(retransmissions := was[l].retransmissions + 1));
        probes[l] := probes[l].(retransmissions := probes[l].retransmissions + 1);
        assert probes[..] == was[l := probes[l]];
      }
    }

    /** Moves the timed responses to the saved ones, or drops them. */
    method SaveOrDrop(save: bool)
      requires Shape()
      modifies responses, aux
      ensures Current() == Silent(timedProbes) && responses[timedProbes..] == old(responses[timedProbes..])
      ensures aux[..] == if save then old(Current()) else old(aux[..])
    {
      for k := 0 to timedProbes
        invariant forall j :: 0 <= j < k ==> responses[j].None?
        invariant forall j :: k <= j < totalProbes ==> responses[j] == old(responses[j])
        invariant forall j :: 0 <= j < timedProbes ==> aux[j] == if save && j < k then old(responses[j]) else old(aux[j])
      {
        if save {
          aux[k] := responses[k];
        }
        responses[k] := None;
      }
    }
  }
}
