/**
 * The engine's loop over its hosts: it removes a host that is done and lets the others go on. When a host
 * is done, and with which responses.
 */
module FpEngine {
  import opened Options
  import opened FpTimeout
  import opened FpRounds

  /** Every probe has been sent, and answered or given up, as far as the counters tell. */
  predicate Done(h: Host)
    reads h
  {
    h.probesSent == h.totalProbes && h.probesAnswered + h.probesUnanswered == h.totalProbes
  }

  /** One pass over a host, which is removed as it is if it is done. */
  method Pass(h: Host, now: int, granted: bool) returns (removed: bool)
    requires h.Valid()
    modifies h, h.probes, h.responses, h.aux
    ensures h.Valid() && removed == old(Done(h))
    ensures removed ==> h.responses[..] == old(h.responses[..]) && h.rounds == old(h.rounds)
    ensures removed ==> h.detectionDone == old(h.detectionDone)
  {
    removed := Done(h);
    if !removed {
      var _ := h.Schedule(now, granted);
    }
  }

  // ---------- What the counters tell ----------

  /** Each probe was answered or given up. */
  predicate AllSettled(rs: Round, ps: seq<Probe>)
    requires |rs| == |ps|
  {
    forall i :: 0 <= i < |rs| ==> rs[i].Some? || ps[i].failed
  }

  /** No probe that was given up was answered. */
  predicate NoneTwice(rs: Round, ps: seq<Probe>)
    requires |rs| == |ps|
  {
    forall i :: 0 <= i < |rs| ==> !(rs[i].Some? && ps[i].failed)
  }

  /** How many probes are answered or given up. */
  function Either(rs: Round, ps: seq<Probe>): (n: nat)
    requires |rs| == |ps|
    ensures n <= |rs|
  {
    if rs == [] then 0
    else
      var k := |rs| - 1;
      Either(rs[..k], ps[..k]) + if rs[k].Some? || ps[k].failed then 1 else 0
  }

  /** How many probes are both. */
  function Both(rs: Round, ps: seq<Probe>): nat
    requires |rs| == |ps|
  {
    if rs == [] then 0
    else
      var k := |rs| - 1;
      Both(rs[..k], ps[..k]) + if rs[k].Some? && ps[k].failed then 1 else 0
  }

  lemma {:induction false} CountsSplit(rs: Round, ps: seq<Probe>)
    requires |rs| == |ps|
    ensures Count(rs) + Failed(ps) == Either(rs, ps) + Both(rs, ps)
    ensures Either(rs, ps) == |rs| <==> AllSettled(rs, ps)
    ensures Both(rs, ps) == 0 <==> NoneTwice(rs, ps)
    decreases |rs|
  {
    if rs != [] {
      var k := |rs| - 1;
      CountsSplit(rs[..k], ps[..k]);
      assert forall i :: 0 <= i < k ==> rs[..k][i] == rs[i] && ps[..k][i] == ps[i];
    }
  }

  /**
   * The sum of answered and given up probes is their number exactly when all are settled, unless a probe
   * that was given up was answered later: then it is not, when all are settled.
   */
  lemma {:induction false} SumExact(rs: Round, ps: seq<Probe>)
    requires |rs| == |ps|
    ensures AllSettled(rs, ps) ==> (Count(rs) + Failed(ps) == |ps| <==> NoneTwice(rs, ps))
    ensures NoneTwice(rs, ps) ==> (Count(rs) + Failed(ps) == |ps| <==> AllSettled(rs, ps))
  {
    CountsSplit(rs, ps);
  }

  /** Once every probe is settled, the host is done if and only if none was answered that had been given up. */
  lemma {:induction false} DoneExact(h: Host)
    requires h.Valid() && !h.detectionDone && h.probesSent == h.totalProbes
    requires h.probesUnanswered == Failed(h.probes[..]) && AllSettled(h.responses[..], h.probes[..])
    ensures Done(h) <==> NoneTwice(h.responses[..], h.probes[..])
  {
    SumExact(h.responses[..], h.probes[..]);
  }

  // ---------- A late answer ----------

  /** Too much has been counted, and no timed probes can take any of it back. */
  predicate Overrun(h: Host)
    reads h
  {
    !h.detectionDone && h.timedProbes == 0 && h.probesAnswered + h.probesUnanswered > h.totalProbes
  }

  datatype Call =
    | Asked(now: int, granted: bool)
    | Sent(probe: nat, at: nat, ok: bool)
    | Received(packet: Packet, matches: set<nat>, usecs: nat)

  /** Nothing that can happen to the host makes it done again. */
  method Drive(h: Host, calls: seq<Call>)
    requires h.Valid() && Overrun(h)
    modifies h, h.probes, h.responses, h.aux, h.timer
    ensures h.Valid() && Overrun(h) && !Done(h)
  {
    for i := 0 to |calls|
      invariant h.Valid() && Overrun(h)
    {
      match calls[i]
      case Asked(now, granted) => var _ := h.Schedule(now, granted);
      case Sent(probe, at, ok) =>
        if probe < h.probesSent && at > 0 {
          h.Transmitted(probe, at, ok);
        }
      case Received(packet, matches, usecs) => var _ := h.Callback(packet, matches, usecs);
    }
  }

  lemma {:induction false} OneFailed(p: Probe)
    ensures Failed([p]) == if p.failed then 1 else 0
  {
    assert [p][..0] == [];
    assert Failed([]) == 0;
  }

  /** A single probe, sent once and asked about until it is given up after `tries` more transmissions. */
  method GiveUpOne(h: Host)
    requires h.Valid() && !h.detectionDone && h.totalProbes == 1 && h.timedProbes == 0 && h.probesSent == 1
    requires h.probes[0] == Probe(0, 0, false, 1) && h.responses[0].None? && h.probesUnanswered == 0
    modifies h, h.probes, h.responses, h.aux
    ensures h.Valid() && !h.detectionDone && h.probesSent == 1 && h.responses[0].None?
    ensures h.probes[0].failed && h.probesUnanswered == 1 && h.probesAnswered == 0
  {
    hide Failed;
    var now := h.timer.rto + 1;
    assert h.probes[..] == [h.probes[0]];
    OneFailed(h.probes[0]);
    NoneAnswered(h);
    for i := 0 to h.maxTries
      invariant h.Valid() && !h.detectionDone && h.probesSent == 1 && h.responses[0].None?
      invariant h.probes[0] == Probe(i, 0, false, 1) && h.probesUnanswered == 0 && h.probesAnswered == 0
    {
      ghost var before, answers := h.probes[..], h.responses[..];
      var _ := h.Schedule(now, false);
      ghost var stop: nat :| h.RegularStep(before, answers, now, stop);
      assert stop == 0;
      assert h.probes[..] == [h.probes[0]];
      OneFailed(before[0]);
      OneFailed(h.probes[0]);
      NoneAnswered(h);
    }
    ghost var before, answers := h.probes[..], h.responses[..];
    assert before == [before[0]];
    var _ := h.Schedule(now, false);
    ghost var stop: nat :| h.RegularStep(before, answers, now, stop);
    assert stop == 1;
    assert h.probes[..] == [h.probes[0]];
    OneFailed(before[0]);
    OneFailed(h.probes[0]);
    NoneAnswered(h);
  }

  lemma {:induction false} NoneAnswered(h: Host)
    requires h.Valid() && !h.detectionDone && h.totalProbes == 1 && h.responses[0].None?
    ensures h.probesAnswered == 0
  {
    assert h.responses[..] == Silent(1);
    SilentCount(1);
  }

  /**
   * A probe is given up while the host asks for something to send, and answered before the next pass: the
   * host is never done, although nothing is outstanding.
   */
  method LateAnswer(tries: nat, rto: int, packet: Packet) returns (h: Host)
    ensures h.Valid() && Overrun(h) && h.maxTries == tries
    ensures AllSettled(h.responses[..], h.probes[..])
  {
    h := new Host(1, 0, tries, rto);
    var _ := h.Schedule(0, true);
    assert h.probes[0] == Probe(0, 0, false, 0);
    h.Transmitted(0, 1, true);
    GiveUpOne(h);
    assert Done(h);
    var _ := h.Callback(packet, {0}, 1);
  }

  // ---------- The best round ----------

  /**
   * A host that is removed before it has wrapped up is left with the responses of its last round: they
   * are those of the best round if and only if no more of them are saved.
   */
  lemma {:induction false} RemovedExact(h: Host)
    requires h.Valid() && !h.detectionDone
    ensures h.Current() == Chosen(h.rounds, h.Current()) <==> Count(h.aux[..]) <= Count(h.Current())
  {
  }

  lemma {:induction false} TwoFailed(p: Probe, q: Probe)
    ensures Failed([p, q]) == (if p.failed then 1 else 0) + (if q.failed then 1 else 0)
  {
    assert [p, q][..1] == [p];
    OneFailed(p);
  }

  lemma {:induction false} TwoAnswers(a: Option<Packet>, b: Option<Packet>)
    ensures Count([a, b]) == (if a.Some? then 1 else 0) + (if b.Some? then 1 else 0)
  {
    assert [a, b][..1] == [a];
    assert [a][..0] == [];
    assert Count([]) == 0;
  }

  /**
   * Two timed probes: the first is answered in the first round, none in the second, and both are given
   * up. The host is done and is removed without the response it had.
   */
  method BestRoundDropped(rto: int, packet: Packet) returns (h: Host)
    ensures h.Valid() && Done(h) && !h.detectionDone
    ensures h.rounds == [[Some(packet), None]] && h.Current() == Silent(2)
    ensures h.Current() != Chosen(h.rounds, h.Current())
  {
    hide Failed, Count, Saved;
    h := new Host(2, 2, 1, rto);
    var _ := h.Schedule(0, true);
    h.Transmitted(0, 1, true);
    h.Transmitted(1, 1, true);
    assert h.probes[..] == [Probe(0, 0, false, 1), Probe(0, 0, false, 1)];
    FirstAnswer(h, packet);
    SecondRound(h, packet);
    LastRound(h, packet);
  }

  method FirstAnswer(h: Host, packet: Packet)
    requires h.Valid() && !h.detectionDone && h.totalProbes == h.timedProbes == h.probesSent == 2 && h.maxTries == 1
    requires h.rounds == [] && h.timedSent && h.probesUnanswered == 0 && h.responses[0].None? && h.responses[1].None?
    requires h.probes[..] == [Probe(0, 0, false, 1), Probe(0, 0, false, 1)]
    modifies h, h.probes, h.responses, h.aux, h.timer
    ensures h.Valid() && !h.detectionDone && h.probesSent == 2 && h.timedSent && h.probesUnanswered == 0
    ensures h.rounds == [] && h.responses[..] == [Some(packet), None]
    ensures h.probes[..] == [Probe(0, h.probes[0].replies, false, 1), Probe(0, h.probes[1].replies, false, 1)]
  {
    hide Failed, Count, Saved;
    TwoAnswers(None, None);
    assert h.responses[..] == [None, None];
    var _ := h.Callback(packet, {0}, 1);
    assert h.responses[..] == [Some(packet), None];
  }

  method SecondRound(h: Host, packet: Packet)
    requires h.Valid() && !h.detectionDone && h.totalProbes == h.timedProbes == h.probesSent == 2 && h.maxTries == 1
    requires h.timedSent && h.probesUnanswered == 0 && h.rounds == [] && h.responses[..] == [Some(packet), None]
    requires h.probes[..] == [Probe(0, h.probes[0].replies, false, 1), Probe(0, h.probes[1].replies, false, 1)]
    modifies h, h.probes, h.responses, h.aux
    ensures h.Valid() && !h.detectionDone && h.probesSent == 2 && h.timedSent && h.probesUnanswered == 0
    ensures h.rounds == [[Some(packet), None]] && h.responses[..] == Silent(2)
    ensures h.probes[..] == [Probe(1, h.probes[0].replies, false, 1), Probe(1, h.probes[1].replies, false, 1)]
  {
    hide Failed, Count, Saved;
    var now := h.timer.rto + 1;
    ghost var before, answers := h.probes[..], h.responses[..];
    TwoAnswers(Some(packet), None);
    assert answers[..2] == answers;
    assert h.RoundDue(before, answers, now);
    var _ := h.Schedule(now, false);
    assert h.responses[..] == h.Current();
    TwoFailed(before[0], before[1]);
    assert h.probes[..] == [h.probes[0], h.probes[1]];
    TwoFailed(h.probes[0], h.probes[1]);
  }

  method LastRound(h: Host, packet: Packet)
    requires h.Valid() && !h.detectionDone && h.totalProbes == h.timedProbes == h.probesSent == 2 && h.maxTries == 1
    requires h.timedSent && h.probesUnanswered == 0 && h.rounds == [[Some(packet), None]] && h.responses[..] == Silent(2)
    requires h.probes[..] == [Probe(1, h.probes[0].replies, false, 1), Probe(1, h.probes[1].replies, false, 1)]
    modifies h, h.probes, h.responses, h.aux
    ensures h.Valid() && Done(h) && !h.detectionDone
    ensures h.rounds == [[Some(packet), None]] && h.Current() == Silent(2)
    ensures h.Current() != Chosen(h.rounds, h.Current())
  {
    hide Failed, Count, Saved;
    var now := h.timer.rto + 1;
    ghost var before, answers := h.probes[..], h.responses[..];
    SilentCount(2);
    assert !h.Again(before[0], now);
    assert !h.RoundDue(before, answers, now);
    var _ := h.Schedule(now, false);
    ghost var stop: nat :| h.TimedStep(before, answers, now, stop);
    assert stop == 2;
    assert h.probes[..] == [h.probes[0], h.probes[1]];
    TwoFailed(before[0], before[1]);
    TwoFailed(h.probes[0], h.probes[1]);
    assert h.Current() == h.responses[..] == Silent(2);
    FirstSaved(Some(packet));
  }

  lemma {:induction false} FirstSaved(a: Option<Packet>)
    requires a.Some?
    ensures Saved([[a, None]], 2) == [a, None] && Chosen([[a, None]], Silent(2)) == [a, None] && [a, None] != Silent(2)
  {
    var rounds: seq<Round> := [[a, None]];
    assert rounds[..0] == [];
    SilentCount(2);
    TwoAnswers(a, None);
    assert |Silent(2)| == 2;
  }
}
