/** What a compiled pattern does when it is matched, and that matching always ends. */
module LpegTheorem {
  import opened LpegTree
  import opened LpegAnalysis
  import opened LpegMachine
  import opened LpegCode
  import opened LpegPremise
  import opened LpegPlace
  import opened LpegCaptures
  import opened LpegCoded
  import opened LpegActual
  import opened LpegCorrect
  import opened LpegVerify
  import opened LpegHalts
  import opened LpegActHalts
  import opened LpegPeephole
  import opened LpegTidy

  /** The code of a whole pattern before the peephole pass. */
  function Program(t: Tree): seq<Instr> { Gen([], t, false, NoGuard, FULLSET) + [IEnd] }

  /** How the machine reports an answer: the end position and the capture list, or failure. */
  function Answer(r: Outcome): Conf
  {
    match r
    case Match(e, cs) => Done(e, Encode(cs))
    case _ => GaveUp
  }

  /** How the machine reports what the code does. */
  function Report(r: Course): Conf
  {
    match r
    case Passes(e, cs, _) => Done(e, Encode(cs))
    case _ => GaveUp
  }

  /** Whenever the code of the pattern comes to an end, the machine ends with that. */
  lemma ProgramCorrect(t: Tree, subj: Subject, s: nat, fuel: nat)
    requires WellFormed([], t) && s <= |subj| && !Act(fuel, [], t, false, FULLSET, subj, s).Going?
    ensures Ends(Program(t), subj, Start(s), Report(Act(fuel, [], t, false, FULLSET, subj, s)))
  {
    hide Gen, Act, Joins, Encode, Placed, RulesPlaced, WellFormed, Goes, Leaves;
    var c := Gen([], t, false, NoGuard, FULLSET);
    var m := Machine(Program(t), subj);
    var x := Site(m, [], []);
    var k := Push(Choice(GIVEUP, s, 0), Bottom);
    EmptyReady(t, x);
    var r := Act(fuel, [], t, false, FULLSET, subj, s);
    assert forall b: Byte :: b in FULLSET;
    assert LevelsAtMost(k, 0);
    assert FollowOk(x, fuel, t, false, FULLSET, |c|, s, k, []);
    assert WellFormed(x.g, t);
    assert Placed(x, 0, Gen(x.g, t, false, NoGuard, FULLSET));
    assert RulesReady(x);
    Sim(x, fuel, t, false, NoGuard, FULLSET, 0, s, k, []);
    GoesUnfold(x, fuel, t, false, FULLSET, 0, |c|, s, k, []);
    var last := if r.Passes? then Run(|c|, r.end, k, [] + Encode(r.caps)) else FailTo(k, []);
    if r.Passes? {
      assert [] + Encode(r.caps) == Encode(r.caps);
    }
    JoinsStep(m, last);
    JoinsTrans(m, Start(s), last, Step(m, last));
    var n := JoinsHalted(m, Start(s), Step(m, last));
  }

  /**
   * When what the code does is what the pattern means. Whether and where it matches is right wherever
   * no loop is left too early; then the capture list is right if and only if the match is honest. On
   * every subject both are so if no loop can be left and no capture is reachable where the code
   * generator relies on it.
   */
  lemma AnswerExact(t: Tree, subj: Subject, s: nat, fuel: nat)
    requires s <= |subj| && !Eval(fuel, [], t, subj, s).Running? && !Act(fuel, [], t, false, FULLSET, subj, s).Going?
    ensures var (r, a) := (Eval(fuel, [], t, subj, s), Report(Act(fuel, [], t, false, FULLSET, subj, s)));
            && (Stays(fuel, [], t, false, FULLSET, subj, s) ==>
                  && (r.NoMatch? <==> a == GaveUp)
                  && (r.Match? ==> a.Done? && a.end == r.end)
                  && (r.Match? && KindsOk(t) ==> (a == Answer(r) <==> Honest(fuel, [], t, subj, s)))
                  && (WellFormed([], t) && CapsSafe([], t) ==> a == Answer(r)))
            && (TailsSafe([], t, false, FULLSET) ==> Stays(fuel, [], t, false, FULLSET, subj, s))
  {
    hide Eval, Coded, Act, Stays, Honest, Encode, CapsSafe, WellFormed, KindsOk, TailsSafe;
    SameEnd(fuel, [], t, subj, s);
    if Stays(fuel, [], t, false, FULLSET, subj, s) {
      StaysAgree(fuel, [], t, false, FULLSET, subj, s);
      if Eval(fuel, [], t, subj, s).Match? && KindsOk(t) {
        ListExact(fuel, [], t, subj, s);
      }
      if WellFormed([], t) && CapsSafe([], t) {
        SafeIsMeant(fuel, [], t, subj, s);
      }
    }
    if TailsSafe([], t, false, FULLSET) {
      TailsStay(fuel, [], t, false, FULLSET, subj, s);
    }
  }

  lemma EmptyReady(t: Tree, x: Site)
    requires WellFormed([], t) && x.m.code == Program(t) && x.g == [] && x.pos == []
    ensures RulesReady(x) && Placed(x, 0, Gen([], t, false, NoGuard, FULLSET))
  {
    hide Gen;
    ProgramPlaced(t, x);
  }

  /** A run has one end. */
  lemma OneEnd(code: seq<Instr>, subj: Subject, x: Conf, o: Conf, o': Conf)
    requires Ends(code, subj, x, o) && Ends(code, subj, x, o')
    ensures o == o'
  {
    var m := Machine(code, subj);
    var n: nat :| Steps(m, x, n) == o;
    var n': nat :| Steps(m, x, n') == o';
    if n <= n' {
      StepsAdd(m, x, n, n' - n);
      StepsHalted(m, o, n' - n);
    } else {
      StepsAdd(m, x, n', n - n');
      StepsHalted(m, o', n - n');
    }
  }

  /**
   * The compiler theorem. For every loaded pattern whose look-behinds end, on every subject and from
   * every position, the pattern has an answer, its code comes to an end, and any program that behaves
   * as its code ends with exactly that; AnswerExact says when that is the answer.
   */
  lemma CompilerCorrect(t: Tree, code: seq<Instr>, subj: Subject, s: nat) returns (fuel: nat)
    requires Loaded(t) && BehindsEnd(t) && WellFormed([], t) && SameBehaviour(Program(t), code) && s <= |subj|
    ensures !Eval(fuel, [], t, subj, s).Running? && !Act(fuel, [], t, false, FULLSET, subj, s).Going?
    ensures forall o :: Ends(code, subj, Start(s), o) <==> o == Report(Act(fuel, [], t, false, FULLSET, subj, s))
  {
    hide Ends, Eval, Act, Gen, WellFormed;
    var f1 := LoadedHalts(t, subj, s);
    var f2 := LoadedActs(t, subj, s);
    fuel := f1 + f2;
    EvalMoreFuel(f1, fuel, [], t, subj, s);
    ActMoreFuel(f2, fuel, [], t, false, FULLSET, subj, s);
    ProgramCorrect(t, subj, s, fuel);
    var a := Report(Act(fuel, [], t, false, FULLSET, subj, s));
    assert Ends(code, subj, Start(s), a);
    forall o | Ends(code, subj, Start(s), o) ensures o == a {
      OneEnd(code, subj, Start(s), o, a);
    }
  }

  /** No assertion of the interpreter fails in any reachable configuration. */
  lemma StackDiscipline(t: Tree, code: seq<Instr>, subj: Subject, s: nat, n: nat)
    requires Loaded(t) && BehindsEnd(t) && WellFormed([], t) && SameBehaviour(Program(t), code) && s <= |subj|
    ensures Steps(Machine(code, subj), Start(s), n) != Stuck
  {
    hide Eval, Act, Gen, SameBehaviour, Steps, Ends, WellFormed;
    var fuel := CompilerCorrect(t, code, subj, s);
    StuckEnds(code, subj, Start(s), n);
  }

  lemma StuckEnds(code: seq<Instr>, subj: Subject, x: Conf, n: nat)
    ensures Steps(Machine(code, subj), x, n) == Stuck ==> Ends(code, subj, x, Stuck)
  {
  }
}
