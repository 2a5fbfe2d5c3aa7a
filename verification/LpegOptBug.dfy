/**
 * The conditions under which the code does what a pattern means cannot be dropped: for patterns
 * without them there are subjects on which the machine's answer is wrong.
 */
module LpegOptBug {
  import opened LpegTree
  import opened LpegAnalysis
  import opened LpegMachine
  import opened LpegCode
  import opened LpegPremise
  import opened LpegCoded
  import opened LpegActual
  import opened LpegPeephole
  import opened LpegTheorem

  /** ac / true */
  function Tail(a: Byte, c: Byte): Tree { TChoice(TSeq(TChar(a), TChar(c)), TTrue) }

  /** (a(ac)?)* */
  function Loop(a: Byte, c: Byte): Tree { TRep(TSeq(TChar(a), Tail(a, c))) }

  /** (de(a(ac)?)*)? */
  function Pattern(d: Byte, e: Byte, a: Byte, c: Byte): Tree
  {
    TChoice(TSeq(TChar(d), TSeq(TChar(e), Loop(a, c))), TTrue)
  }

  lemma FirstOfSeq(a: Byte, q: Tree)
    ensures FirstOf([], TSeq(TChar(a), q), FULLSET) == First({a}, false)
  {
    assert !Checkaux([], TChar(a), PEnullable, CHASE);
    assert Getfirst([], TChar(a), FULLSET, CHASE) == First({a}, false);
  }

  lemma TailChoice(a: Byte, c: Byte)
    ensures !ChoiceByTest([], Tail(a, c).first, TTrue, FULLSET)
  {
    var p := TSeq(TChar(a), TChar(c));
    FirstOfSeq(a, TChar(c));
    assert FirstOf([], TTrue, FULLSET).cs == FULLSET;
    assert a in {a} * FULLSET;
    assert !Headfail([], p);
  }

  lemma LoopHead(a: Byte, c: Byte)
    ensures var p := TSeq(TChar(a), Tail(a, c));
            Headfail([], p) && FirstOf([], p, FULLSET) == First({a}, false) && LoopByTest([], p, FULLSET)
  {
    FirstOfSeq(a, Tail(a, c));
    assert Checkaux([], Tail(a, c), PEnofail, CHASE);
  }

  lemma HeadCode(d: Byte, e: Byte, a: Byte, c: Byte)
    ensures var p := TSeq(TChar(d), TSeq(TChar(e), Loop(a, c)));
            FirstOf([], p, FULLSET) == First({d}, false) && !ChoiceByTest([], p, TTrue, FULLSET)
  {
    var p := TSeq(TChar(d), TSeq(TChar(e), Loop(a, c)));
    FirstOfSeq(d, TSeq(TChar(e), Loop(a, c)));
    assert FirstOf([], TTrue, FULLSET).cs == FULLSET;
    assert d in {d} * FULLSET;
    assert !Checkaux([], TSeq(TChar(e), Loop(a, c)), PEnofail, CHASE);
    assert !Headfail([], p);
  }

  /** In the loop the optional tail fails at 3 and leaves the loop, where the next round would start. */
  lemma LoopLeft(d: Byte, e: Byte, a: Byte, b: Byte, c: Byte, fuel: nat)
    requires b != c
    ensures Act(fuel, [], Loop(a, c), true, FULLSET, [d, e, a, a, b], 2) == Passes(3, [], true)
  {
    hide ChoiceByTest, LoopByTest, FollowOf, FirstOf;
    var subj: Subject := [d, e, a, a, b];
    var tail := TSeq(TChar(a), TChar(c));
    TailChoice(a, c);
    LoopHead(a, c);
    var fl1 := FollowOf([], TChar(a), TChar(c), FULLSET);
    assert Act(fuel, [], TChar(a), false, fl1, subj, 3) == Passes(4, [], false);
    assert Act(fuel, [], TChar(c), true, FULLSET, subj, 4) == Fails;
    assert Act(fuel, [], tail, true, FULLSET, subj, 3) == Fails;
    assert Act(fuel, [], Tail(a, c), true, FULLSET, subj, 3) == Passes(3, [], true);
    var body := TSeq(TChar(a), Tail(a, c));
    assert Act(fuel, [], TChar(a), false, FollowOf([], TChar(a), Tail(a, c), FULLSET), subj, 2) == Passes(3, [], false);
    var none: seq<CapTree> := [];
    assert none + none == none;
    assert Act(fuel, [], body, true, FULLSET, subj, 2) == Passes(3, [], true);
    assert PassesOn([], body, true, FULLSET);
  }

  /** So does the code of the whole pattern. */
  lemma CodeStopsEarly(d: Byte, e: Byte, a: Byte, b: Byte, c: Byte, fuel: nat)
    requires b != c
    ensures Act(fuel, [], Pattern(d, e, a, c), false, FULLSET, [d, e, a, a, b], 0) == Passes(3, [], false)
  {
    hide ChoiceByTest, LoopByTest, FollowOf, FirstOf;
    var subj: Subject := [d, e, a, a, b];
    LoopLeft(d, e, a, b, c, fuel);
    HeadCode(d, e, a, c);
    var inner := TSeq(TChar(e), Loop(a, c));
    assert Act(fuel, [], TChar(e), false, FollowOf([], TChar(e), Loop(a, c), FULLSET), subj, 1) == Passes(2, [], false);
    var none: seq<CapTree> := [];
    assert none + none == none;
    assert Act(fuel, [], inner, true, FULLSET, subj, 1) == Passes(3, [], true);
    var p := TSeq(TChar(d), inner);
    assert Act(fuel, [], TChar(d), false, FollowOf([], TChar(d), inner, FULLSET), subj, 0) == Passes(1, [], false);
    assert Act(fuel, [], p, true, FULLSET, subj, 0) == Passes(3, [], true);
  }

  /** The meaning of the pattern goes on with the next round. */
  lemma PegGoesOn(d: Byte, e: Byte, a: Byte, b: Byte, c: Byte, fuel: nat)
    requires b != c && b != a && fuel >= 2
    ensures Eval(fuel, [], Pattern(d, e, a, c), [d, e, a, a, b], 0) == Match(4, [])
  {
    var subj: Subject := [d, e, a, a, b];
    var body := TSeq(TChar(a), Tail(a, c));
    LoopRound(d, e, a, b, c, fuel);
    LoopRound(d, e, a, b, c, fuel - 1);
    LoopRound(d, e, a, b, c, fuel - 2);
    assert Eval(fuel - 2, [], Loop(a, c), subj, 4) == Match(4, []);
    assert Eval(fuel - 1, [], Loop(a, c), subj, 3) == Match(4, []);
    assert Eval(fuel, [], Loop(a, c), subj, 2) == Match(4, []);
    assert Eval(fuel, [], TChar(e), subj, 1) == Match(2, []);
    assert Eval(fuel, [], TSeq(TChar(e), Loop(a, c)), subj, 1) == Match(4, []);
    assert Eval(fuel, [], TChar(d), subj, 0) == Match(1, []);
    assert Eval(fuel, [], TSeq(TChar(d), TSeq(TChar(e), Loop(a, c))), subj, 0) == Match(4, []);
  }

  lemma LoopRound(d: Byte, e: Byte, a: Byte, b: Byte, c: Byte, fuel: nat)
    requires b != c && b != a
    ensures var body := TSeq(TChar(a), Tail(a, c));
            var subj := [d, e, a, a, b];
            Eval(fuel, [], body, subj, 2) == Match(3, []) && Eval(fuel, [], body, subj, 3) == Match(4, []) &&
            Eval(fuel, [], body, subj, 4) == NoMatch
  {
    var subj: Subject := [d, e, a, a, b];
    assert Eval(fuel, [], TSeq(TChar(a), TChar(c)), subj, 3) == NoMatch;
    assert Eval(fuel, [], TSeq(TChar(a), TChar(c)), subj, 4) == NoMatch;
    assert Eval(fuel, [], Tail(a, c), subj, 3) == Match(3, []);
    assert Eval(fuel, [], Tail(a, c), subj, 4) == Match(4, []);
  }

  /** A repetition with an optional tail, coded by a test under an optional pattern, stops too soon. */
  lemma OptTailBreaks(d: Byte, e: Byte, a: Byte, b: Byte, c: Byte)
    requires b != c && b != a
    ensures var t := Pattern(d, e, a, c);
            var subj := [d, e, a, a, b];
            && WellFormed([], t) && !TailsSafe([], t, false, FULLSET)
            && (forall fuel: nat :: fuel >= 2 ==> Eval(fuel, [], t, subj, 0) == Match(4, []))
            && Ends(Program(t), subj, Start(0), Done(3, []))
  {
    hide Act, Program, Ends, WellFormed, TailsSafe;
    CodeStopsEarly(d, e, a, b, c, 0);
    forall fuel: nat | fuel >= 2 ensures Eval(fuel, [], Pattern(d, e, a, c), [d, e, a, a, b], 0) == Match(4, []) {
      PegGoesOn(d, e, a, b, c, fuel);
    }
    PatternUnsafe(d, e, a, c);
    assert Encode([]) == [];
    ProgramCorrect(Pattern(d, e, a, c), [d, e, a, a, b], 0, 0);
  }

  lemma ChunkFine(p: Tree, q: Tree)
    ensures WellFormed([], p) && WellFormed([], q) ==> WellFormed([], TSeq(p, q)) && WellFormed([], TRep(TSeq(p, q)))
    ensures WellFormed([], TSeq(p, q)) ==> WellFormed([], TChoice(TSeq(p, q), TTrue))
  {
  }

  lemma PatternUnsafe(d: Byte, e: Byte, a: Byte, c: Byte)
    ensures WellFormed([], Pattern(d, e, a, c))
    ensures !TailsSafe([], Pattern(d, e, a, c), false, FULLSET)
  {
    hide Checkaux, Getfirst, Headfailx;
    TailChoice(a, c);
    LoopHead(a, c);
    HeadCode(d, e, a, c);
    ChunkFine(TChar(a), TChar(c));
    ChunkFine(TChar(a), Tail(a, c));
    ChunkFine(TChar(e), Loop(a, c));
    ChunkFine(TChar(d), TSeq(TChar(e), Loop(a, c)));
    assert OptTail([], TSeq(TChar(a), Tail(a, c)), FULLSET);
    assert !TailsSafe([], Loop(a, c), true, FULLSET);
    assert !TailsSafe([], TSeq(TChar(e), Loop(a, c)), true, FULLSET);
    assert !TailsSafe([], TSeq(TChar(d), TSeq(TChar(e), Loop(a, c))), true, FULLSET);
  }

  // ---------- Captures behind a call ----------

  /** S <- {R}, R <- {'a'} with different kinds of capture. */
  function CapturedCall(outer: nat, inner: nat): Tree
  {
    TGrammar([TCapture(outer, 0, TCall(1)), TCapture(inner, 0, TChar(97))])
  }

  lemma CapturedLengths(outer: nat, inner: nat)
    ensures var g := CapturedCall(outer, inner).rules; CaptureFull(g, TCall(1)) && CaptureFull(g, TChar(97))
  {
    var g := CapturedCall(outer, inner).rules;
    assert Fixedlenx(g, TChar(97), 1, 0) == 1;
    assert Fixedlenx(g, g[1], 1, 0) == 1;
    assert Fixedlen(g, TCall(1)) == 1;
    assert Fixedlen(g, TChar(97)) == 1;
  }

  /** A capture recorded in one instruction around a call closes before what the rule captured. */
  lemma CallHidesCaptures(outer: nat, inner: nat)
    ensures var t := CapturedCall(outer, inner);
            var entries := [CapEntry(0, 0, inner, 2), CapEntry(0, 0, outer, 2)];
            && WellFormed([], t) && TailsSafe([], t, false, FULLSET) && !CapsSafe([], t)
            && (forall fuel: nat :: fuel >= 1 ==>
                  Eval(fuel, [], t, [97], 0) == Match(1, [CapTree(outer, 0, 0, 1, [CapTree(inner, 0, 0, 1, [])])]))
            && Ends(Program(t), [97], Start(0), Done(1, entries))
            && Done(1, entries) != Answer(Match(1, [CapTree(outer, 0, 0, 1, [CapTree(inner, 0, 0, 1, [])])]))
  {
    hide Program, Eval, Coded, Act, Ends, CapsSafe, WellFormed, TailsSafe;
    var t := CapturedCall(outer, inner);
    CapturedMeaning(outer, inner);
    CapturedUnsafe(outer, inner);
    CapturedCourse(outer, inner);
    ProgramCorrect(t, [97], 0, 1);
    EncodedFlat(CapTree(inner, 0, 0, 1, []), CapTree(outer, 0, 0, 1, []));
    var c := CapTree(outer, 0, 0, 1, [CapTree(inner, 0, 0, 1, [])]);
    NestedOpens(c);
    assert Encode([c])[0] != CapEntry(0, 0, inner, 2);
  }

  lemma EncodedFlat(c: CapTree, d: CapTree)
    requires c.inner == [] && d.inner == [] && c.start + 1 == c.end && d.start + 1 == d.end
    ensures Encode([c, d]) == [CapEntry(c.start, c.key, c.kind, 2), CapEntry(d.start, d.key, d.kind, 2)]
  {
    assert [c, d][1..] == [d] && [d][1..] == [];
    assert Encode([]) == [];
    assert Encode([d]) == EncodeOne(d);
    assert Encode([c, d]) == EncodeOne(c) + Encode([d]);
  }

  lemma NestedOpens(c: CapTree)
    requires c.inner != []
    ensures Encode([c]) != [] && Encode([c])[0] == CapEntry(c.start, c.key, c.kind, 0)
  {
    assert Encode([c]) == EncodeOne(c) + Encode([c][1..]);
    assert EncodeOne(c)[0] == CapEntry(c.start, c.key, c.kind, 0);
  }

  lemma CapturedUnsafe(outer: nat, inner: nat)
    ensures var t := CapturedCall(outer, inner);
            WellFormed([], t) && TailsSafe([], t, false, FULLSET) && !CapsSafe([], t)
  {
    hide Fixedlenx, CaptureFull;
    var t := CapturedCall(outer, inner);
    var g := t.rules;
    CapturedLengths(outer, inner);
    assert CallPath(g, TCall(1), [1]);
    assert Shows(g[1]);
    assert !Captureless(g, TCall(1));
    assert !CapsSafe(g, g[0]);
    CapturedCompiles(g, TCall(1), outer);
    CapturedCompiles(g, TChar(97), inner);
  }

  lemma CapturedCompiles(g: Rules, p: Tree, kind: nat)
    requires p.TChar? || (p.TCall? && p.rule < |g|)
    ensures WellFormed(g, TCapture(kind, 0, p)) && TailsSafe(g, TCapture(kind, 0, p), false, FULLSET)
  {
    hide Fixedlenx, HasCaptures, FirstOf, Headfailx, OptTail, ChoiceByTest, LoopByTest;
    assert WellFormed(g, p) && TailsSafe(g, p, false, FULLSET);
  }

  lemma CapturedCourse(outer: nat, inner: nat)
    ensures var t := CapturedCall(outer, inner);
            Same(Act(1, [], t, false, FULLSET, [97], 0), Coded(1, [], t, [97], 0)) &&
            !Act(1, [], t, false, FULLSET, [97], 0).Going?
  {
    hide CaptureFull;
    var g := CapturedCall(outer, inner).rules;
    assert Act(0, g, TChar(97), false, FULLSET, [97], 0) == Passes(1, [], false);
    assert Act(0, g, g[1], false, FULLSET, [97], 0).Passes?;
    assert Act(1, g, TCall(1), false, FULLSET, [97], 0).Passes?;
    assert !Act(1, g, g[0], false, FULLSET, [97], 0).Going?;
    CapturedUnsafe(outer, inner);
    CapturedMeaning(outer, inner);
    TailsStay(1, [], CapturedCall(outer, inner), false, FULLSET, [97], 0);
    StaysAgree(1, [], CapturedCall(outer, inner), false, FULLSET, [97], 0);
  }

  lemma CapturedMeaning(outer: nat, inner: nat)
    ensures forall fuel: nat :: fuel >= 1 ==>
              Eval(fuel, [], CapturedCall(outer, inner), [97], 0) ==
              Match(1, [CapTree(outer, 0, 0, 1, [CapTree(inner, 0, 0, 1, [])])])
    ensures Coded(1, [], CapturedCall(outer, inner), [97], 0) ==
            Match(1, [CapTree(inner, 0, 0, 1, []), CapTree(outer, 0, 0, 1, [])])
  {
    hide CaptureFull;
    var g := CapturedCall(outer, inner).rules;
    CapturedLengths(outer, inner);
    var one, two := CapTree(inner, 0, 0, 1, []), CapTree(outer, 0, 0, 1, []);
    forall fuel: nat | fuel >= 1
      ensures Eval(fuel, [], CapturedCall(outer, inner), [97], 0) == Match(1, [two.(inner := [one])])
    {
      assert Eval(fuel - 1, g, TChar(97), [97], 0) == Match(1, []);
      assert Eval(fuel - 1, g, g[1], [97], 0) == Match(1, [one]);
      assert Eval(fuel, g, TCall(1), [97], 0) == Match(1, [one]);
      assert Eval(fuel, g, g[0], [97], 0) == Match(1, [two.(inner := [one])]);
    }
    assert Coded(0, g, TChar(97), [97], 0) == Match(1, []);
    assert Coded(0, g, g[1], [97], 0) == Match(1, [] + [one]);
    assert Coded(1, g, TCall(1), [97], 0) == Match(1, [one]);
    assert Coded(1, g, g[0], [97], 0) == Match(1, [one] + [two]);
    assert [one] + [two] == [one, two];
  }
}
