/** The compiled code of a pattern does on the machine what the pattern means. */
module LpegCorrect {
  import opened LpegTree
  import opened LpegAnalysis
  import opened LpegAnalysisSound
  import opened LpegMachine
  import opened LpegCode
  import opened LpegPremise
  import opened LpegPlace
  import opened LpegActual

  // ---------- The statement ----------

  ghost predicate RulesReady(x: Site) { RulesPlaced(x) && RulesWellFormed(x.g) }

  predicate TestPasses(i: Instr, subj: Subject, s: nat)
  {
    match i
    case ITestAny(_) => s < |subj|
    case ITestChar(_, c) => AtChar(subj, s, {c})
    case ITestSet(_, cs) => AtChar(subj, s, cs)
    case _ => false
  }

  /** The same stack, but that the choice on top may have been given another position. */
  predicate Renewed(k: Stack, k': Stack, n: nat)
  {
    k' == k ||
    (k.Push? && k.top.Choice? && k'.Push? && k'.top.Choice? && k'.top.p == k.top.p && k'.rest == k.rest &&
     LevelsAtMost(k', n))
  }

  /** The run joins one at `b`; under a choice that choice may be renewed on the way. */
  ghost predicate GoesOn(m: Machine, from: Conf, opt: bool, b: nat, e: nat, k: Stack, caps: seq<CapEntry>)
  {
    if opt then exists k' :: Renewed(k, k', |caps|) && Joins(m, from, Run(b, e, k', caps))
    else Joins(m, from, Run(b, e, k, caps))
  }

  /** The run joins one where the choice on top resumes. */
  ghost predicate Leaves(m: Machine, from: Conf, e: nat, k: Stack, caps: seq<CapEntry>)
  {
    k.Push? && k.top.Choice? && Joins(m, from, Run(k.top.p, e, k.rest, caps))
  }

  /** The run from the start of the code joins the run after it, or where it leaves, or a failure. */
  ghost predicate Goes(x: Site, fuel: nat, t: Tree, opt: bool, fl: Charset, a: nat, b: nat, s: nat, k: Stack,
                       caps: seq<CapEntry>)
    requires s <= |x.m.subj|
  {
    match Act(fuel, x.g, t, opt, fl, x.m.subj, s)
    case Passes(e, cs, left) =>
      if left then Leaves(x.m, Run(a, s, k, caps), e, k, caps + Encode(cs))
      else GoesOn(x.m, Run(a, s, k, caps), opt, b, e, k, caps + Encode(cs))
    case Fails => Joins(x.m, Run(a, s, k, caps), FailTo(k, caps))
    case Going => true
  }

  /** A match that ends before a character outside the follow set will fail in what follows. */
  ghost predicate FollowOk(x: Site, fuel: nat, t: Tree, opt: bool, fl: Charset, b: nat, s: nat, k: Stack,
                           caps: seq<CapEntry>)
    requires s <= |x.m.subj|
  {
    var r := Act(fuel, x.g, t, opt, fl, x.m.subj, s);
    r.Passes? && r.end < |x.m.subj| && x.m.subj[r.end] !in fl ==>
      Joins(x.m, Run(b, r.end, k, caps + Encode(r.caps)), FailTo(k, caps))
  }

  ghost predicate Pre(x: Site, fuel: nat, t: Tree, opt: bool, tt: Guard, fl: Charset, a: nat, s: nat, k: Stack,
                      caps: seq<CapEntry>)
  {
    && s <= |x.m.subj|
    && WellFormed(x.g, t)
    && RulesReady(x)
    && Placed(x, a, Gen(x.g, t, opt, tt, fl))
    && (tt.Guarded? ==> TestPasses(tt.test, x.m.subj, s))
    && LevelsAtMost(k, |caps|)
    && (opt ==> fl == FULLSET && k.Push? && k.top.Choice?)
    && FollowOk(x, fuel, t, opt, fl, a + |Gen(x.g, t, opt, tt, fl)|, s, k, caps)
  }

  lemma GoesPlain(m: Machine, from: Conf, opt: bool, b: nat, e: nat, k: Stack, caps: seq<CapEntry>)
    requires Joins(m, from, Run(b, e, k, caps))
    ensures GoesOn(m, from, opt, b, e, k, caps)
  {
    hide Joins;
    assert Renewed(k, k, |caps|);
  }

  lemma GoesAfter(m: Machine, from: Conf, mid: Conf, opt: bool, b: nat, e: nat, k: Stack, caps: seq<CapEntry>)
    requires Joins(m, from, mid)
    ensures GoesOn(m, mid, opt, b, e, k, caps) ==> GoesOn(m, from, opt, b, e, k, caps)
    ensures Leaves(m, mid, e, k, caps) ==> Leaves(m, from, e, k, caps)
  {
    hide Joins;
    if GoesOn(m, mid, opt, b, e, k, caps) {
      if opt {
        var k' :| Renewed(k, k', |caps|) && Joins(m, mid, Run(b, e, k', caps));
        JoinsTrans(m, from, mid, Run(b, e, k', caps));
      } else {
        JoinsTrans(m, from, mid, Run(b, e, k, caps));
      }
    }
    if Leaves(m, mid, e, k, caps) {
      JoinsTrans(m, from, mid, Run(k.top.p, e, k.rest, caps));
    }
  }

  /** What is under a renewed choice is under the choice. */
  lemma GoesRenewed(m: Machine, from: Conf, b: nat, e: nat, k: Stack, k1: Stack, caps: seq<CapEntry>)
    requires k1.Push? && k1.top.Choice? && Renewed(k, k1, |caps|)
    ensures GoesOn(m, from, true, b, e, k1, caps) ==> GoesOn(m, from, true, b, e, k, caps)
    ensures Leaves(m, from, e, k1, caps) ==> Leaves(m, from, e, k, caps)
  {
    hide Joins;
    if GoesOn(m, from, true, b, e, k1, caps) {
      var k' :| Renewed(k1, k', |caps|) && Joins(m, from, Run(b, e, k', caps));
      assert Renewed(k, k', |caps|);
    }
  }

  // ---------- Tests ----------

  /** A test falls through on its set and jumps otherwise. */
  lemma TestRuns(x: Site, cs: Charset, off: int, a: nat, s: nat, k: Stack, caps: seq<CapEntry>)
    requires Placed(x, a, TestCode(GenTest(cs, false), off))
    ensures AtChar(x.m.subj, s, cs) ==>
              TestPasses(GenTest(cs, false).test, x.m.subj, s) &&
              Step(x.m, Run(a, s, k, caps)) == Run(a + 1, s, k, caps)
    ensures !AtChar(x.m.subj, s, cs) ==> Step(x.m, Run(a, s, k, caps)) == Run(a + off, s, k, caps)
    ensures a < |x.m.code|
  {
    PlacedOne(x, a, WithOff(GenTest(cs, false).test, off));
  }

  /** A pattern matches only where the test of its first set passes. */
  lemma TestSound(fuel: nat, g: Rules, p: Tree, opt: bool, fl: Charset, subj: Subject, s: nat)
    requires s <= |subj| && Act(fuel, g, p, opt, fl, subj, s).Passes?
    requires !FirstOf(g, p, FULLSET).e
    ensures AtChar(subj, s, FirstOf(g, p, FULLSET).cs)
  {
    ActFirst(fuel, g, p, opt, fl, FULLSET, CHASE, subj, s);
  }

  lemma FirstAnnounced(fuel: nat, g: Rules, p: Tree, opt: bool, fl: Charset, subj: Subject, s: nat)
    requires s <= |subj|
    ensures var r := Act(fuel, g, p, opt, fl, subj, s);
            r.Passes? ==> Announced(FirstOf(g, p, fl), fl, subj, s, r.end)
  {
    ActFirst(fuel, g, p, opt, fl, fl, CHASE, subj, s);
  }

  lemma HeadfailDecides(fuel: nat, g: Rules, p: Tree, opt: bool, fl: Charset, subj: Subject, s: nat)
    requires s <= |subj| && Headfail(g, p) && !Act(fuel, g, p, opt, fl, subj, s).Going?
    ensures Act(fuel, g, p, opt, fl, subj, s).Passes? <==> AtChar(subj, s, FirstOf(g, p, FULLSET).cs)
  {
    ActHeadfail(fuel, g, p, opt, fl, CHASE, subj, s);
  }

  lemma FixedlenHolds(fuel: nat, g: Rules, p: Tree, fl: Charset, subj: Subject, s: nat)
    requires s <= |subj| && Fixedlen(g, p) >= 0
    ensures var r := Act(fuel, g, p, false, fl, subj, s); r.Passes? ==> r.end == s + Fixedlen(g, p)
  {
    ActFixedlen(fuel, g, p, false, fl, 0, 0, subj, s);
  }

  lemma ByTestNotEmpty(g: Rules, p: Tree)
    requires Headfail(g, p)
    ensures !FirstOf(g, p, FULLSET).e
  {
    HeadfailNotEmpty(g, p, FULLSET, CHASE);
  }

  // ---------- The cases ----------

  lemma EvalCaps(caps: seq<CapEntry>, a: seq<CapTree>, b: seq<CapTree>)
    ensures caps + Encode(a) + Encode(b) == caps + Encode(a + b)
    ensures caps + Encode([]) == caps
  {
    EncodeAppend(a, b);
  }

  lemma GoesUnfold(x: Site, fuel: nat, t: Tree, opt: bool, fl: Charset, a: nat, b: nat, s: nat, k: Stack,
                   caps: seq<CapEntry>)
    requires s <= |x.m.subj| && Goes(x, fuel, t, opt, fl, a, b, s, k, caps)
    ensures var (r, from) := (Act(fuel, x.g, t, opt, fl, x.m.subj, s), Run(a, s, k, caps));
            && (r.Passes? && r.left ==> Leaves(x.m, from, r.end, k, caps + Encode(r.caps)))
            && (r.Passes? && !r.left ==> GoesOn(x.m, from, opt, b, r.end, k, caps + Encode(r.caps)))
            && (r.Fails? ==> Joins(x.m, from, FailTo(k, caps)))
  {
    hide Act, Joins, GoesOn, Leaves;
  }

  lemma GoesFold(x: Site, fuel: nat, t: Tree, opt: bool, fl: Charset, a: nat, b: nat, s: nat, k: Stack,
                 caps: seq<CapEntry>)
    requires s <= |x.m.subj|
    requires var (r, from) := (Act(fuel, x.g, t, opt, fl, x.m.subj, s), Run(a, s, k, caps));
             && (r.Passes? && r.left ==> Leaves(x.m, from, r.end, k, caps + Encode(r.caps)))
             && (r.Passes? && !r.left ==> GoesOn(x.m, from, opt, b, r.end, k, caps + Encode(r.caps)))
             && (r.Fails? ==> Joins(x.m, from, FailTo(k, caps)))
    ensures Goes(x, fuel, t, opt, fl, a, b, s, k, caps)
  {
    hide Act, Joins, GoesOn, Leaves;
  }

  lemma GoesOff(m: Machine, from: Conf, b: nat, e: nat, k: Stack, caps: seq<CapEntry>)
    requires GoesOn(m, from, false, b, e, k, caps)
    ensures Joins(m, from, Run(b, e, k, caps))
  {
  }

  lemma SimLeaf(x: Site, fuel: nat, t: Tree, opt: bool, tt: Guard, fl: Charset, a: nat, s: nat, k: Stack,
      caps: seq<CapEntry>)
    requires Pre(x, fuel, t, opt, tt, fl, a, s, k, caps)
    requires !opt && (t.TChar? || t.TSet? || t.TAny? || t.TTrue? || t.TFalse?)
    ensures Goes(x, fuel, t, opt, fl, a, a + |Gen(x.g, t, opt, tt, fl)|, s, k, caps)
  {
    hide Fixedlenx, HasCaptures, Getfirst, Checkaux, Headfailx, Joins, FailTo, RulesReady;
    EvalCaps(caps, [], []);
    if t.TTrue? {
      JoinsRefl(x.m, Run(a, s, k, caps));
    } else {
      var i := Gen(x.g, t, opt, tt, fl)[0];
      assert Gen(x.g, t, opt, tt, fl) == [i];
      PlacedOne(x, a, i);
      if !t.TFalse? {
        assert ToCharset(t) == FULLSET ==> forall c: Byte :: c in ToCharset(t);
      }
      JoinsStep(x.m, Run(a, s, k, caps));
    }
  }

  lemma SeqMeans(g: Rules, t: Tree, opt: bool, fl: Charset, fuel: nat, subj: Subject, s: nat)
    requires s <= |subj| && t.TSeq? && WellFormed(g, t)
    ensures WellFormed(g, t.first) && WellFormed(g, t.second)
    ensures var r1 := Act(fuel, g, t.first, false, FollowOf(g, t.first, t.second, fl), subj, s);
            Act(fuel, g, t, opt, fl, subj, s) ==
            if !r1.Passes? then r1
            else
              var r2 := Act(fuel, g, t.second, opt, fl, subj, r1.end);
              if r2.Passes? then Passes(r2.end, r1.caps + r2.caps, r2.left) else r2
  {
    hide Fixedlenx, HasCaptures, FollowOf;
  }

  lemma SimSeq(x: Site, fuel: nat, t: Tree, opt: bool, tt: Guard, fl: Charset, a: nat, s: nat, k: Stack,
      caps: seq<CapEntry>)
    requires Pre(x, fuel, t, opt, tt, fl, a, s, k, caps)
    requires t.TSeq?
    ensures Goes(x, fuel, t, opt, fl, a, a + |Gen(x.g, t, opt, tt, fl)|, s, k, caps)
    decreases fuel, t, 0
  {
    hide Act, Gen, WellFormed, Placed, RulesReady, Joins, FailTo, Getfirst, Headfailx, CharsetType,
      Fixedlenx, HasCaptures, FirstOf, Headfail, GenTest, Encode, EncodeOne, SpanEnd, CloseCap, Resolved,
      JumpsToReturn, AndByBehind, CaptureFull, Needfollow, Goes, GoesOn, Leaves;
    var TSeq(p1, p2) := t;
    var g, subj := x.g, x.m.subj;
    SeqMeans(g, t, opt, fl, fuel, subj, s);
    GenUnfold(g, t, opt, tt, fl);
    var fl1, tt2 := FollowOf(g, p1, p2, fl), GuardOfSecond(g, p1, tt);
    var c1, c2 := Gen(g, p1, false, tt, fl1), Gen(g, p2, opt, tt2, fl);
    PlacedSplit(x, a, c1, c2);
    var b1, b := a + |c1|, a + |c1| + |c2|;
    var r, r1 := Act(fuel, g, t, opt, fl, subj, s), Act(fuel, g, p1, false, fl1, subj, s);
    var start := Run(a, s, k, caps);
    if r.Going? {
      GoesFold(x, fuel, t, opt, fl, a, b, s, k, caps);
      return;
    }
    assert forall c: Byte :: c in FULLSET;
    if r1.Passes? {
      var caps1 := caps + Encode(r1.caps);
      var mid := Run(b1, r1.end, k, caps1);
      var r2 := Act(fuel, g, p2, opt, fl, subj, r1.end);
      LevelsWeaken(k, |caps|, |caps1|);
      FailForgets(k, caps, Encode(r1.caps));
      if r2.Passes? {
        EvalCaps(caps, r1.caps, r2.caps);
      }
      if Fixedlen(g, p1) == 0 {
        FixedlenHolds(fuel, g, p1, fl1, subj, s);
      }
      Sim(x, fuel, p2, opt, tt2, fl, b1, r1.end, k, caps1);
      GoesUnfold(x, fuel, p2, opt, fl, b1, b, r1.end, k, caps1);
      if Needfollow(p1) && r1.end < |subj| && subj[r1.end] !in fl1 {
        FirstAnnounced(fuel, g, p2, opt, fl, subj, r1.end);
        if r2.Passes? && !opt {
          GoesOff(x.m, mid, b, r2.end, k, caps1 + Encode(r2.caps));
          JoinsTrans(x.m, mid, Run(b, r2.end, k, caps1 + Encode(r2.caps)), FailTo(k, caps));
        }
      }
      Sim(x, fuel, p1, false, tt, fl1, a, s, k, caps);
      GoesUnfold(x, fuel, p1, false, fl1, a, b1, s, k, caps);
      GoesOff(x.m, start, b1, r1.end, k, caps1);
      if r2.Passes? {
        GoesAfter(x.m, start, mid, opt, b, r2.end, k, caps1 + Encode(r2.caps));
      } else {
        JoinsTrans(x.m, start, mid, FailTo(k, caps));
      }
    } else {
      Sim(x, fuel, p1, false, tt, fl1, a, s, k, caps);
      GoesUnfold(x, fuel, p1, false, fl1, a, b1, s, k, caps);
    }
    GoesFold(x, fuel, t, opt, fl, a, b, s, k, caps);
  }

  /** p1 / p2 when the test of p1 decides: no choice is needed. */
  lemma SimChoiceTest(x: Site, fuel: nat, t: Tree, opt: bool, tt: Guard, fl: Charset, a: nat, s: nat, k: Stack,
      caps: seq<CapEntry>)
    requires Pre(x, fuel, t, opt, tt, fl, a, s, k, caps)
    requires t.TChoice? && ChoiceByTest(x.g, t.first, t.second, fl)
    ensures Goes(x, fuel, t, opt, fl, a, a + |Gen(x.g, t, opt, tt, fl)|, s, k, caps)
    decreases fuel, t, 0
  {
    hide Act, Gen, WellFormed, Placed, RulesReady, Joins, FailTo, Getfirst, Headfailx, CharsetType,
      Fixedlenx, HasCaptures, FirstOf, Headfail, GenTest, Encode, EncodeOne, SpanEnd, CloseCap, Resolved,
      JumpsToReturn, AndByBehind, CaptureFull, Goes, GoesOn, Leaves, ChoiceByTest;
    var TChoice(p1, p2) := t;
    var g, subj := x.g, x.m.subj;
    var r := Act(fuel, g, t, opt, fl, subj, s);
    ChoiceMeans(g, p1, p2, opt, fl, fuel, subj, s);
    ChoiceTestPlaced(x, t, opt, tt, fl, a);
    var f1 := FirstOf(g, p1, FULLSET);
    ByTestCases(g, p1, p2, fl);
    if Headfail(g, p1) { ByTestNotEmpty(g, p1); }
    var test := GenTest(f1.cs, false);
    var c1, c2 := Gen(g, p1, false, test, fl), Gen(g, p2, opt, NoGuard, fl);
    var jmp := if p2.TTrue? then [] else [IJmp(|c2| + 1)];
    var b1 := a + 1 + |c1|;
    var b2 := b1 + |jmp|;
    var b := b2 + |c2|;
    var start := Run(a, s, k, caps);
    if r.Going? {
      GoesFold(x, fuel, t, opt, fl, a, b, s, k, caps);
      return;
    }
    assert forall c: Byte :: c in FULLSET;
    TestRuns(x, f1.cs, |c1| + |jmp| + 1, a, s, k, caps);
    if AtChar(subj, s, f1.cs) {
      var r1 := Act(fuel, g, p1, false, fl, subj, s);
      if r1.Passes? {
        var after := Run(b1, r1.end, k, caps + Encode(r1.caps));
        var end := Run(b, r1.end, k, caps + Encode(r1.caps));
        if p2.TTrue? {
          JoinsRefl(x.m, end);
        } else {
          PlacedOne(x, b1, IJmp(|c2| + 1));
          JoinsStep(x.m, after);
        }
        if r1.end < |subj| && subj[r1.end] !in fl {
          JoinsTrans(x.m, after, end, FailTo(k, caps));
        }
        Sim(x, fuel, p1, false, test, fl, a + 1, s, k, caps);
        GoesUnfold(x, fuel, p1, false, fl, a + 1, b1, s, k, caps);
        GoesOff(x.m, Run(a + 1, s, k, caps), b1, r1.end, k, caps + Encode(r1.caps));
        JoinsNext(x.m, start, after);
        JoinsTrans(x.m, start, after, end);
        GoesPlain(x.m, start, opt, b, r1.end, k, caps + Encode(r1.caps));
      } else {
        Sim(x, fuel, p1, false, test, fl, a + 1, s, k, caps);
        GoesUnfold(x, fuel, p1, false, fl, a + 1, b1, s, k, caps);
        JoinsNext(x.m, start, FailTo(k, caps));
        if Headfail(g, p1) {
          HeadfailDecides(fuel, g, p1, false, fl, subj, s);
        }
        if r.Passes? {
          FirstAnnounced(fuel, g, p2, opt, fl, subj, s);
          var end := Run(b, r.end, k, caps + Encode(r.caps));
          assert subj[s] !in f1.cs * FirstOf(g, p2, fl).cs;
          JoinsSym(x.m, end, FailTo(k, caps));
          JoinsTrans(x.m, start, FailTo(k, caps), end);
          GoesPlain(x.m, start, opt, b, r.end, k, caps + Encode(r.caps));
        }
      }
    } else {
      if Act(fuel, g, p1, false, fl, subj, s).Passes? {
        TestSound(fuel, g, p1, false, fl, subj, s);
      }
      var second := Run(b2, s, k, caps);
      Sim(x, fuel, p2, opt, NoGuard, fl, b2, s, k, caps);
      GoesUnfold(x, fuel, p2, opt, fl, b2, b, s, k, caps);
      JoinsStep(x.m, start);
      if r.Passes? {
        GoesAfter(x.m, start, second, opt, b, r.end, k, caps + Encode(r.caps));
      } else {
        JoinsTrans(x.m, start, second, FailTo(k, caps));
      }
    }
    GoesFold(x, fuel, t, opt, fl, a, b, s, k, caps);
  }

  lemma ByTestCases(g: Rules, p1: Tree, p2: Tree, fl: Charset)
    requires ChoiceByTest(g, p1, p2, fl)
    ensures Headfail(g, p1) ||
            (!FirstOf(g, p1, FULLSET).e && FirstOf(g, p1, FULLSET).cs * FirstOf(g, p2, fl).cs == {})
  {
    hide FirstOf, Headfail;
  }

  lemma ChoiceMeans(g: Rules, p1: Tree, p2: Tree, opt: bool, fl: Charset, fuel: nat, subj: Subject, s: nat)
    requires s <= |subj| && WellFormed(g, TChoice(p1, p2))
    ensures WellFormed(g, p1) && WellFormed(g, p2)
    ensures var r := Act(fuel, g, TChoice(p1, p2), opt, fl, subj, s);
            if ChoiceByTest(g, p1, p2, fl) then
              var r1 := Act(fuel, g, p1, false, fl, subj, s);
              r == if r1.Fails? then Act(fuel, g, p2, opt, fl, subj, s) else r1
            else if opt && p2.TTrue? then
              var r1 := Act(fuel, g, p1, true, FULLSET, subj, s);
              r == if r1.Fails? then Passes(s, [], true) else r1
            else
              var r1 := Act(fuel, g, p1, p2.TTrue?, FULLSET, subj, s);
              r == if r1.Fails? then Act(fuel, g, p2, opt, fl, subj, s)
                   else if r1.Passes? then Passes(r1.end, r1.caps, false) else Going
  {
    hide Fixedlenx, HasCaptures, ChoiceByTest;
  }

  /** p1? that moves the choice already on top instead of making its own. */
  lemma SimChoiceOpt(x: Site, fuel: nat, t: Tree, opt: bool, tt: Guard, fl: Charset, a: nat, s: nat, k: Stack,
      caps: seq<CapEntry>)
    requires Pre(x, fuel, t, opt, tt, fl, a, s, k, caps)
    requires t.TChoice? && !ChoiceByTest(x.g, t.first, t.second, fl) && opt && t.second.TTrue?
    ensures Goes(x, fuel, t, opt, fl, a, a + |Gen(x.g, t, opt, tt, fl)|, s, k, caps)
    decreases fuel, t, 0
  {
    hide Act, Gen, WellFormed, Placed, RulesReady, Joins, FailTo, Getfirst, Headfailx, CharsetType,
      Fixedlenx, HasCaptures, FirstOf, Headfail, GenTest, Encode, EncodeOne, SpanEnd, CloseCap, Resolved,
      JumpsToReturn, AndByBehind, CaptureFull, Goes, GoesOn, Leaves, ChoiceByTest;
    var TChoice(p1, p2) := t;
    var g, subj := x.g, x.m.subj;
    ChoiceMeans(g, p1, p2, opt, fl, fuel, subj, s);
    ChoiceOptPlaced(x, t, tt, fl, a);
    var c1 := Gen(g, p1, true, NoGuard, FULLSET);
    PlacedOne(x, a, IPartialCommit(1));
    var b := a + 1 + |c1|;
    var frame := Choice(k.top.p, s, |caps|);
    var k1 := Push(frame, k.rest);
    LevelsWeaken(k.rest, k.top.level, |caps|);
    assert forall c: Byte :: c in FULLSET;
    Sim(x, fuel, p1, true, NoGuard, FULLSET, a + 1, s, k1, caps);
    GoesUnfold(x, fuel, p1, true, FULLSET, a + 1, b, s, k1, caps);
    var start, inside := Run(a, s, k, caps), Run(a + 1, s, k1, caps);
    assert Step(x.m, start) == inside;
    JoinsStep(x.m, start);
    var r1 := Act(fuel, g, p1, true, FULLSET, subj, s);
    if r1.Passes? {
      var caps1 := caps + Encode(r1.caps);
      GoesRenewed(x.m, inside, b, r1.end, k, k1, caps1);
      GoesAfter(x.m, start, inside, true, b, r1.end, k, caps1);
    } else if r1.Fails? {
      EvalCaps(caps, [], []);
      FailToChoice(frame, k.rest, caps);
      JoinsTrans(x.m, start, inside, Run(frame.p, s, k.rest, caps));
      LeavesNow(x.m, start, s, k, caps);
    }
    GoesFold(x, fuel, t, opt, fl, a, b, s, k, caps);
  }

  lemma LeavesNow(m: Machine, from: Conf, e: nat, k: Stack, caps: seq<CapEntry>)
    requires k.Push? && k.top.Choice? && Joins(m, from, Run(k.top.p, e, k.rest, caps))
    ensures Leaves(m, from, e, k, caps)
  {
  }

  lemma FailToChoice(frame: Frame, rest: Stack, caps: seq<CapEntry>)
    requires frame.Choice? && frame.level == |caps|
    ensures FailTo(Push(frame, rest), caps) == Run(frame.p, frame.s, rest, caps)
  {
    assert caps[..|caps|] == caps;
  }

  /** The optional test in front of a choice: if it jumps, the pattern does not match here. */
  lemma TestSkips(x: Site, fuel: nat, p: Tree, opt: bool, fl: Charset, off: int, a: nat, s: nat, k: Stack,
                  caps: seq<CapEntry>)
    requires s <= |x.m.subj|
    requires var f := FirstOf(x.g, p, FULLSET); Placed(x, a, TestCode(GenTest(f.cs, f.e), off))
    ensures var f := FirstOf(x.g, p, FULLSET);
            var test := GenTest(f.cs, f.e);
            && (Skips(x.g, p, x.m.subj, s) <==> test.Guarded? && !AtChar(x.m.subj, s, f.cs))
            && if test.Guarded? && !AtChar(x.m.subj, s, f.cs) then
                 !Act(fuel, x.g, p, opt, fl, x.m.subj, s).Passes? &&
                 Joins(x.m, Run(a, s, k, caps), Run(a + off, s, k, caps))
               else
                 (test.Guarded? ==> TestPasses(test.test, x.m.subj, s)) &&
                 Joins(x.m, Run(a, s, k, caps), Run(a + |TestCode(test, off)|, s, k, caps))
  {
    hide Getfirst, Joins, FailTo, Act;
    var f := FirstOf(x.g, p, FULLSET);
    var test := GenTest(f.cs, f.e);
    if test.Guarded? {
      TestRuns(x, f.cs, off, a, s, k, caps);
      JoinsStep(x.m, Run(a, s, k, caps));
      if Act(fuel, x.g, p, opt, fl, x.m.subj, s).Passes? {
        TestSound(fuel, x.g, p, opt, fl, x.m.subj, s);
      }
    } else {
      JoinsRefl(x.m, Run(a, s, k, caps));
    }
  }

  /** p1 / p2 with a choice of its own; if p2 is empty, p1 may leave through that choice. */
  lemma SimChoiceFull(x: Site, fuel: nat, t: Tree, opt: bool, tt: Guard, fl: Charset, a: nat, s: nat, k: Stack,
      caps: seq<CapEntry>)
    requires Pre(x, fuel, t, opt, tt, fl, a, s, k, caps)
    requires t.TChoice? && !ChoiceByTest(x.g, t.first, t.second, fl) && !(opt && t.second.TTrue?)
    ensures Goes(x, fuel, t, opt, fl, a, a + |Gen(x.g, t, opt, tt, fl)|, s, k, caps)
    decreases fuel, t, 0
  {
    hide Act, Gen, WellFormed, Placed, RulesReady, Joins, FailTo, Getfirst, Headfailx, CharsetType,
      Fixedlenx, HasCaptures, FirstOf, Headfail, GenTest, Encode, EncodeOne, SpanEnd, CloseCap, Resolved,
      JumpsToReturn, AndByBehind, CaptureFull, Goes, GoesOn, Leaves, ChoiceByTest, Skips;
    var TChoice(p1, p2) := t;
    var g, subj := x.g, x.m.subj;
    var r := Act(fuel, g, t, opt, fl, subj, s);
    ChoiceMeans(g, p1, p2, opt, fl, fuel, subj, s);
    ChoiceFullPlaced(x, t, opt, tt, fl, a);
    var f1 := FirstOf(g, p1, FULLSET);
    var test := GenTest(f1.cs, f1.e);
    var c1, c2 := Gen(g, p1, p2.TTrue?, test, FULLSET), Gen(g, p2, opt, NoGuard, fl);
    var tc := TestCode(test, |c1| + 3);
    var a1 := a + |tc|;
    PlacedOne(x, a1, IChoice(|c1| + 2));
    PlacedOne(x, a1 + 1 + |c1|, ICommit(|c2| + 1));
    var b1 := a1 + 1 + |c1|;
    var b2 := b1 + 1;
    var b := b2 + |c2|;
    if r.Going? {
      GoesFold(x, fuel, t, opt, fl, a, b, s, k, caps);
      return;
    }
    assert forall c: Byte :: c in FULLSET;
    var start, second := Run(a, s, k, caps), Run(b2, s, k, caps);
    TestSkips(x, fuel, p1, p2.TTrue?, FULLSET, |c1| + 3, a, s, k, caps);
    var r1 := Act(fuel, g, p1, p2.TTrue?, FULLSET, subj, s);
    if test.NoGuard? || AtChar(subj, s, f1.cs) {
      var frame := Choice(b2, s, |caps|);
      var k1 := Push(frame, k);
      var inside, body := Run(a1, s, k, caps), Run(a1 + 1, s, k1, caps);
      assert Step(x.m, inside) == body;
      JoinsStep(x.m, inside);
      Sim(x, fuel, p1, p2.TTrue?, test, FULLSET, a1 + 1, s, k1, caps);
      GoesUnfold(x, fuel, p1, p2.TTrue?, FULLSET, a1 + 1, b1, s, k1, caps);
      if r1.Passes? {
        var caps1 := caps + Encode(r1.caps);
        if p2.TTrue? {
          GenUnfold(g, p2, opt, NoGuard, fl);
        }
        CommitAfter(x, p2.TTrue?, r1.left, body, b1, |c2|, r1.end, k, frame, caps1);
        JoinsTrans(x.m, inside, body, Run(b, r1.end, k, caps1));
        JoinsTrans(x.m, start, inside, Run(b, r1.end, k, caps1));
        GoesPlain(x.m, start, opt, b, r1.end, k, caps1);
      } else {
        FailToChoice(frame, k, caps);
        JoinsTrans(x.m, inside, body, second);
        JoinsTrans(x.m, start, inside, second);
      }
    }
    if !r1.Passes? {
      Sim(x, fuel, p2, opt, NoGuard, fl, b2, s, k, caps);
      GoesUnfold(x, fuel, p2, opt, fl, b2, b, s, k, caps);
      if r.Passes? {
        GoesAfter(x.m, start, second, opt, b, r.end, k, caps + Encode(r.caps));
      } else {
        JoinsTrans(x.m, start, second, FailTo(k, caps));
      }
    }
    GoesFold(x, fuel, t, opt, fl, a, b, s, k, caps);
  }

  /** The end of the first pattern of a choice: it commits, or has left to the place behind an empty p2. */
  lemma CommitAfter(x: Site, opt: bool, left: bool, body: Conf, b1: nat, n: nat, e: nat, k: Stack, frame: Frame,
                    caps: seq<CapEntry>)
    requires b1 < |x.m.code| && x.m.code[b1] == ICommit(n + 1) && frame.Choice? && frame.p == b1 + 1
    requires left ==> opt && n == 0 && Leaves(x.m, body, e, Push(frame, k), caps)
    requires !left ==> GoesOn(x.m, body, opt, b1, e, Push(frame, k), caps)
    ensures Joins(x.m, body, Run(b1 + 1 + n, e, k, caps))
  {
    hide Joins;
    if !left {
      var k' := if opt then var k2 :| Renewed(Push(frame, k), k2, |caps|) && Joins(x.m, body, Run(b1, e, k2, caps)); k2
                else Push(frame, k);
      JoinsStep(x.m, Run(b1, e, k', caps));
      JoinsTrans(x.m, body, Run(b1, e, k', caps), Run(b1 + 1 + n, e, k, caps));
    }
  }

  lemma NotMeans(g: Rules, p: Tree, fl: Charset, fuel: nat, subj: Subject, s: nat)
    requires s <= |subj| && WellFormed(g, TNot(p))
    ensures WellFormed(g, p)
    ensures var r1 := Act(fuel, g, p, false, FULLSET, subj, s);
            Act(fuel, g, TNot(p), false, fl, subj, s) ==
            if r1.Fails? then Passes(s, [], false) else if r1.Passes? then Fails else Going
  {
    hide Fixedlenx, HasCaptures, Getfirst, Checkaux, Headfailx, CharsetType, OptTail, Gen;
  }

  lemma SimNot(x: Site, fuel: nat, t: Tree, opt: bool, tt: Guard, fl: Charset, a: nat, s: nat, k: Stack,
      caps: seq<CapEntry>)
    requires Pre(x, fuel, t, opt, tt, fl, a, s, k, caps)
    requires !opt && t.TNot?
    ensures Goes(x, fuel, t, opt, fl, a, a + |Gen(x.g, t, opt, tt, fl)|, s, k, caps)
    decreases fuel, t, 0
  {
    hide Act, Gen, WellFormed, Placed, RulesReady, Headfail, Pre, Goes;
    if Headfail(x.g, t.body) {
      NotByTest(x, fuel, t, opt, tt, fl, a, s, k, caps);
    } else {
      NotByChoice(x, fuel, t, opt, tt, fl, a, s, k, caps);
    }
  }

  /** The test of a head-fail pattern decides. */
  lemma NotByTest(x: Site, fuel: nat, t: Tree, opt: bool, tt: Guard, fl: Charset, a: nat, s: nat, k: Stack,
      caps: seq<CapEntry>)
    requires Pre(x, fuel, t, opt, tt, fl, a, s, k, caps)
    requires !opt && t.TNot? && Headfail(x.g, t.body)
    ensures Goes(x, fuel, t, opt, fl, a, a + |Gen(x.g, t, opt, tt, fl)|, s, k, caps)
  {
    hide Act, Gen, WellFormed, Placed, RulesReady, Joins, FailTo, Getfirst, Headfailx, CharsetType,
      Fixedlenx, HasCaptures, FirstOf, Headfail, GenTest, Encode, EncodeOne, SpanEnd, CloseCap, Resolved,
      JumpsToReturn, AndByBehind, CaptureFull;
    var p := t.body;
    var g, subj := x.g, x.m.subj;
    NotMeans(g, p, fl, fuel, subj, s);
    NotPlaced(x, t, opt, tt, fl, a);
    if Act(fuel, g, t, false, fl, subj, s).Going? { return; }
    EvalCaps(caps, [], []);
    var f := FirstOf(g, p, FULLSET);
    var test := GenTest(f.cs, f.e);
    var start := Run(a, s, k, caps);
    var tc := TestCode(test, 2);
    ByTestNotEmpty(g, p);
    PlacedOne(x, a + 1, IFail);
    TestSkips(x, fuel, p, false, FULLSET, 2, a, s, k, caps);
    HeadfailDecides(fuel, g, p, false, FULLSET, subj, s);
    if AtChar(subj, s, f.cs) {
      JoinsStep(x.m, Run(a + 1, s, k, caps));
      JoinsTrans(x.m, start, Run(a + 1, s, k, caps), FailTo(k, caps));
    }
  }

  /** A match fails twice, past the choice. */
  lemma NotByChoice(x: Site, fuel: nat, t: Tree, opt: bool, tt: Guard, fl: Charset, a: nat, s: nat, k: Stack,
      caps: seq<CapEntry>)
    requires Pre(x, fuel, t, opt, tt, fl, a, s, k, caps)
    requires !opt && t.TNot? && !Headfail(x.g, t.body)
    ensures Goes(x, fuel, t, opt, fl, a, a + |Gen(x.g, t, opt, tt, fl)|, s, k, caps)
    decreases fuel, t.body, 5
  {
    hide Act, Gen, WellFormed, Placed, RulesReady, Joins, FailTo, Getfirst, Headfailx, CharsetType,
      Fixedlenx, HasCaptures, FirstOf, Headfail, GenTest, Encode, EncodeOne, SpanEnd, CloseCap, Resolved,
      JumpsToReturn, AndByBehind, CaptureFull;
    var p := t.body;
    var g, subj := x.g, x.m.subj;
    NotMeans(g, p, fl, fuel, subj, s);
    NotPlaced(x, t, opt, tt, fl, a);
    if Act(fuel, g, t, false, fl, subj, s).Going? { return; }
    EvalCaps(caps, [], []);
    var f := FirstOf(g, p, FULLSET);
    var test := GenTest(f.cs, f.e);
    var start := Run(a, s, k, caps);
    var c := Gen(g, p, false, NoGuard, FULLSET);
    var tc := TestCode(test, |c| + 3);
    var a1 := a + |tc|;
    PlacedOne(x, a1, IChoice(|c| + 2));
    PlacedOne(x, a1 + 1 + |c|, IFailTwice);
    var b := a1 + 2 + |c|;
    TestSkips(x, fuel, p, false, FULLSET, |c| + 3, a, s, k, caps);
    if test.NoGuard? || AtChar(subj, s, f.cs) {
      var frame := Choice(b, s, |caps|);
      var k1 := Push(frame, k);
      var inside := Run(a1, s, k, caps);
      assert Step(x.m, inside) == Run(a1 + 1, s, k1, caps);
      Sim(x, fuel, p, false, NoGuard, FULLSET, a1 + 1, s, k1, caps);
      var r1 := Act(fuel, g, p, false, FULLSET, subj, s);
      if r1.Passes? {
        var after := Run(a1 + 1 + |c|, r1.end, k1, caps + Encode(r1.caps));
        JoinsNext(x.m, inside, after);
        FailForgets(k, caps, Encode(r1.caps));
        JoinsStep(x.m, after);
        JoinsTrans(x.m, inside, after, FailTo(k, caps));
        JoinsTrans(x.m, start, inside, FailTo(k, caps));
      } else {
        FailToChoice(frame, k, caps);
        JoinsNext(x.m, inside, Run(b, s, k, caps));
        JoinsTrans(x.m, start, inside, Run(b, s, k, caps));
      }
    }
  }

  lemma AndMeans(g: Rules, p: Tree, fl: Charset, fuel: nat, subj: Subject, s: nat)
    requires s <= |subj| && WellFormed(g, TAnd(p))
    ensures WellFormed(g, p)
    ensures var r1 := Act(fuel, g, p, false, FULLSET, subj, s);
            Act(fuel, g, TAnd(p), false, fl, subj, s) ==
            if r1.Passes? then Passes(s, if AndByBehind(g, p) then r1.caps else [], false) else r1
  {
    hide Fixedlenx, HasCaptures, Getfirst, Checkaux, Headfailx, CharsetType, OptTail, Gen;
  }

  lemma SimAnd(x: Site, fuel: nat, t: Tree, opt: bool, tt: Guard, fl: Charset, a: nat, s: nat, k: Stack,
      caps: seq<CapEntry>)
    requires Pre(x, fuel, t, opt, tt, fl, a, s, k, caps)
    requires !opt && t.TAnd?
    ensures Goes(x, fuel, t, opt, fl, a, a + |Gen(x.g, t, opt, tt, fl)|, s, k, caps)
    decreases fuel, t, 0
  {
    hide Act, Gen, WellFormed, Placed, RulesReady, AndByBehind, Pre, Goes;
    if AndByBehind(x.g, t.body) {
      AndLooksBack(x, fuel, t, opt, tt, fl, a, s, k, caps);
    } else {
      AndByChoice(x, fuel, t, opt, tt, fl, a, s, k, caps);
    }
  }

  /** The body is matched and gone back over. */
  lemma AndLooksBack(x: Site, fuel: nat, t: Tree, opt: bool, tt: Guard, fl: Charset, a: nat, s: nat, k: Stack,
      caps: seq<CapEntry>)
    requires Pre(x, fuel, t, opt, tt, fl, a, s, k, caps)
    requires !opt && t.TAnd? && AndByBehind(x.g, t.body)
    ensures Goes(x, fuel, t, opt, fl, a, a + |Gen(x.g, t, opt, tt, fl)|, s, k, caps)
    decreases fuel, t.body, 5
  {
    hide Act, Gen, WellFormed, Placed, RulesReady, Joins, FailTo, Getfirst, Headfailx, CharsetType,
      Fixedlenx, HasCaptures, FirstOf, Headfail, GenTest, Encode, EncodeOne, SpanEnd, CloseCap, Resolved,
      JumpsToReturn, CaptureFull;
    var p := t.body;
    var g, subj := x.g, x.m.subj;
    var r1 := Act(fuel, g, p, false, FULLSET, subj, s);
    AndMeans(g, p, fl, fuel, subj, s);
    AndPlaced(x, t, opt, tt, fl, a);
    if r1.Going? { return; }
    EvalCaps(caps, [], []);
    var c := Gen(g, p, false, tt, FULLSET);
    var start := Run(a, s, k, caps);
    var n := Fixedlen(g, p);
    Sim(x, fuel, p, false, tt, FULLSET, a, s, k, caps);
    if r1.Passes? {
      FixedlenHolds(fuel, g, p, FULLSET, subj, s);
      if n > 0 {
        var caps1 := caps + Encode(r1.caps);
        PlacedOne(x, a + |c|, IBehind(n));
        JoinsStep(x.m, Run(a + |c|, r1.end, k, caps1));
        JoinsTrans(x.m, start, Run(a + |c|, r1.end, k, caps1), Run(a + |c| + 1, s, k, caps1));
      }
    }
  }

  /** A match commits back to where it started. */
  lemma AndByChoice(x: Site, fuel: nat, t: Tree, opt: bool, tt: Guard, fl: Charset, a: nat, s: nat, k: Stack,
      caps: seq<CapEntry>)
    requires Pre(x, fuel, t, opt, tt, fl, a, s, k, caps)
    requires !opt && t.TAnd? && !AndByBehind(x.g, t.body)
    ensures Goes(x, fuel, t, opt, fl, a, a + |Gen(x.g, t, opt, tt, fl)|, s, k, caps)
    decreases fuel, t.body, 5
  {
    hide Act, Gen, WellFormed, Placed, RulesReady, Joins, FailTo, Getfirst, Headfailx, CharsetType,
      Fixedlenx, HasCaptures, FirstOf, Headfail, GenTest, Encode, EncodeOne, SpanEnd, CloseCap, Resolved,
      JumpsToReturn, CaptureFull;
    var p := t.body;
    var g, subj := x.g, x.m.subj;
    var r1 := Act(fuel, g, p, false, FULLSET, subj, s);
    AndMeans(g, p, fl, fuel, subj, s);
    AndPlaced(x, t, opt, tt, fl, a);
    if r1.Going? { return; }
    EvalCaps(caps, [], []);
    var c := Gen(g, p, false, tt, FULLSET);
    var start := Run(a, s, k, caps);
    PlacedOne(x, a, IChoice(|c| + 2));
    PlacedOne(x, a + 1 + |c|, IBackCommit(2));
    PlacedOne(x, a + 2 + |c|, IFail);
    var frame := Choice(a + 2 + |c|, s, |caps|);
    var k1 := Push(frame, k);
    assert Step(x.m, start) == Run(a + 1, s, k1, caps);
    Sim(x, fuel, p, false, tt, FULLSET, a + 1, s, k1, caps);
    if r1.Passes? {
      var after := Run(a + 1 + |c|, r1.end, k1, caps + Encode(r1.caps));
      JoinsNext(x.m, start, after);
      assert (caps + Encode(r1.caps))[..|caps|] == caps;
      JoinsStep(x.m, after);
      JoinsTrans(x.m, start, after, Run(a + 3 + |c|, s, k, caps));
    } else {
      FailToChoice(frame, k, caps);
      var fail := Run(a + 2 + |c|, s, k, caps);
      JoinsNext(x.m, start, fail);
      JoinsStep(x.m, fail);
      JoinsTrans(x.m, start, fail, FailTo(k, caps));
    }
  }

  lemma BehindMeans(g: Rules, t: Tree, fl: Charset, fuel: nat, subj: Subject, s: nat)
    requires s <= |subj| && t.TBehind? && WellFormed(g, t)
    ensures WellFormed(g, t.body) && t.back > 0 && Fixedlen(g, t.body) == t.back
    ensures t.back > s ==> Act(fuel, g, t, false, fl, subj, s) == Fails
    ensures t.back <= s ==>
              var r1 := Act(fuel, g, t.body, false, FULLSET, subj, s - t.back);
              Act(fuel, g, t, false, fl, subj, s) == if r1.Passes? then Passes(s, r1.caps, false) else r1
  {
    hide Fixedlenx, HasCaptures, Getfirst, Checkaux, Headfailx, CharsetType, OptTail, Gen;
  }

  lemma SimBehind(x: Site, fuel: nat, t: Tree, opt: bool, tt: Guard, fl: Charset, a: nat, s: nat, k: Stack,
      caps: seq<CapEntry>)
    requires Pre(x, fuel, t, opt, tt, fl, a, s, k, caps)
    requires !opt && t.TBehind?
    ensures Goes(x, fuel, t, opt, fl, a, a + |Gen(x.g, t, opt, tt, fl)|, s, k, caps)
    decreases fuel, t, 0
  {
    hide Act, Gen, WellFormed, Placed, RulesReady, Joins, FailTo, Getfirst, Headfailx, CharsetType,
      Fixedlenx, HasCaptures, FirstOf, Headfail, GenTest, Encode, EncodeOne, SpanEnd, CloseCap, Resolved,
      JumpsToReturn, AndByBehind, CaptureFull;
    var TBehind(n, p) := t;
    var g, subj := x.g, x.m.subj;
    BehindMeans(g, t, fl, fuel, subj, s);
    GenUnfold(g, t, opt, tt, fl);
    EvalCaps(caps, [], []);
    var c := Gen(g, p, false, NoGuard, FULLSET);
    PlacedSplit(x, a, [IBehind(n)], c);
    PlacedOne(x, a, IBehind(n));
    var start := Run(a, s, k, caps);
    if n > s {
      JoinsStep(x.m, start);
    } else {
      var r1 := Act(fuel, g, p, false, FULLSET, subj, s - n);
      Sim(x, fuel, p, false, NoGuard, FULLSET, a + 1, s - n, k, caps);
      if r1.Passes? {
        FixedlenHolds(fuel, g, p, FULLSET, subj, s - n);
        JoinsNext(x.m, start, Run(a + 1 + |c|, s, k, caps + Encode(r1.caps)));
      } else if r1.Fails? {
        JoinsNext(x.m, start, FailTo(k, caps));
      }
    }
  }

  // ---------- Captures ----------

  lemma CaptureMeans(g: Rules, t: Tree, fl: Charset, fuel: nat, subj: Subject, s: nat)
    requires s <= |subj| && t.TCapture? && WellFormed(g, t)
    ensures WellFormed(g, t.body)
    ensures var r1 := Act(fuel, g, t.body, false, fl, subj, s);
            Act(fuel, g, t, false, fl, subj, s) ==
            if !r1.Passes? then r1
            else if CaptureFull(g, t.body) then Passes(r1.end, r1.caps + [CapTree(t.kind, t.key, s, r1.end, [])], false)
            else Passes(r1.end, [CapTree(t.kind, t.key, s, r1.end, r1.caps)], false)
  {
    hide Fixedlenx, HasCaptures, Getfirst, Checkaux, Headfailx, CharsetType, OptTail, Gen;
  }

  /** What the two ways of recording a capture leave in the list. */
  lemma CaptureEntries(kind: nat, key: int, start: nat, end: nat, inner: seq<CapTree>, caps: seq<CapEntry>)
    requires start <= end
    ensures var open := caps + [CapEntry(start, key, kind, 0)] + Encode(inner);
            CloseCap(open, end) == caps + Encode([CapTree(kind, key, start, end, inner)])
    ensures inner == [] && end - start < 255 ==>
              caps + [CapEntry(start, key, kind, end - start + 1)] ==
              caps + Encode([CapTree(kind, key, start, end, inner)])
  {
    var one := CapTree(kind, key, start, end, inner);
    assert Encode([one]) == EncodeOne(one) + Encode([]);
    assert Encode([one]) == EncodeOne(one);
    var open := caps + [CapEntry(start, key, kind, 0)] + Encode(inner);
    if inner == [] {
      assert open == caps + [CapEntry(start, key, kind, 0)];
      assert EncodeOne(one) == if end - start < 255 then [CapEntry(start, key, kind, end - start + 1)]
                               else [CapEntry(start, key, kind, 0)] + [CapEntry(end, 0, CCLOSE, 1)];
    } else {
      EncodeLast(inner);
      assert open[|open| - 1] == Encode(inner)[|Encode(inner)| - 1];
    }
  }

  lemma SimCapture(x: Site, fuel: nat, t: Tree, opt: bool, tt: Guard, fl: Charset, a: nat, s: nat, k: Stack,
      caps: seq<CapEntry>)
    requires Pre(x, fuel, t, opt, tt, fl, a, s, k, caps)
    requires !opt && t.TCapture?
    ensures Goes(x, fuel, t, opt, fl, a, a + |Gen(x.g, t, opt, tt, fl)|, s, k, caps)
    decreases fuel, t, 0
  {
    hide Act, Gen, WellFormed, Placed, RulesReady, Joins, FailTo, Getfirst, Headfailx, CharsetType,
      Fixedlenx, HasCaptures, FirstOf, Headfail, GenTest, Encode, EncodeOne, SpanEnd, CloseCap, Resolved,
      JumpsToReturn, AndByBehind;
    var g, subj, p := x.g, x.m.subj, t.body;
    CaptureMeans(g, t, fl, fuel, subj, s);
    CapturePlaced(x, t, opt, tt, fl, a);
    var r1 := Act(fuel, g, p, false, fl, subj, s);
    if r1.Going? { return; }
    var c := Gen(g, p, false, tt, fl);
    var b := a + |Gen(g, t, opt, tt, fl)|;
    var start := Run(a, s, k, caps);
    if CaptureFull(g, p) {
      var n := Fixedlen(g, p);
      PlacedOne(x, a + |c|, IFullCapture(t.kind, t.key, n));
      if r1.Passes? {
        FixedlenHolds(fuel, g, p, fl, subj, s);
        var caps1 := caps + Encode(r1.caps);
        EvalCaps(caps, r1.caps, [CapTree(t.kind, t.key, s, r1.end, [])]);
        CaptureEntries(t.kind, t.key, s, r1.end, [], caps1);
        var after := Run(a + |c|, r1.end, k, caps1);
        var end := Run(b, r1.end, k, caps1 + Encode([CapTree(t.kind, t.key, s, r1.end, [])]));
        JoinsStep(x.m, after);
        if r1.end < |subj| && subj[r1.end] !in fl {
          JoinsTrans(x.m, after, end, FailTo(k, caps));
        }
        Sim(x, fuel, p, false, tt, fl, a, s, k, caps);
        JoinsTrans(x.m, start, after, end);
      } else {
        Sim(x, fuel, p, false, tt, fl, a, s, k, caps);
      }
    } else {
      PlacedOne(x, a, IOpenCapture(t.kind, t.key));
      PlacedOne(x, a + 1 + |c|, ICloseCapture);
      var caps0 := caps + [CapEntry(s, t.key, t.kind, 0)];
      LevelsWeaken(k, |caps|, |caps0|);
      FailForgets(k, caps, [CapEntry(s, t.key, t.kind, 0)]);
      assert Step(x.m, start) == Run(a + 1, s, k, caps0);
      if r1.Passes? {
        CaptureEntries(t.kind, t.key, s, r1.end, r1.caps, caps);
        var after := Run(a + 1 + |c|, r1.end, k, caps0 + Encode(r1.caps));
        var end := Run(b, r1.end, k, caps + Encode([CapTree(t.kind, t.key, s, r1.end, r1.caps)]));
        JoinsStep(x.m, after);
        if r1.end < |subj| && subj[r1.end] !in fl {
          JoinsTrans(x.m, after, end, FailTo(k, caps));
        }
        Sim(x, fuel, p, false, tt, fl, a + 1, s, k, caps0);
        JoinsNext(x.m, start, after);
        JoinsTrans(x.m, start, after, end);
      } else {
        Sim(x, fuel, p, false, tt, fl, a + 1, s, k, caps0);
        JoinsNext(x.m, start, FailTo(k, caps));
      }
    }
  }

  // ---------- Repetitions ----------

  lemma RepMeans(g: Rules, t: Tree, opt: bool, fl: Charset, fuel: nat, subj: Subject, s: nat)
    requires s <= |subj| && t.TRep? && WellFormed(g, t)
    ensures WellFormed(g, t.body)
    ensures var r1 := Act(fuel, g, t.body, PassesOn(g, t.body, opt, fl), FULLSET, subj, s);
            Act(fuel, g, t, opt, fl, subj, s) ==
            if r1.Going? then Going
            else if r1.Fails? then Passes(s, [], Renews(g, t.body, opt, fl) && !Skips(g, t.body, subj, s))
            else if r1.left then r1
            else if fuel == 0 then Going
            else
              var r2 := Act(fuel - 1, g, t, opt, fl, subj, r1.end);
              if r2.Passes? then Passes(r2.end, r1.caps + r2.caps, r2.left || Renews(g, t.body, opt, fl)) else r2
  {
    hide Fixedlenx, HasCaptures, PassesOn, Renews, Skips;
  }

  lemma {:induction false} SpanEval(fuel: nat, g: Rules, p: Tree, fl: Charset, subj: Subject, s: nat)
    requires s <= |subj| && IsCharset(p)
    ensures var r := Act(fuel, g, TRep(p), false, fl, subj, s);
            r.Going? || r == Passes(SpanEnd(subj, s, ToCharset(p)), [], false)
    decreases fuel
  {
    hide LoopByTest, Skips;
    if fuel > 0 && s < |subj| && subj[s] in ToCharset(p) {
      SpanEval(fuel - 1, g, p, fl, subj, s + 1);
    }
  }

  lemma RepEnds(fuel: nat, g: Rules, t: Tree, opt: bool, fl: Charset, subj: Subject, s: nat)
    requires s <= |subj| && t.TRep?
    ensures !Act(fuel, g, t, opt, fl, subj, s).Fails?
  {
    ActNofail(fuel, g, t, opt, fl, 0, subj, s);
  }

  /** The loop that a test controls, from its test at `a`. */
  lemma {:induction false} LoopTestRuns(x: Site, fuel: nat, t: Tree, opt: bool, fl: Charset, a: nat, s: nat, k: Stack,
                                        caps: seq<CapEntry>)
    requires s <= |x.m.subj| && t.TRep? && RulesReady(x) && LevelsAtMost(k, |caps|)
    requires WellFormed(x.g, t) && !IsCharset(t.body) && LoopByTest(x.g, t.body, fl)
    requires opt ==> fl == FULLSET && k.Push? && k.top.Choice?
    requires var test := GenTest(FirstOf(x.g, t.body, FULLSET).cs, false);
             var c := Gen(x.g, t.body, opt, test, FULLSET);
             && Placed(x, a, TestCode(test, |c| + 2))
             && Placed(x, a + 1, c)
             && Placed(x, a + 1 + |c|, [IJmp(-(|c| + 1))])
             && FollowOk(x, fuel, t, opt, fl, a + 2 + |c|, s, k, caps)
    ensures var test := GenTest(FirstOf(x.g, t.body, FULLSET).cs, false);
            Goes(x, fuel, t, opt, fl, a, a + 2 + |Gen(x.g, t.body, opt, test, FULLSET)|, s, k, caps)
    decreases fuel, t, 0
  {
    hide Act, Gen, WellFormed, Placed, RulesReady, Joins, FailTo, Getfirst, Headfailx, CharsetType,
      Fixedlenx, HasCaptures, FirstOf, Headfail, GenTest, Encode, EncodeOne, SpanEnd, CloseCap, Resolved,
      JumpsToReturn, AndByBehind, CaptureFull, Goes, GoesOn, Leaves, Skips, LoopByTest;
    var g, subj, p := x.g, x.m.subj, t.body;
    RepMeans(g, t, opt, fl, fuel, subj, s);
    RepEnds(fuel, g, t, opt, fl, subj, s);
    var r, r1 := Act(fuel, g, t, opt, fl, subj, s), Act(fuel, g, p, opt, FULLSET, subj, s);
    var f := FirstOf(g, p, FULLSET);
    LoopTestCases(g, p, fl);
    if Headfail(g, p) { ByTestNotEmpty(g, p); }
    var test := GenTest(f.cs, false);
    var c := Gen(g, p, opt, test, FULLSET);
    var b := a + 2 + |c|;
    var start := Run(a, s, k, caps);
    if r.Going? {
      GoesFold(x, fuel, t, opt, fl, a, b, s, k, caps);
      return;
    }
    EvalCaps(caps, [], []);
    assert forall d: Byte :: d in FULLSET;
    TestRuns(x, f.cs, |c| + 2, a, s, k, caps);
    if AtChar(subj, s, f.cs) {
      var inside := Run(a + 1, s, k, caps);
      JoinsStep(x.m, start);
      Sim(x, fuel, p, opt, test, FULLSET, a + 1, s, k, caps);
      GoesUnfold(x, fuel, p, opt, FULLSET, a + 1, a + 1 + |c|, s, k, caps);
      if r1.Passes? && r1.left {
        GoesAfter(x.m, start, inside, opt, b, r1.end, k, caps + Encode(r1.caps));
      } else if r1.Passes? {
        var caps1 := caps + Encode(r1.caps);
        var r2 := Act(fuel - 1, g, t, opt, fl, subj, r1.end);
        PlacedOne(x, a + 1 + |c|, IJmp(-(|c| + 1)));
        LevelsWeaken(k, |caps|, |caps1|);
        var k' := NextRound(x, start, inside, opt, a, |c|, r1.end, k, caps1);
        var again := Run(a, r1.end, k', caps1);
        if !opt {
          FailForgets(k, caps, Encode(r1.caps));
        }
        EvalCaps(caps, r1.caps, r2.caps);
        LoopTestRuns(x, fuel - 1, t, opt, fl, a, r1.end, k', caps1);
        GoesUnfold(x, fuel - 1, t, opt, fl, a, b, r1.end, k', caps1);
        if opt {
          LevelsRenewed(k, k', |caps1|, |caps1 + Encode(r2.caps)|);
          GoesRenewed(x.m, again, b, r2.end, k, k', caps1 + Encode(r2.caps));
        }
        GoesAfter(x.m, start, again, opt, b, r2.end, k, caps1 + Encode(r2.caps));
      } else {
        JoinsTrans(x.m, start, inside, FailTo(k, caps));
        if Headfail(g, p) {
          HeadfailDecides(fuel, g, p, opt, FULLSET, subj, s);
        } else {
          assert subj[s] !in f.cs * fl;
          JoinsSym(x.m, Run(b, s, k, caps), FailTo(k, caps));
          JoinsTrans(x.m, start, FailTo(k, caps), Run(b, s, k, caps));
          GoesPlain(x.m, start, opt, b, s, k, caps);
        }
      }
    } else {
      if r1.Passes? {
        TestSound(fuel, g, p, opt, FULLSET, subj, s);
      }
      JoinsStep(x.m, start);
      GoesPlain(x.m, start, opt, b, s, k, caps);
    }
    GoesFold(x, fuel, t, opt, fl, a, b, s, k, caps);
  }

  lemma LoopTestCases(g: Rules, p: Tree, fl: Charset)
    requires LoopByTest(g, p, fl)
    ensures Headfail(g, p) || (!FirstOf(g, p, FULLSET).e && FirstOf(g, p, FULLSET).cs * fl == {})
  {
    hide FirstOf, Headfail;
  }

  lemma LevelsRenewed(k: Stack, k': Stack, n: nat, m: nat)
    requires Renewed(k, k', n) && n <= m
    ensures Renewed(k, k', m)
  {
    if k' != k {
      LevelsWeaken(k', n, m);
    }
  }

  /** The jump back to the test of a loop, under the choice as the body has left it. */
  lemma NextRound(x: Site, start: Conf, inside: Conf, opt: bool, a: nat, n: nat, e: nat, k: Stack, caps: seq<CapEntry>)
      returns (k': Stack)
    requires a + 1 + n < |x.m.code| && x.m.code[a + 1 + n] == IJmp(-(n + 1)) && LevelsAtMost(k, |caps|)
    requires Joins(x.m, start, inside) && GoesOn(x.m, inside, opt, a + 1 + n, e, k, caps)
    ensures Renewed(k, k', |caps|) && LevelsAtMost(k', |caps|) && (!opt ==> k' == k)
    ensures Joins(x.m, start, Run(a, e, k', caps))
  {
    hide Joins;
    k' := k;
    if opt {
      k' :| Renewed(k, k', |caps|) && Joins(x.m, inside, Run(a + 1 + n, e, k', caps));
    }
    var back := Run(a + 1 + n, e, k', caps);
    JoinsStep(x.m, back);
    JoinsTrans(x.m, inside, back, Run(a, e, k', caps));
    JoinsTrans(x.m, start, inside, Run(a, e, k', caps));
  }

  /** The rounds of a loop whose choice, on top, holds the end of the last full round. */
  lemma {:induction false} LoopRounds(x: Site, fuel: nat, t: Tree, opt: bool, fl: Charset, resume: int, l: nat, s: nat,
                                      k: Stack, caps: seq<CapEntry>)
    requires s <= |x.m.subj| && t.TRep? && RulesReady(x) && LevelsAtMost(k, |caps|)
    requires !IsCharset(t.body) && WellFormed(x.g, t) && !LoopByTest(x.g, t.body, fl)
    requires var c := Gen(x.g, t.body, false, NoGuard, FULLSET);
             Placed(x, l, c) && Placed(x, l + |c|, [IPartialCommit(-|c|)])
    ensures var r := Act(fuel, x.g, t, opt, fl, x.m.subj, s);
            r.Passes? ==> Joins(x.m, Run(l, s, Push(Choice(resume, s, |caps|), k), caps),
                              Run(resume, r.end, k, caps + Encode(r.caps)))
    decreases fuel, t, 0
  {
    hide Act, Gen, WellFormed, Placed, RulesReady, Joins, FailTo, Getfirst, Headfailx, CharsetType,
      Fixedlenx, HasCaptures, FirstOf, Headfail, GenTest, Encode, EncodeOne, SpanEnd, CloseCap, Resolved,
      JumpsToReturn, AndByBehind, CaptureFull, Goes, GoesOn, Leaves, Skips, LoopByTest;
    var g, subj, p := x.g, x.m.subj, t.body;
    RepMeans(g, t, opt, fl, fuel, subj, s);
    var r, r1 := Act(fuel, g, t, opt, fl, subj, s), Act(fuel, g, p, false, FULLSET, subj, s);
    if !r.Passes? { return; }
    EvalCaps(caps, [], []);
    assert forall d: Byte :: d in FULLSET;
    var c := Gen(g, p, false, NoGuard, FULLSET);
    var frame := Choice(resume, s, |caps|);
    var start := Run(l, s, Push(frame, k), caps);
    Sim(x, fuel, p, false, NoGuard, FULLSET, l, s, Push(frame, k), caps);
    GoesUnfold(x, fuel, p, false, FULLSET, l, l + |c|, s, Push(frame, k), caps);
    if r1.Passes? {
      var caps1 := caps + Encode(r1.caps);
      var r2 := Act(fuel - 1, g, t, opt, fl, subj, r1.end);
      var body := Run(l + |c|, r1.end, Push(frame, k), caps1);
      GoesOff(x.m, start, l + |c|, r1.end, Push(frame, k), caps1);
      var again := Run(l, r1.end, Push(Choice(resume, r1.end, |caps1|), k), caps1);
      PlacedOne(x, l + |c|, IPartialCommit(-|c|));
      JoinsStep(x.m, body);
      JoinsTrans(x.m, start, body, again);
      LevelsWeaken(k, |caps|, |caps1|);
      EvalCaps(caps, r1.caps, r2.caps);
      LoopRounds(x, fuel - 1, t, opt, fl, resume, l, r1.end, k, caps1);
      JoinsTrans(x.m, start, again, Run(resume, r2.end, k, caps1 + Encode(r2.caps)));
    } else {
      FailToChoice(frame, k, caps);
    }
  }

  lemma SimSpan(x: Site, fuel: nat, t: Tree, opt: bool, tt: Guard, fl: Charset, a: nat, s: nat, k: Stack,
      caps: seq<CapEntry>)
    requires Pre(x, fuel, t, opt, tt, fl, a, s, k, caps)
    requires !opt && t.TRep? && IsCharset(t.body)
    ensures Goes(x, fuel, t, opt, fl, a, a + |Gen(x.g, t, opt, tt, fl)|, s, k, caps)
    decreases fuel, t, 0
  {
    hide Act, Gen, WellFormed, Placed, RulesReady, Joins, FailTo, Getfirst, Headfailx, CharsetType,
      Fixedlenx, HasCaptures, FirstOf, Headfail, GenTest, Encode, EncodeOne, SpanEnd, CloseCap, Resolved,
      JumpsToReturn, AndByBehind, CaptureFull;
    GenUnfold(x.g, t, opt, tt, fl);
    var cs := ToCharset(t.body);
    PlacedOne(x, a, ISpan(cs));
    SpanEval(fuel, x.g, t.body, fl, x.m.subj, s);
    EvalCaps(caps, [], []);
    JoinsStep(x.m, Run(a, s, k, caps));
  }

  lemma SimLoopTest(x: Site, fuel: nat, t: Tree, opt: bool, tt: Guard, fl: Charset, a: nat, s: nat, k: Stack,
      caps: seq<CapEntry>)
    requires Pre(x, fuel, t, opt, tt, fl, a, s, k, caps)
    requires t.TRep? && !IsCharset(t.body) && LoopByTest(x.g, t.body, fl)
    ensures Goes(x, fuel, t, opt, fl, a, a + |Gen(x.g, t, opt, tt, fl)|, s, k, caps)
    decreases fuel, t, 1
  {
    hide Act, Gen, WellFormed, Placed, RulesReady, Joins, FailTo, Getfirst, Headfailx, CharsetType,
      Fixedlenx, HasCaptures, FirstOf, Headfail, GenTest, Encode, EncodeOne, SpanEnd, CloseCap, Resolved,
      JumpsToReturn, AndByBehind, CaptureFull, Goes, LoopByTest;
    RepPlaced(x, t, opt, tt, fl, a);
    LoopTestRuns(x, fuel, t, opt, fl, a, s, k, caps);
  }

  lemma SimLoopChoice(x: Site, fuel: nat, t: Tree, opt: bool, tt: Guard, fl: Charset, a: nat, s: nat, k: Stack,
      caps: seq<CapEntry>)
    requires Pre(x, fuel, t, opt, tt, fl, a, s, k, caps)
    requires t.TRep? && !IsCharset(t.body) && !LoopByTest(x.g, t.body, fl)
    ensures Goes(x, fuel, t, opt, fl, a, a + |Gen(x.g, t, opt, tt, fl)|, s, k, caps)
    decreases fuel, t, 1
  {
    hide Act, Gen, WellFormed, Placed, RulesReady, Joins, FailTo, Getfirst, Headfailx, CharsetType,
      Fixedlenx, HasCaptures, FirstOf, Headfail, GenTest, Encode, EncodeOne, SpanEnd, CloseCap, Resolved,
      JumpsToReturn, AndByBehind, CaptureFull, Goes, GoesOn, Leaves, Skips, LoopByTest;
    var g, subj, p := x.g, x.m.subj, t.body;
    RepMeans(g, t, opt, fl, fuel, subj, s);
    RepPlaced(x, t, opt, tt, fl, a);
    RepEnds(fuel, g, t, opt, fl, subj, s);
    var r := Act(fuel, g, t, opt, fl, subj, s);
    var f := FirstOf(g, p, FULLSET);
    var test := GenTest(f.cs, f.e);
    var c := Gen(g, p, false, NoGuard, FULLSET);
    var tc := TestCode(test, |c| + 3);
    var a1 := a + |tc|;
    var b := a1 + 2 + |c|;
    if r.Going? {
      GoesFold(x, fuel, t, opt, fl, a, b, s, k, caps);
      return;
    }
    EvalCaps(caps, [], []);
    var caps1 := caps + Encode(r.caps);
    var start, end := Run(a, s, k, caps), Run(b, r.end, k, caps1);
    TestSkips(x, fuel, p, false, FULLSET, |c| + 3, a, s, k, caps);
    if test.NoGuard? || AtChar(subj, s, f.cs) {
      PlacedOne(x, a1, if opt then IPartialCommit(1) else IChoice(|c| + 2));
      var inside := Run(a1, s, k, caps);
      if opt {
        LevelsWeaken(k.rest, k.top.level, |caps|);
        LoopRounds(x, fuel, t, opt, fl, k.top.p, a1 + 1, s, k.rest, caps);
        var out := Run(k.top.p, r.end, k.rest, caps1);
        JoinsNext(x.m, inside, out);
        JoinsTrans(x.m, start, inside, out);
        LeavesNow(x.m, start, r.end, k, caps1);
      } else {
        LoopRounds(x, fuel, t, opt, fl, b, a1 + 1, s, k, caps);
        JoinsNext(x.m, inside, end);
        JoinsTrans(x.m, start, inside, end);
        GoesPlain(x.m, start, opt, b, r.end, k, caps1);
      }
    } else {
      GoesPlain(x.m, start, opt, b, r.end, k, caps1);
    }
    GoesFold(x, fuel, t, opt, fl, a, b, s, k, caps);
  }

  // ---------- Rule calls and grammars ----------

  /** Control that only jumps until it returns has the same future as a return. */
  lemma {:induction false} ReturnJoins(x: Site, i: int, n: nat, j: nat, s: nat, k: Stack, caps: seq<CapEntry>)
    requires var ft := FinalTarget(x.m.code, i, n); 0 <= ft < |x.m.code| && x.m.code[ft].IRet?
    requires j < |x.m.code| && x.m.code[j].IRet?
    ensures Joins(x.m, Run(j, s, k, caps), Run(i, s, k, caps))
    decreases n
  {
    hide Joins;
    var code := x.m.code;
    if 0 <= i < |code| && code[i].IJmp? && n > 0 {
      ReturnJoins(x, i + code[i].off, n - 1, j, s, k, caps);
      JoinsSym(x.m, Run(j, s, k, caps), Run(i + code[i].off, s, k, caps));
      JoinsNext(x.m, Run(i, s, k, caps), Run(j, s, k, caps));
      JoinsSym(x.m, Run(i, s, k, caps), Run(j, s, k, caps));
    } else {
      JoinsStep(x.m, Run(i, s, k, caps));
      JoinsSym(x.m, Run(i, s, k, caps), Step(x.m, Run(i, s, k, caps)));
      JoinsNext(x.m, Run(j, s, k, caps), Run(i, s, k, caps));
    }
  }

  lemma RuleParts(x: Site, r: nat)
    requires RulesReady(x) && r < |x.g|
    ensures var c := Gen(x.g, x.g[r], false, NoGuard, FULLSET);
            && Placed(x, x.pos[r], c)
            && Placed(x, x.pos[r] + |c|, [IRet])
            && WellFormed(x.g, x.g[r])
  {
    hide Gen, WellFormed, Placed;
    PlacedSplit(x, x.pos[r], Gen(x.g, x.g[r], false, NoGuard, FULLSET), [IRet]);
  }

  /** A rule runs from its place to its return. */
  lemma RuleRuns(x: Site, fuel: nat, r: nat, s: nat, k: Stack, caps: seq<CapEntry>)
    requires s <= |x.m.subj| && RulesReady(x) && r < |x.g| && LevelsAtMost(k, |caps|)
    ensures var c := Gen(x.g, x.g[r], false, NoGuard, FULLSET);
            && Goes(x, fuel, x.g[r], false, FULLSET, x.pos[r], x.pos[r] + |c|, s, k, caps)
            && x.pos[r] + |c| < |x.m.code| && x.m.code[x.pos[r] + |c|] == IRet
    decreases fuel, x.g[r], 3
  {
    hide Gen, WellFormed, Placed, Act, Goes, Joins, LevelsAtMost, RulesReady;
    SitePositions(x);
    RuleParts(x, r);
    PlacedOne(x, x.pos[r] + |Gen(x.g, x.g[r], false, NoGuard, FULLSET)|, IRet);
    Sim(x, fuel, x.g[r], false, NoGuard, FULLSET, x.pos[r], s, k, caps);
  }

  lemma CallMeans(fuel: nat, g: Rules, r: nat, fl: Charset, subj: Subject, s: nat)
    requires s <= |subj| && r < |g|
    ensures Act(fuel, g, TCall(r), false, fl, subj, s) ==
            if fuel == 0 then Going else Act(fuel - 1, g, g[r], false, FULLSET, subj, s)
  {
  }

  lemma CallParts(x: Site, r: nat, opt: bool, tt: Guard, fl: Charset, a: nat)
    requires WellFormed(x.g, TCall(r)) && Placed(x, a, Gen(x.g, TCall(r), opt, tt, fl)) && |x.pos| == |x.g|
    ensures r < |x.g| && a < |x.m.code| && |Gen(x.g, TCall(r), opt, tt, fl)| == 1
    ensures x.m.code[a] == ICall(x.pos[r] - a) ||
            (x.m.code[a] == IJmp(x.pos[r] - a) && JumpsToReturn(x.m.code, a + 1))
  {
    hide JumpsToReturn;
    PlacedOne(x, a, IOpenCall(0, r));
  }

  lemma SimCall(x: Site, fuel: nat, t: Tree, opt: bool, tt: Guard, fl: Charset, a: nat, s: nat, k: Stack,
      caps: seq<CapEntry>)
    requires Pre(x, fuel, t, opt, tt, fl, a, s, k, caps)
    requires !opt && t.TCall?
    ensures Goes(x, fuel, t, opt, fl, a, a + |Gen(x.g, t, opt, tt, fl)|, s, k, caps)
    decreases fuel, t, 0
  {
    hide Act, Gen, WellFormed, Placed, RulesReady, Joins, FailTo, Getfirst, Headfailx, CharsetType,
      Fixedlenx, HasCaptures, FirstOf, Headfail, GenTest, Encode, EncodeOne, SpanEnd, CloseCap, Resolved,
      JumpsToReturn, AndByBehind, CaptureFull, Needfollow;
    var r := t.rule;
    SitePositions(x);
    CallParts(x, r, opt, tt, fl, a);
    CallMeans(fuel, x.g, r, fl, x.m.subj, s);
    if fuel == 0 { return; }
    var m, start := x.m, Run(a, s, k, caps);
    var out := Act(fuel - 1, x.g, x.g[r], false, FULLSET, m.subj, s);
    if m.code[a].ICall? {
      RuleRuns(x, fuel - 1, r, s, Push(Call(a + 1), k), caps);
      EnterRule(x, fuel - 1, r, start, a + 1, s, k, caps);
    } else {
      RuleRuns(x, fuel - 1, r, s, k, caps);
      if out.Passes? {
        var caps1 := caps + Encode(out.caps);
        var ret := x.pos[r] + |Gen(x.g, x.g[r], false, NoGuard, FULLSET)|;
        JoinsNext(m, start, Run(ret, out.end, k, caps1));
        TailReturn(x, a + 1, ret, out.end, k, caps1);
        JoinsTrans(m, start, Run(ret, out.end, k, caps1), Run(a + 1, out.end, k, caps1));
      } else if out.Fails? {
        JoinsNext(m, start, FailTo(k, caps));
      }
    }
  }

  lemma SitePositions(x: Site)
    requires RulesReady(x)
    ensures |x.pos| == |x.g|
  {
  }

  lemma TailReturn(x: Site, i: int, ret: nat, s: nat, k: Stack, caps: seq<CapEntry>)
    requires JumpsToReturn(x.m.code, i) && ret < |x.m.code| && x.m.code[ret].IRet?
    ensures Joins(x.m, Run(ret, s, k, caps), Run(i, s, k, caps))
  {
    hide Joins, FinalTarget;
    var n: nat :| var ft := FinalTarget(x.m.code, i, n); 0 <= ft < |x.m.code| && x.m.code[ft].IRet?;
    ReturnJoins(x, i, n, ret, s, k, caps);
  }

  /** A call that pushes a return address comes back to it, or fails past it. */
  lemma EnterRule(x: Site, fuel: nat, r: nat, start: Conf, ret: int, s: nat, k: Stack, caps: seq<CapEntry>)
    requires s <= |x.m.subj| && r < |x.g| && r < |x.pos|
    requires Step(x.m, start) == Run(x.pos[r], s, Push(Call(ret), k), caps)
    requires var c := Gen(x.g, x.g[r], false, NoGuard, FULLSET);
             && Goes(x, fuel, x.g[r], false, FULLSET, x.pos[r], x.pos[r] + |c|, s, Push(Call(ret), k), caps)
             && x.pos[r] + |c| < |x.m.code| && x.m.code[x.pos[r] + |c|] == IRet
    ensures var out := Act(fuel, x.g, x.g[r], false, FULLSET, x.m.subj, s);
            && (out.Passes? ==> Joins(x.m, start, Run(ret, out.end, k, caps + Encode(out.caps))))
            && (out.Fails? ==> Joins(x.m, start, FailTo(k, caps)))
  {
    hide Gen, Act, Joins, Encode;
    var m := x.m;
    var out := Act(fuel, x.g, x.g[r], false, FULLSET, m.subj, s);
    if out.Passes? {
      var caps1 := caps + Encode(out.caps);
      var done := Run(x.pos[r] + |Gen(x.g, x.g[r], false, NoGuard, FULLSET)|, out.end, Push(Call(ret), k), caps1);
      JoinsNext(m, start, done);
      JoinsStep(m, done);
      JoinsTrans(m, start, done, Run(ret, out.end, k, caps1));
    } else if out.Fails? {
      JoinsNext(m, start, FailTo(Push(Call(ret), k), caps));
    }
  }

  lemma GrammarMeans(fuel: nat, g: Rules, t: Tree, fl: Charset, subj: Subject, s: nat)
    requires s <= |subj| && t.TGrammar? && WellFormed(g, t)
    ensures WellFormed([], t) && t.rules != [] && RulesWellFormed(t.rules)
    ensures Act(fuel, g, t, false, fl, subj, s) == Act(fuel, t.rules, t.rules[0], false, FULLSET, subj, s)
  {
    hide HasCaptures, Fixedlenx;
  }

  lemma GrammarReady(y: Site)
    requires RulesPlaced(y) && RulesWellFormed(y.g)
    ensures RulesReady(y)
  {
  }

  lemma SimGrammar(x: Site, fuel: nat, t: Tree, opt: bool, tt: Guard, fl: Charset, a: nat, s: nat, k: Stack,
      caps: seq<CapEntry>)
    requires Pre(x, fuel, t, opt, tt, fl, a, s, k, caps)
    requires !opt && t.TGrammar?
    ensures Goes(x, fuel, t, opt, fl, a, a + |Gen(x.g, t, opt, tt, fl)|, s, k, caps)
    decreases fuel, t, 0
  {
    hide GenRules, Act, Gen, WellFormed, Placed, RulesReady, Joins, FailTo, Getfirst, Headfailx, CharsetType,
      Fixedlenx, HasCaptures, FirstOf, Headfail, GenTest, Encode, EncodeOne, SpanEnd, CloseCap, Resolved,
      JumpsToReturn, AndByBehind, CaptureFull, Needfollow;
    GrammarMeans(fuel, x.g, t, fl, x.m.subj, s);
    var y := GrammarPlaced(x, a, t, opt, tt, fl);
    GrammarReady(y);
    SitePositions(y);
    var n := |GenRules(t, |t.rules|)|;
    var m, start := x.m, Run(a, s, k, caps);
    RuleRuns(y, fuel, 0, s, Push(Call(a + 1), k), caps);
    EnterRule(y, fuel, 0, start, a + 1, s, k, caps);
    var out := Act(fuel, t.rules, t.rules[0], false, FULLSET, m.subj, s);
    if out.Passes? {
      var back, end := Run(a + 1, out.end, k, caps + Encode(out.caps)), Run(a + 2 + n, out.end, k, caps + Encode(out.caps));
      JoinsStep(m, back);
      JoinsTrans(m, start, back, end);
    }
  }

  // ---------- Every pattern ----------

  /** Code that does not depend on `opt` goes on alike. */
  lemma SimPlain(x: Site, fuel: nat, t: Tree, opt: bool, tt: Guard, fl: Charset, a: nat, s: nat, k: Stack,
      caps: seq<CapEntry>)
    requires Pre(x, fuel, t, opt, tt, fl, a, s, k, caps)
    requires opt && !OptTail(x.g, t, fl)
    ensures Goes(x, fuel, t, opt, fl, a, a + |Gen(x.g, t, opt, tt, fl)|, s, k, caps)
    decreases fuel, t, 3
  {
    hide Act, Gen, Goes, GoesOn, Leaves, OptTail, Placed, RulesReady, WellFormed, Joins;
    NoTailSame(fuel, x.g, t, fl, x.m.subj, s);
    OptTailExact(x.g, t, tt, fl);
    var b := a + |Gen(x.g, t, opt, tt, fl)|;
    Sim(x, fuel, t, false, tt, fl, a, s, k, caps);
    GoesUnfold(x, fuel, t, false, fl, a, b, s, k, caps);
    var r := Act(fuel, x.g, t, opt, fl, x.m.subj, s);
    if r.Passes? {
      GoesOff(x.m, Run(a, s, k, caps), b, r.end, k, caps + Encode(r.caps));
      GoesPlain(x.m, Run(a, s, k, caps), opt, b, r.end, k, caps + Encode(r.caps));
    }
    GoesFold(x, fuel, t, opt, fl, a, b, s, k, caps);
  }

  lemma Sim(x: Site, fuel: nat, t: Tree, opt: bool, tt: Guard, fl: Charset, a: nat, s: nat, k: Stack,
      caps: seq<CapEntry>)
    requires Pre(x, fuel, t, opt, tt, fl, a, s, k, caps)
    ensures Goes(x, fuel, t, opt, fl, a, a + |Gen(x.g, t, opt, tt, fl)|, s, k, caps)
    decreases fuel, t, if opt then 4 else 2
  {
    hide Act, Gen, Pre, Goes, ChoiceByTest, LoopByTest;
    match t
    case TSeq(_, _) => SimSeq(x, fuel, t, opt, tt, fl, a, s, k, caps);
    case TChoice(p1, p2) =>
      if ChoiceByTest(x.g, p1, p2, fl) {
        SimChoiceTest(x, fuel, t, opt, tt, fl, a, s, k, caps);
      } else if opt && p2.TTrue? {
        SimChoiceOpt(x, fuel, t, opt, tt, fl, a, s, k, caps);
      } else {
        SimChoiceFull(x, fuel, t, opt, tt, fl, a, s, k, caps);
      }
    case TRep(p) =>
      if !IsCharset(p) && LoopByTest(x.g, p, fl) {
        SimLoopTest(x, fuel, t, opt, tt, fl, a, s, k, caps);
      } else if !IsCharset(p) {
        SimLoopChoice(x, fuel, t, opt, tt, fl, a, s, k, caps);
      } else if opt {
        SimPlain(x, fuel, t, opt, tt, fl, a, s, k, caps);
      } else {
        SimSpan(x, fuel, t, opt, tt, fl, a, s, k, caps);
      }
    case _ =>
      if opt {
        SimPlain(x, fuel, t, opt, tt, fl, a, s, k, caps);
      } else {
        SimOther(x, fuel, t, opt, tt, fl, a, s, k, caps);
      }
  }

  lemma SimOther(x: Site, fuel: nat, t: Tree, opt: bool, tt: Guard, fl: Charset, a: nat, s: nat, k: Stack,
      caps: seq<CapEntry>)
    requires Pre(x, fuel, t, opt, tt, fl, a, s, k, caps)
    requires !opt && !t.TSeq? && !t.TChoice? && !t.TRep?
    ensures Goes(x, fuel, t, opt, fl, a, a + |Gen(x.g, t, opt, tt, fl)|, s, k, caps)
    decreases fuel, t, 1
  {
    hide Act, Gen, Pre, Goes;
    match t
    case TNot(_) => SimNot(x, fuel, t, opt, tt, fl, a, s, k, caps);
    case TAnd(_) => SimAnd(x, fuel, t, opt, tt, fl, a, s, k, caps);
    case TBehind(_, _) => SimBehind(x, fuel, t, opt, tt, fl, a, s, k, caps);
    case TCapture(_, _, _) => SimCapture(x, fuel, t, opt, tt, fl, a, s, k, caps);
    case TCall(_) => SimCall(x, fuel, t, opt, tt, fl, a, s, k, caps);
    case TGrammar(_) => SimGrammar(x, fuel, t, opt, tt, fl, a, s, k, caps);
    case _ => SimLeaf(x, fuel, t, opt, tt, fl, a, s, k, caps);
  }
}
