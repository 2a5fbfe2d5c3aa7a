/** The jumps in generated code never go round in circles. */
module LpegTidy {
  import opened LpegTree
  import opened LpegAnalysis
  import opened LpegMachine
  import opened LpegCode
  import opened LpegPremise
  import opened LpegPlace
  import opened LpegPeephole
  import opened LpegVerify

  /** From every instruction of the range, and from wherever its label points, the jumps come to an end. */
  ghost predicate RangeTidy(code: seq<Instr>, a: nat, b: nat)
  {
    forall i :: a <= i < b && i < |code| ==>
      Settles(code, i) && (HasLabel(code[i]) ==> Settles(code, i + code[i].off))
  }

  lemma RangeJoin(code: seq<Instr>, a: nat, b: nat, c: nat)
    requires RangeTidy(code, a, b) && RangeTidy(code, b, c)
    ensures RangeTidy(code, a, c)
  {
  }

  /** One instruction: its label must settle; itself it then settles too. */
  lemma RangeOne(x: Site, a: nat, i: Instr)
    requires Placed(x, a, [i]) && !i.IOpenCall?
    requires HasLabel(i) ==> Settles(x.m.code, a + i.off)
    ensures RangeTidy(x.m.code, a, a + 1) && Settles(x.m.code, a)
  {
    hide Settles;
    PlacedOne(x, a, i);
    if i.IJmp? {
      SettlesBack(x.m.code, a);
    } else {
      FinalFixed(x.m.code, a);
    }
  }

  lemma RangeTest(x: Site, a: nat, tt: Guard, off: int, b: nat)
    requires (tt.Guarded? ==> HasLabel(tt.test) && !tt.test.IOpenCall?) && Placed(x, a, TestCode(tt, off))
    requires tt.Guarded? ==> Settles(x.m.code, a + off)
    requires b == a + |TestCode(tt, off)| && Settles(x.m.code, b)
    ensures RangeTidy(x.m.code, a, b) && Settles(x.m.code, a)
  {
    hide Settles;
    if tt.Guarded? {
      RangeOne(x, a, WithOff(tt.test, off));
    }
  }

  lemma GenTestNotCall(cs: Charset, e: bool)
    ensures GenTest(cs, e).Guarded? ==> HasLabel(GenTest(cs, e).test) && !GenTest(cs, e).test.IOpenCall?
  {
    hide CharsetType;
  }

  ghost predicate RulesSettle(x: Site)
  {
    |x.pos| == |x.g| && forall k :: 0 <= k < |x.pos| ==> Settles(x.m.code, x.pos[k])
  }

  // ---------- Where a pattern starts ----------

  /**
   * Jumps from the start of the code end: in the code, at a rule reached by fewer left calls, or
   * behind the code if control can get there without consuming.
   */
  lemma {:induction false} StartSettles(x: Site, t: Tree, opt: bool, tt: Guard, fl: Charset, a: nat, left: nat)
    requires WellFormed(x.g, t) && RulesPlaced(x) && RulesWellFormed(x.g)
    requires Placed(x, a, Gen(x.g, t, opt, tt, fl)) && LeftBounded(x.g, t, left) && left <= CHASE
    requires Nullable(x.g, t) ==> Settles(x.m.code, a + |Gen(x.g, t, opt, tt, fl)|)
    ensures Settles(x.m.code, a)
    decreases left, t
  {
    hide Gen, Placed, Settles, FirstOf, GenTest, ChoiceByTest, LoopByTest, Getfirst, Headfail, Fixedlenx, HasCaptures,
      RulesPlaced, FollowOf, GuardOfSecond, AndByBehind;
    var code := x.m.code;
    GenUnfold(x.g, t, opt, tt, fl);
    match t
    case TSeq(p1, p2) =>
      var c1 := Gen(x.g, p1, false, tt, FollowOf(x.g, p1, p2, fl));
      var c2 := Gen(x.g, p2, opt, GuardOfSecond(x.g, p1, tt), fl);
      PlacedSplit(x, a, c1, c2);
      if Nullable(x.g, p1) {
        StartSettles(x, p2, opt, GuardOfSecond(x.g, p1, tt), fl, a + |c1|, left);
      }
      StartSettles(x, p1, false, tt, FollowOf(x.g, p1, p2, fl), a, left);
    case TChoice(p1, p2) => StartOfChoice(x, t, opt, tt, fl, a, left);
    case TRep(p) => StartOfRep(x, t, opt, tt, fl, a);
    case TNot(p) => StartOfNot(x, t, opt, tt, fl, a);
    case TAnd(p) =>
      AndPlaced(x, t, opt, tt, fl, a);
      var c := Gen(x.g, p, false, tt, FULLSET);
      if AndByBehind(x.g, p) {
        if Fixedlen(x.g, p) > 0 {
          RangeOne(x, a + |c|, IBehind(Fixedlen(x.g, p)));
        }
        StartSettles(x, p, false, tt, FULLSET, a, left);
      } else {
        OneSettles(x, a, IChoice(|c| + 2));
      }
    case TBehind(n, p) =>
      PlacedSplit(x, a, [IBehind(n)], Gen(x.g, p, false, NoGuard, FULLSET));
      RangeOne(x, a, IBehind(n));
    case TCapture(kind, key, p) =>
      CapturePlaced(x, t, opt, tt, fl, a);
      var c := Gen(x.g, p, false, tt, fl);
      if CaptureFull(x.g, p) {
        RangeOne(x, a + |c|, IFullCapture(kind, key, Fixedlen(x.g, p)));
        StartSettles(x, p, false, tt, fl, a, left);
      } else {
        RangeOne(x, a, IOpenCapture(kind, key));
      }
    case TCall(r) =>
      CallClosed(x, r, opt, tt, fl, a);
      if code[a].IJmp? {
        RuleEnds(x, r);
        RuleShape(x, r);
        StartSettles(x, x.g[r], false, NoGuard, FULLSET, x.pos[r], left - 1);
        SettlesBack(code, a);
      } else {
        FinalFixed(code, a);
      }
    case TGrammar(rules) =>
      var code1 := CorrectCalls(GenRules(t, |rules|), RulePositions(t), 0);
      assert GrammarCode(GenRules(t, |rules|), RulePositions(t)) == [ICall(2)] + ([IJmp(|code1| + 1)] + code1);
      PlacedSplit(x, a, [ICall(2)], [IJmp(|code1| + 1)] + code1);
      OneSettles(x, a, ICall(2));
    case _ => StartOfLeaf(x, t, opt, tt, fl, a);
  }

  lemma RuleShape(x: Site, r: nat)
    requires RulesPlaced(x) && r < |x.g| && RulesWellFormed(x.g)
    ensures WellFormed(x.g, x.g[r])
  {
  }

  /** An instruction that is not a jump settles whatever its label. */
  lemma OneSettles(x: Site, a: nat, i: Instr)
    requires Placed(x, a, [i]) && !i.IOpenCall? && !i.IJmp?
    ensures Settles(x.m.code, a)
  {
    hide Settles;
    PlacedOne(x, a, i);
    FinalFixed(x.m.code, a);
  }

  lemma TestSettles(x: Site, a: nat, cs: Charset, e: bool, off: int)
    requires !e && Placed(x, a, TestCode(GenTest(cs, e), off))
    requires GenTest(cs, e).test.IJmp? ==> Settles(x.m.code, a + off)
    ensures Settles(x.m.code, a)
  {
    hide Settles, GenTest;
    GenTestNotCall(cs, e);
    PlacedOne(x, a, WithOff(GenTest(cs, e).test, off));
    if GenTest(cs, e).test.IJmp? {
      SettlesBack(x.m.code, a);
    } else {
      FinalFixed(x.m.code, a);
    }
  }

  lemma StartOfChoice(x: Site, t: Tree, opt: bool, tt: Guard, fl: Charset, a: nat, left: nat)
    requires t.TChoice? && WellFormed(x.g, t) && RulesPlaced(x) && RulesWellFormed(x.g)
    requires Placed(x, a, Gen(x.g, t, opt, tt, fl)) && LeftBounded(x.g, t, left) && left <= CHASE
    requires Nullable(x.g, t) ==> Settles(x.m.code, a + |Gen(x.g, t, opt, tt, fl)|)
    ensures Settles(x.m.code, a)
    decreases left, t, 0
  {
    hide Gen, Placed, Settles, FirstOf, GenTest, ChoiceByTest, Headfail, Fixedlenx, HasCaptures, RulesPlaced;
    var g, p1, p2 := x.g, t.first, t.second;
    var f1 := FirstOf(g, p1, FULLSET);
    if ChoiceByTest(g, p1, p2, fl) {
      ChoiceTestPlaced(x, t, opt, tt, fl, a);
      var test := GenTest(f1.cs, false);
      var c1, c2 := Gen(g, p1, false, test, fl), Gen(g, p2, opt, NoGuard, fl);
      var jmp := if p2.TTrue? then 0 else 1;
      StartSettles(x, p2, opt, NoGuard, fl, a + 1 + |c1| + jmp, left);
      TestSettles(x, a, f1.cs, false, |c1| + jmp + 1);
    } else if opt && p2.TTrue? {
      ChoiceOptPlaced(x, t, tt, fl, a);
      OneSettles(x, a, IPartialCommit(1));
    } else {
      ChoiceFullPlaced(x, t, opt, tt, fl, a);
      var test := GenTest(f1.cs, f1.e);
      var c1, c2 := Gen(g, p1, p2.TTrue?, test, FULLSET), Gen(g, p2, opt, NoGuard, fl);
      if f1.e {
        OneSettles(x, a, IChoice(|c1| + 2));
      } else {
        StartSettles(x, p2, opt, NoGuard, fl, a + 3 + |c1|, left);
        TestSettles(x, a, f1.cs, false, |c1| + 3);
      }
    }
  }

  lemma StartOfRep(x: Site, t: Tree, opt: bool, tt: Guard, fl: Charset, a: nat)
    requires t.TRep? && Placed(x, a, Gen(x.g, t, opt, tt, fl))
    requires Settles(x.m.code, a + |Gen(x.g, t, opt, tt, fl)|)
    ensures Settles(x.m.code, a)
  {
    hide Gen, Placed, Settles, FirstOf, GenTest, LoopByTest, Headfail, Fixedlenx, HasCaptures;
    var p := t.body;
    if IsCharset(p) {
      GenUnfold(x.g, t, opt, tt, fl);
      RangeOne(x, a, ISpan(ToCharset(p)));
    } else {
      RepPlaced(x, t, opt, tt, fl, a);
      var f := FirstOf(x.g, p, FULLSET);
      if LoopByTest(x.g, p, fl) {
        var test := GenTest(f.cs, false);
        TestSettles(x, a, f.cs, false, |Gen(x.g, p, opt, test, FULLSET)| + 2);
      } else if f.e {
        OneSettles(x, a, if opt then IPartialCommit(1) else IChoice(|Gen(x.g, p, false, NoGuard, FULLSET)| + 2));
      } else {
        TestSettles(x, a, f.cs, false, |Gen(x.g, p, false, NoGuard, FULLSET)| + 3);
      }
    }
  }

  lemma StartOfNot(x: Site, t: Tree, opt: bool, tt: Guard, fl: Charset, a: nat)
    requires t.TNot? && Placed(x, a, Gen(x.g, t, opt, tt, fl))
    requires Settles(x.m.code, a + |Gen(x.g, t, opt, tt, fl)|)
    ensures Settles(x.m.code, a)
  {
    hide Gen, Placed, Settles, FirstOf, GenTest, Headfail, Fixedlenx, HasCaptures;
    NotPlaced(x, t, opt, tt, fl, a);
    var f := FirstOf(x.g, t.body, FULLSET);
    var c := Gen(x.g, t.body, false, NoGuard, FULLSET);
    if f.e {
      OneSettles(x, a, if Headfail(x.g, t.body) then IFail else IChoice(|c| + 2));
    } else {
      TestSettles(x, a, f.cs, false, if Headfail(x.g, t.body) then 2 else |c| + 3);
    }
  }

  lemma StartOfLeaf(x: Site, t: Tree, opt: bool, tt: Guard, fl: Charset, a: nat)
    requires t.TChar? || t.TSet? || t.TAny? || t.TTrue? || t.TFalse?
    requires Placed(x, a, Gen(x.g, t, opt, tt, fl))
    requires t.TTrue? ==> Settles(x.m.code, a + |Gen(x.g, t, opt, tt, fl)|)
    ensures Settles(x.m.code, a)
    ensures Settles(x.m.code, a + |Gen(x.g, t, opt, tt, fl)|) ==>
              RangeTidy(x.m.code, a, a + |Gen(x.g, t, opt, tt, fl)|)
  {
    hide Settles, CharsetType, Placed;
    if !t.TTrue? {
      assert Gen(x.g, t, opt, tt, fl) == [Gen(x.g, t, opt, tt, fl)[0]];
      RangeOne(x, a, Gen(x.g, t, opt, tt, fl)[0]);
    }
  }

  lemma CallClosed(x: Site, r: nat, opt: bool, tt: Guard, fl: Charset, a: nat)
    requires r < |x.g| && Placed(x, a, Gen(x.g, TCall(r), opt, tt, fl)) && RulesPlaced(x)
    ensures a < |x.m.code| && |Gen(x.g, TCall(r), opt, tt, fl)| == 1 && |x.pos| == |x.g|
    ensures x.m.code[a] == ICall(x.pos[r] - a) || x.m.code[a] == IJmp(x.pos[r] - a)
  {
    hide JumpsToReturn;
    PlacedOne(x, a, IOpenCall(0, r));
  }

  lemma RuleEnds(x: Site, r: nat)
    requires RulesPlaced(x) && r < |x.g|
    ensures var c := Gen(x.g, x.g[r], false, NoGuard, FULLSET);
            && Placed(x, x.pos[r], c)
            && Placed(x, x.pos[r] + |c|, [IRet])
            && Settles(x.m.code, x.pos[r] + |c|)
            && RangeTidy(x.m.code, x.pos[r] + |c|, x.pos[r] + |c| + 1)
  {
    hide Gen, Placed, Settles;
    var c := Gen(x.g, x.g[r], false, NoGuard, FULLSET);
    PlacedSplit(x, x.pos[r], c, [IRet]);
    RangeOne(x, x.pos[r] + |c|, IRet);
  }

  /** In an accepted grammar every rule starts somewhere. */
  lemma RulesDoSettle(x: Site)
    requires RulesPlaced(x) && WellFormed([], TGrammar(x.g)) && GrammarsLoaded(TGrammar(x.g))
    ensures RulesSettle(x)
  {
    hide Gen, Placed, Settles, VerifyGrammar, GrammarsLoaded;
    LoadedNested([], TGrammar(x.g));
    forall k | 0 <= k < |x.g| ensures Settles(x.m.code, x.pos[k]) {
      RuleEnds(x, k);
      RuleUsed(x.g, k);
      assert NestedAccepted(x.g[k]) by { RuleNested(x.g, k); }
      AnyPartBounded(x.g, x.g[k]);
      StartSettles(x, x.g[k], false, NoGuard, FULLSET, x.pos[k], CHASE);
    }
  }

  lemma RuleNested(g: Rules, k: nat)
    requires k < |g| && WellFormed([], TGrammar(g)) && GrammarsLoaded(TGrammar(g))
    ensures NestedAccepted(g[k])
  {
    hide VerifyGrammar, CoveredRules, Fixedlenx, HasCaptures, HasCalls;
    LoadedNested(g, g[k]);
  }

  /** Like PartBounded, for rules that are not used too. */
  lemma {:induction false} AnyPartBounded(g: Rules, t: Tree)
    requires Accepted([], TGrammar(g)) && NestedAccepted(t) && CallsUsed(g, t)
    ensures LeftBounded(g, t, CHASE)
    decreases t
  {
    match t
    case TRep(p) => PartUsed(g, t, p); AnyPartBounded(g, p);
    case TNot(p) => PartUsed(g, t, p); AnyPartBounded(g, p);
    case TAnd(p) => PartUsed(g, t, p); AnyPartBounded(g, p);
    case TCapture(_, _, p) => PartUsed(g, t, p); AnyPartBounded(g, p);
    case TSeq(p1, p2) => PartUsed(g, t, p1); PartUsed(g, t, p2); AnyPartBounded(g, p1); AnyPartBounded(g, p2);
    case TChoice(p1, p2) => PartUsed(g, t, p1); PartUsed(g, t, p2); AnyPartBounded(g, p1); AnyPartBounded(g, p2);
    case TCall(k) => assert Calls(t, k);
    case TGrammar(rules) => if rules != [] { assert Used(rules, 0); }
    case _ =>
  }

  predicate RulesLoaded(g: Rules) { forall k :: 0 <= k < |g| ==> GrammarsLoaded(g[k]) }

  // ---------- All the code of a pattern ----------

  lemma PartsOf(g: Rules, t: Tree)
    requires WellFormed(g, t) && GrammarsLoaded(t)
    ensures t.TSeq? || t.TChoice? ==>
              WellFormed(g, t.first) && GrammarsLoaded(t.first) && WellFormed(g, t.second) && GrammarsLoaded(t.second)
    ensures t.TRep? || t.TNot? || t.TAnd? || t.TBehind? || t.TCapture? ==> WellFormed(g, t.body) && GrammarsLoaded(t.body)
    ensures t.TBehind? ==> t.back > 0
    ensures t.TCall? ==> t.rule < |g|
  {
    hide Fixedlenx, HasCaptures, HasCalls;
  }

  lemma RangeEmpty(code: seq<Instr>, a: nat)
    ensures RangeTidy(code, a, a)
  {
  }

  /** All the code is tidy once what comes behind it settles. */
  lemma {:induction false} GenTidy(x: Site, t: Tree, opt: bool, tt: Guard, fl: Charset, a: nat)
    requires WellFormed(x.g, t) && GrammarsLoaded(t) && RulesPlaced(x) && RulesSettle(x)
    requires Placed(x, a, Gen(x.g, t, opt, tt, fl)) && Settles(x.m.code, a + |Gen(x.g, t, opt, tt, fl)|)
    ensures RangeTidy(x.m.code, a, a + |Gen(x.g, t, opt, tt, fl)|) && Settles(x.m.code, a)
    decreases t, 1
  {
    hide Gen, Placed, Settles, FirstOf, GenTest, ChoiceByTest, LoopByTest, Headfail, Fixedlenx, HasCaptures, RangeTidy,
      RulesPlaced, FollowOf, GuardOfSecond, AndByBehind, CaptureFull, RulesSettle, WellFormed, GrammarsLoaded;
    PartsOf(x.g, t);
    match t
    case TSeq(p1, p2) =>
      GenUnfold(x.g, t, opt, tt, fl);
      var c1 := Gen(x.g, p1, false, tt, FollowOf(x.g, p1, p2, fl));
      var c2 := Gen(x.g, p2, opt, GuardOfSecond(x.g, p1, tt), fl);
      PlacedSplit(x, a, c1, c2);
      GenTidy(x, p2, opt, GuardOfSecond(x.g, p1, tt), fl, a + |c1|);
      GenTidy(x, p1, false, tt, FollowOf(x.g, p1, p2, fl), a);
      RangeJoin(x.m.code, a, a + |c1|, a + |c1| + |c2|);
    case TChoice(p1, p2) => TidyChoice(x, t, opt, tt, fl, a);
    case TRep(p) => TidyRep(x, t, opt, tt, fl, a);
    case TNot(p) => TidyNot(x, t, opt, tt, fl, a);
    case TAnd(p) => TidyAnd(x, t, opt, tt, fl, a);
    case TBehind(n, p) =>
      GenUnfold(x.g, t, opt, tt, fl);
      var c := Gen(x.g, p, false, NoGuard, FULLSET);
      PlacedSplit(x, a, [IBehind(n)], c);
      GenTidy(x, p, false, NoGuard, FULLSET, a + 1);
      RangeOne(x, a, IBehind(n));
      RangeJoin(x.m.code, a, a + 1, a + 1 + |c|);
    case TCapture(kind, key, p) => TidyCapture(x, t, opt, tt, fl, a);
    case TCall(r) =>
      CallClosed(x, r, opt, tt, fl, a);
      RulesAt(x, r);
      TidyCall(x, a, x.pos[r]);
    case TGrammar(rules) => TidyGrammar(x, t, opt, tt, fl, a);
    case _ => StartOfLeaf(x, t, opt, tt, fl, a);
  }

  lemma RulesAt(x: Site, r: nat)
    requires RulesSettle(x) && r < |x.g|
    ensures Settles(x.m.code, x.pos[r])
  {
  }

  lemma TidyCall(x: Site, a: nat, rule: nat)
    requires a < |x.m.code| && (x.m.code[a] == ICall(rule - a) || x.m.code[a] == IJmp(rule - a))
    requires Settles(x.m.code, rule)
    ensures RangeTidy(x.m.code, a, a + 1) && Settles(x.m.code, a)
  {
    hide Settles;
    if x.m.code[a].IJmp? {
      SettlesBack(x.m.code, a);
    } else {
      FinalFixed(x.m.code, a);
    }
  }

  lemma TidyChoice(x: Site, t: Tree, opt: bool, tt: Guard, fl: Charset, a: nat)
    requires t.TChoice?
    requires WellFormed(x.g, t) && GrammarsLoaded(t) && RulesPlaced(x) && RulesSettle(x)
    requires Placed(x, a, Gen(x.g, t, opt, tt, fl)) && Settles(x.m.code, a + |Gen(x.g, t, opt, tt, fl)|)
    ensures RangeTidy(x.m.code, a, a + |Gen(x.g, t, opt, tt, fl)|) && Settles(x.m.code, a)
    decreases t, 0
  {
    hide Gen, Placed, Settles, FirstOf, GenTest, LoopByTest, Headfail, Fixedlenx, HasCaptures, RangeTidy,
      RulesPlaced, FollowOf, GuardOfSecond, AndByBehind, CaptureFull, RulesSettle, WellFormed, GrammarsLoaded;
    PartsOf(x.g, t);
    var g, p1, p2, code := x.g, t.first, t.second, x.m.code;
    var f1 := FirstOf(g, p1, FULLSET);
    var b := a + |Gen(g, t, opt, tt, fl)|;
    if ChoiceByTest(g, p1, p2, fl) {
      ChoiceTestPlaced(x, t, opt, tt, fl, a);
      var test := GenTest(f1.cs, false);
      var c1, c2 := Gen(g, p1, false, test, fl), Gen(g, p2, opt, NoGuard, fl);
      var b1 := a + 1 + |c1|;
      var b2 := if p2.TTrue? then b1 else b1 + 1;
      GenTidy(x, p2, opt, NoGuard, fl, b2);
      if p2.TTrue? {
        RangeEmpty(code, b1);
      } else {
        RangeOne(x, b1, IJmp(|c2| + 1));
      }
      GenTidy(x, p1, false, test, fl, a + 1);
      GenTestNotCall(f1.cs, false);
      RangeTest(x, a, test, b2 - a, a + 1);
      RangeJoin(code, a, a + 1, b1);
      RangeJoin(code, a, b1, b2);
      RangeJoin(code, a, b2, b);
    } else if opt && p2.TTrue? {
      ChoiceOptPlaced(x, t, tt, fl, a);
      GenTidy(x, p1, true, NoGuard, FULLSET, a + 1);
      RangeOne(x, a, IPartialCommit(1));
      RangeJoin(code, a, a + 1, b);
    } else {
      ChoiceFullPlaced(x, t, opt, tt, fl, a);
      var test := GenTest(f1.cs, f1.e);
      var c1, c2 := Gen(g, p1, p2.TTrue?, test, FULLSET), Gen(g, p2, opt, NoGuard, fl);
      var a1 := a + |TestCode(test, |c1| + 3)|;
      var b1 := a1 + 1 + |c1|;
      GenTidy(x, p2, opt, NoGuard, fl, b1 + 1);
      RangeOne(x, b1, ICommit(|c2| + 1));
      GenTidy(x, p1, p2.TTrue?, test, FULLSET, a1 + 1);
      RangeOne(x, a1, IChoice(|c1| + 2));
      GenTestNotCall(f1.cs, f1.e);
      RangeTest(x, a, test, |c1| + 3, a1);
      RangeJoin(code, a, a1, a1 + 1);
      RangeJoin(code, a, a1 + 1, b1);
      RangeJoin(code, a, b1, b1 + 1);
      RangeJoin(code, a, b1 + 1, b);
    }
  }

  lemma TidyRep(x: Site, t: Tree, opt: bool, tt: Guard, fl: Charset, a: nat)
    requires t.TRep?
    requires WellFormed(x.g, t) && GrammarsLoaded(t) && RulesPlaced(x) && RulesSettle(x)
    requires Placed(x, a, Gen(x.g, t, opt, tt, fl)) && Settles(x.m.code, a + |Gen(x.g, t, opt, tt, fl)|)
    ensures RangeTidy(x.m.code, a, a + |Gen(x.g, t, opt, tt, fl)|) && Settles(x.m.code, a)
    decreases t, 0
  {
    hide Gen, Placed, Settles, FirstOf, GenTest, ChoiceByTest, Headfail, Fixedlenx, HasCaptures, RangeTidy,
      RulesPlaced, FollowOf, GuardOfSecond, AndByBehind, CaptureFull, RulesSettle, WellFormed, GrammarsLoaded;
    PartsOf(x.g, t);
    var g, p, code := x.g, t.body, x.m.code;
    var b := a + |Gen(g, t, opt, tt, fl)|;
    if IsCharset(p) {
      GenUnfold(g, t, opt, tt, fl);
      RangeOne(x, a, ISpan(ToCharset(p)));
    } else {
      StartOfRep(x, t, opt, tt, fl, a);
      RepPlaced(x, t, opt, tt, fl, a);
      var f := FirstOf(g, p, FULLSET);
      if LoopByTest(g, p, fl) {
        var test := GenTest(f.cs, false);
        var c := Gen(g, p, opt, test, FULLSET);
        RangeOne(x, a + 1 + |c|, IJmp(-(|c| + 1)));
        GenTidy(x, p, opt, test, FULLSET, a + 1);
        GenTestNotCall(f.cs, false);
        RangeTest(x, a, test, |c| + 2, a + 1);
        RangeJoin(code, a, a + 1, a + 1 + |c|);
        RangeJoin(code, a, a + 1 + |c|, b);
      } else {
        var test := GenTest(f.cs, f.e);
        var c := Gen(g, p, false, NoGuard, FULLSET);
        var a1 := a + |TestCode(test, |c| + 3)|;
        OneSettles(x, a1 + 1 + |c|, IPartialCommit(-|c|));
        GenTidy(x, p, false, NoGuard, FULLSET, a1 + 1);
        RangeOne(x, a1 + 1 + |c|, IPartialCommit(-|c|));
        RangeOne(x, a1, if opt then IPartialCommit(1) else IChoice(|c| + 2));
        GenTestNotCall(f.cs, f.e);
        RangeTest(x, a, test, |c| + 3, a1);
        RangeJoin(code, a, a1, a1 + 1);
        RangeJoin(code, a, a1 + 1, a1 + 1 + |c|);
        RangeJoin(code, a, a1 + 1 + |c|, b);
      }
    }
  }

  lemma TidyNot(x: Site, t: Tree, opt: bool, tt: Guard, fl: Charset, a: nat)
    requires t.TNot?
    requires WellFormed(x.g, t) && GrammarsLoaded(t) && RulesPlaced(x) && RulesSettle(x)
    requires Placed(x, a, Gen(x.g, t, opt, tt, fl)) && Settles(x.m.code, a + |Gen(x.g, t, opt, tt, fl)|)
    ensures RangeTidy(x.m.code, a, a + |Gen(x.g, t, opt, tt, fl)|) && Settles(x.m.code, a)
    decreases t, 0
  {
    hide Gen, Placed, Settles, FirstOf, GenTest, ChoiceByTest, LoopByTest, Headfail, Fixedlenx, HasCaptures, RangeTidy,
      RulesPlaced, FollowOf, GuardOfSecond, AndByBehind, CaptureFull, RulesSettle, WellFormed, GrammarsLoaded;
    PartsOf(x.g, t);
    var g, p, code := x.g, t.body, x.m.code;
    var b := a + |Gen(g, t, opt, tt, fl)|;
    NotPlaced(x, t, opt, tt, fl, a);
    var f := FirstOf(g, p, FULLSET);
    var test := GenTest(f.cs, f.e);
    GenTestNotCall(f.cs, f.e);
    if Headfail(g, p) {
      var a1 := a + |TestCode(test, 2)|;
      RangeOne(x, a1, IFail);
      if !f.e {
        RangeTest(x, a, test, 2, a1);
      } else {
        RangeEmpty(code, a);
      }
      RangeJoin(code, a, a1, b);
    } else {
      var c := Gen(g, p, false, NoGuard, FULLSET);
      var a1 := a + |TestCode(test, |c| + 3)|;
      RangeOne(x, a1 + 1 + |c|, IFailTwice);
      GenTidy(x, p, false, NoGuard, FULLSET, a1 + 1);
      RangeOne(x, a1, IChoice(|c| + 2));
      RangeTest(x, a, test, |c| + 3, a1);
      RangeJoin(code, a, a1, a1 + 1);
      RangeJoin(code, a, a1 + 1, a1 + 1 + |c|);
      RangeJoin(code, a, a1 + 1 + |c|, b);
    }
  }

  lemma TidyAnd(x: Site, t: Tree, opt: bool, tt: Guard, fl: Charset, a: nat)
    requires t.TAnd?
    requires WellFormed(x.g, t) && GrammarsLoaded(t) && RulesPlaced(x) && RulesSettle(x)
    requires Placed(x, a, Gen(x.g, t, opt, tt, fl)) && Settles(x.m.code, a + |Gen(x.g, t, opt, tt, fl)|)
    ensures RangeTidy(x.m.code, a, a + |Gen(x.g, t, opt, tt, fl)|) && Settles(x.m.code, a)
    decreases t, 0
  {
    hide Gen, Placed, Settles, FirstOf, GenTest, ChoiceByTest, LoopByTest, Headfail, Fixedlenx, HasCaptures, RangeTidy,
      RulesPlaced, FollowOf, GuardOfSecond, CaptureFull, RulesSettle, WellFormed, GrammarsLoaded;
    PartsOf(x.g, t);
    var g, p, code := x.g, t.body, x.m.code;
    var b := a + |Gen(g, t, opt, tt, fl)|;
    AndPlaced(x, t, opt, tt, fl, a);
    var c := Gen(g, p, false, tt, FULLSET);
    if AndByBehind(g, p) {
      if Fixedlen(g, p) > 0 {
        RangeOne(x, a + |c|, IBehind(Fixedlen(g, p)));
      } else {
        RangeEmpty(code, b);
      }
      GenTidy(x, p, false, tt, FULLSET, a);
      RangeJoin(code, a, a + |c|, b);
    } else {
      RangeOne(x, a + 2 + |c|, IFail);
      RangeOne(x, a + 1 + |c|, IBackCommit(2));
      GenTidy(x, p, false, tt, FULLSET, a + 1);
      RangeOne(x, a, IChoice(|c| + 2));
      RangeJoin(code, a, a + 1, a + 1 + |c|);
      RangeJoin(code, a, a + 1 + |c|, a + 2 + |c|);
      RangeJoin(code, a, a + 2 + |c|, b);
    }
  }

  lemma TidyCapture(x: Site, t: Tree, opt: bool, tt: Guard, fl: Charset, a: nat)
    requires t.TCapture?
    requires WellFormed(x.g, t) && GrammarsLoaded(t) && RulesPlaced(x) && RulesSettle(x)
    requires Placed(x, a, Gen(x.g, t, opt, tt, fl)) && Settles(x.m.code, a + |Gen(x.g, t, opt, tt, fl)|)
    ensures RangeTidy(x.m.code, a, a + |Gen(x.g, t, opt, tt, fl)|) && Settles(x.m.code, a)
    decreases t, 0
  {
    hide Gen, Placed, Settles, FirstOf, GenTest, ChoiceByTest, LoopByTest, Headfail, Fixedlenx, HasCaptures, RangeTidy,
      RulesPlaced, FollowOf, GuardOfSecond, AndByBehind, RulesSettle, WellFormed, GrammarsLoaded;
    PartsOf(x.g, t);
    var g, p, code := x.g, t.body, x.m.code;
    var b := a + |Gen(g, t, opt, tt, fl)|;
    CapturePlaced(x, t, opt, tt, fl, a);
    var c := Gen(g, p, false, tt, fl);
    if CaptureFull(g, p) {
      RangeOne(x, a + |c|, IFullCapture(t.kind, t.key, Fixedlen(g, p)));
      GenTidy(x, p, false, tt, fl, a);
      RangeJoin(code, a, a + |c|, b);
    } else {
      RangeOne(x, a + 1 + |c|, ICloseCapture);
      GenTidy(x, p, false, tt, fl, a + 1);
      RangeOne(x, a, IOpenCapture(t.kind, t.key));
      RangeJoin(code, a, a + 1, a + 1 + |c|);
      RangeJoin(code, a, a + 1 + |c|, b);
    }
  }

  // ---------- Grammars ----------

  lemma GrammarFacts(g: Rules, t: Tree)
    requires t.TGrammar? && WellFormed(g, t) && GrammarsLoaded(t)
    ensures WellFormed([], t) && WellFormed([], TGrammar(t.rules)) && t.rules != []
    ensures GrammarsLoaded(TGrammar(t.rules)) && RulesLoaded(t.rules) && RulesWellFormed(t.rules)
  {
    hide VerifyGrammar, CoveredRules, HasCaptures, Fixedlenx, HasCalls;
  }

  /** The first `n` rules of a grammar in place, from the first on. */
  lemma {:induction false} RulesTidy(y: Site, t: Tree, base: nat, n: nat)
    requires t.TGrammar? && n <= |t.rules| && y.g == t.rules
    requires RulesPlaced(y) && RulesSettle(y) && RulesWellFormed(y.g) && RulesLoaded(y.g)
    requires forall k :: 0 <= k < |t.rules| ==> y.pos[k] == base + |GenRules(t, k)|
    ensures RangeTidy(y.m.code, base, base + |GenRules(t, n)|)
    decreases t, 0, n
  {
    hide Gen, RuleCode, Placed, Settles, FirstOf, GenTest, ChoiceByTest, LoopByTest, Headfail, Fixedlenx, HasCaptures, RangeTidy,
      FollowOf, GuardOfSecond, AndByBehind, CaptureFull, WellFormed, GrammarsLoaded, RulesPlaced, RulesSettle,
      RulesWellFormed, RulesLoaded;
    if n == 0 {
      RangeEmpty(y.m.code, base);
    } else {
      RulesTidy(y, t, base, n - 1);
      RuleTidy(y, t, base, n);
      RangeJoin(y.m.code, base, base + |GenRules(t, n - 1)|, base + |GenRules(t, n)|);
    }
  }

  lemma RuleTidy(y: Site, t: Tree, base: nat, n: nat)
    requires t.TGrammar? && 0 < n <= |t.rules| && y.g == t.rules
    requires RulesPlaced(y) && RulesSettle(y) && RulesWellFormed(y.g) && RulesLoaded(y.g)
    requires y.pos[n - 1] == base + |GenRules(t, n - 1)|
    ensures RangeTidy(y.m.code, base + |GenRules(t, n - 1)|, base + |GenRules(t, n)|)
    decreases t, 0, 0
  {
    hide Gen, Placed, Settles, FirstOf, GenTest, ChoiceByTest, LoopByTest, Headfail, Fixedlenx, HasCaptures, RangeTidy,
      FollowOf, GuardOfSecond, AndByBehind, CaptureFull, RulesSettle, WellFormed, GrammarsLoaded;
    RuleEnds(y, n - 1);
    RuleShape(y, n - 1);
    assert GrammarsLoaded(y.g[n - 1]);
    var c := Gen(t.rules, t.rules[n - 1], false, NoGuard, FULLSET);
    GenTidy(y, y.g[n - 1], false, NoGuard, FULLSET, y.pos[n - 1]);
    assert |GenRules(t, n)| == |GenRules(t, n - 1)| + |c| + 1;
    RangeJoin(y.m.code, y.pos[n - 1], y.pos[n - 1] + |c|, y.pos[n - 1] + |c| + 1);
  }

  lemma TidyGrammar(x: Site, t: Tree, opt: bool, tt: Guard, fl: Charset, a: nat)
    requires t.TGrammar?
    requires WellFormed(x.g, t) && GrammarsLoaded(t) && RulesPlaced(x) && RulesSettle(x)
    requires Placed(x, a, Gen(x.g, t, opt, tt, fl)) && Settles(x.m.code, a + |Gen(x.g, t, opt, tt, fl)|)
    ensures RangeTidy(x.m.code, a, a + |Gen(x.g, t, opt, tt, fl)|) && Settles(x.m.code, a)
    decreases t, 0
  {
    hide Gen, Placed, Settles, FirstOf, GenTest, ChoiceByTest, LoopByTest, Headfail, Fixedlenx, HasCaptures, RangeTidy,
      RulesPlaced, FollowOf, GuardOfSecond, AndByBehind, CaptureFull, RulesSettle, WellFormed, GrammarsLoaded;
    GrammarFacts(x.g, t);
    var y := GrammarPlaced(x, a, t, opt, tt, fl);
    var n := |GenRules(t, |t.rules|)|;
    RulesDoSettle(y);
    RulesTidy(y, t, a + 2, |t.rules|);
    RulesAt(y, 0);
    TwoTidy(x.m.code, a, n);
    RangeJoin(x.m.code, a, a + 2, a + 2 + n);
  }

  lemma TwoTidy(code: seq<Instr>, a: nat, n: nat)
    requires a + 2 + n <= |code| && code[a] == ICall(2) && code[a + 1] == IJmp(n + 1)
    requires Settles(code, a + 2) && Settles(code, a + 2 + n)
    ensures RangeTidy(code, a, a + 2) && Settles(code, a)
  {
    hide Settles;
    SettlesBack(code, a + 1);
    FinalFixed(code, a);
  }

  /** The code of a whole pattern, ended by IEnd, is tidy. */
  lemma ProgramTidy(t: Tree)
    requires WellFormed([], t) && GrammarsLoaded(t)
    ensures Tidy(Gen([], t, false, NoGuard, FULLSET) + [IEnd])
  {
    hide Gen, Placed, Settles, FirstOf, GenTest, ChoiceByTest, LoopByTest, Headfail, Fixedlenx, HasCaptures,
      FollowOf, GuardOfSecond, AndByBehind, CaptureFull, WellFormed, GrammarsLoaded;
    var c := Gen([], t, false, NoGuard, FULLSET);
    var x := Site(Machine(c + [IEnd], []), [], []);
    ProgramPlaced(t, x);
    RangeOne(x, |c|, IEnd);
    GenTidy(x, t, false, NoGuard, FULLSET, 0);
  }

  lemma ProgramPlaced(t: Tree, x: Site)
    requires WellFormed([], t) && x.m.code == Gen([], t, false, NoGuard, FULLSET) + [IEnd]
    ensures Placed(x, 0, Gen([], t, false, NoGuard, FULLSET))
    ensures Placed(x, |Gen([], t, false, NoGuard, FULLSET)|, [IEnd])
  {
    hide Gen, WellFormed;
    GenCallsBelow([], t, false, NoGuard, FULLSET);
  }
}
