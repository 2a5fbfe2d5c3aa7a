/** What the loader guarantees of a pattern, and in which patterns no loop is left through a choice above it. */
module LpegPremise {
  import opened LpegTree
  import opened LpegAnalysis
  import opened LpegMachine
  import opened LpegCode

  // ---------- Which patterns ----------

  /** What the constructors and the grammar loader guarantee of a tree under the rules `g`. */
  predicate WellFormed(g: Rules, t: Tree)
    decreases t
  {
    match t
    case TRep(p) => WellFormed(g, p)
    case TSeq(p1, p2) => WellFormed(g, p1) && WellFormed(g, p2)
    case TChoice(p1, p2) => WellFormed(g, p1) && WellFormed(g, p2)
    case TNot(p) => WellFormed(g, p)
    case TAnd(p) => WellFormed(g, p)
    case TCapture(_, _, p) => WellFormed(g, p)
    case TBehind(n, p) =>
      WellFormed(g, p) && 0 < n <= MAXBEHIND && Fixedlen(g, p) == n && !HasCaptures(p)
    case TCall(k) => k < |g|
    case TGrammar(rules) =>
      0 < |rules| <= MAXRULES && forall i :: 0 <= i < |rules| ==> WellFormed(rules, rules[i])
    case _ => true
  }

  predicate RulesWellFormed(g: Rules) { forall k :: 0 <= k < |g| ==> WellFormed(g, g[k]) }

  predicate HasCalls(t: Tree)
  {
    match t
    case TCall(_) => true
    case TRep(p) => HasCalls(p)
    case TSeq(p1, p2) => HasCalls(p1) || HasCalls(p2)
    case TChoice(p1, p2) => HasCalls(p1) || HasCalls(p2)
    case TNot(p) => HasCalls(p)
    case TAnd(p) => HasCalls(p)
    case TBehind(_, p) => HasCalls(p)
    case TCapture(_, _, p) => HasCalls(p)
    case _ => false
  }

  /** Does standing under a choice that jumps to the end change the code of `t`? */
  predicate OptTail(g: Rules, t: Tree, fl: Charset)
  {
    match t
    case TSeq(_, p2) => OptTail(g, p2, fl)
    case TChoice(p1, p2) =>
      if ChoiceByTest(g, p1, p2, fl) then OptTail(g, p2, fl)
      else p2.TTrue? || OptTail(g, p2, fl)
    case TRep(p) =>
      !IsCharset(p) && if LoopByTest(g, p, fl) then OptTail(g, p, FULLSET) else true
    case _ => false
  }

  /**
   * No loop that is coded with a test alone and stands under a choice that jumps to its end has a
   * body whose code uses that choice: such a body leaves the loop through the choice.
   */
  predicate TailsSafe(g: Rules, t: Tree, opt: bool, fl: Charset)
    decreases t
  {
    match t
    case TSeq(p1, p2) => TailsSafe(g, p1, false, FollowOf(g, p1, p2, fl)) && TailsSafe(g, p2, opt, fl)
    case TChoice(p1, p2) =>
      if ChoiceByTest(g, p1, p2, fl) then TailsSafe(g, p1, false, fl) && TailsSafe(g, p2, opt, fl)
      else if opt && p2.TTrue? then TailsSafe(g, p1, true, FULLSET)
      else TailsSafe(g, p1, p2.TTrue?, FULLSET) && TailsSafe(g, p2, opt, fl)
    case TRep(p) =>
      IsCharset(p) ||
      (TailsSafe(g, p, false, FULLSET) && (opt && LoopByTest(g, p, fl) ==> !OptTail(g, p, FULLSET)))
    case TNot(p) => Headfail(g, p) || TailsSafe(g, p, false, FULLSET)
    case TAnd(p) => TailsSafe(g, p, false, FULLSET)
    case TBehind(_, p) => TailsSafe(g, p, false, FULLSET)
    case TCapture(_, _, p) => TailsSafe(g, p, false, fl)
    case TGrammar(rules) => forall i :: 0 <= i < |rules| ==> TailsSafe(rules, rules[i], false, FULLSET)
    case _ => true
  }

  // ---------- When the code depends on `opt` ----------

  /** One level of Gen. */
  lemma GenUnfold(g: Rules, t: Tree, opt: bool, tt: Guard, fl: Charset)
    ensures t.TTrue? ==> Gen(g, t, opt, tt, fl) == []
    ensures t.TSeq? ==>
              var c1 := Gen(g, t.first, false, tt, FollowOf(g, t.first, t.second, fl));
              Gen(g, t, opt, tt, fl) == SeqCode(c1, Gen(g, t.second, opt, GuardOfSecond(g, t.first, tt), fl))
    ensures t.TChoice? && ChoiceByTest(g, t.first, t.second, fl) ==>
              var test := GenTest(FirstOf(g, t.first, FULLSET).cs, false);
              var c1, c2 := Gen(g, t.first, false, test, fl), Gen(g, t.second, opt, NoGuard, fl);
              Gen(g, t, opt, tt, fl) == ChoiceTestCode(test, c1, c2, t.second.TTrue?)
    ensures t.TChoice? && !ChoiceByTest(g, t.first, t.second, fl) && opt && t.second.TTrue? ==>
              Gen(g, t, opt, tt, fl) == ChoiceOptCode(Gen(g, t.first, true, NoGuard, FULLSET))
    ensures t.TChoice? && !ChoiceByTest(g, t.first, t.second, fl) && !(opt && t.second.TTrue?) ==>
              var f1 := FirstOf(g, t.first, FULLSET);
              var test := GenTest(f1.cs, f1.e);
              var c1, c2 := Gen(g, t.first, t.second.TTrue?, test, FULLSET), Gen(g, t.second, opt, NoGuard, fl);
              Gen(g, t, opt, tt, fl) == ChoiceFullCode(test, c1, c2)
    ensures t.TRep? && !IsCharset(t.body) && LoopByTest(g, t.body, fl) ==>
              var test := GenTest(FirstOf(g, t.body, FULLSET).cs, false);
              Gen(g, t, opt, tt, fl) == LoopTestCode(test, Gen(g, t.body, opt, test, FULLSET))
    ensures t.TRep? && !IsCharset(t.body) && !LoopByTest(g, t.body, fl) ==>
              var f := FirstOf(g, t.body, FULLSET);
              Gen(g, t, opt, tt, fl) == LoopCode(GenTest(f.cs, f.e), Gen(g, t.body, false, NoGuard, FULLSET), opt)
    ensures t.TRep? && IsCharset(t.body) ==> Gen(g, t, opt, tt, fl) == [ISpan(ToCharset(t.body))]
    ensures t.TNot? ==>
              var f := FirstOf(g, t.body, FULLSET);
              var c := Gen(g, t.body, false, NoGuard, FULLSET);
              Gen(g, t, opt, tt, fl) == NotCode(GenTest(f.cs, f.e), Headfail(g, t.body), c)
    ensures t.TAnd? ==>
              var c := Gen(g, t.body, false, tt, FULLSET);
              Gen(g, t, opt, tt, fl) ==
              if AndByBehind(g, t.body) then AndBehindCode(c, Fixedlen(g, t.body)) else AndCode(c)
    ensures t.TBehind? ==> Gen(g, t, opt, tt, fl) == BehindCode(t.back, Gen(g, t.body, false, NoGuard, FULLSET))
    ensures t.TCapture? ==>
              var c := Gen(g, t.body, false, tt, fl);
              Gen(g, t, opt, tt, fl) ==
              if CaptureFull(g, t.body) then CaptureFullCode(t.kind, t.key, Fixedlen(g, t.body), c)
              else CaptureCode(t.kind, t.key, c)
    ensures t.TGrammar? ==> Gen(g, t, opt, tt, fl) == GrammarCode(GenRules(t, |t.rules|), RulePositions(t))
  {
    hide FirstOf, ChoiceByTest, LoopByTest, AndByBehind, CaptureFull, FollowOf, GuardOfSecond, GenTest, Headfail, SeqCode,
      ChoiceTestCode, ChoiceOptCode, ChoiceFullCode, LoopTestCode, LoopCode, NotCode, AndBehindCode, AndCode, BehindCode,
      CaptureFullCode, CaptureCode, GrammarCode, GenRules, RulePositions;
  }

  lemma AppendDiffers(a: seq<Instr>, x: seq<Instr>, b: seq<Instr>, y: seq<Instr>)
    requires |a| == |b|
    ensures a + x == b + y ==> x == y
  {
    assert (a + x)[|a|..] == x;
    assert (b + y)[|b|..] == y;
  }

  lemma ChoiceTestKeeps(test: Guard, c: seq<Instr>, x: seq<Instr>, y: seq<Instr>)
    requires test.Guarded? && HasLabel(test.test)
    ensures ChoiceTestCode(test, c, x, false) == ChoiceTestCode(test, c, y, false) <==> x == y
  {
    var pre, pre' := TestCode(test, |c| + 2) + (c + [IJmp(|x| + 1)]), TestCode(test, |c| + 2) + (c + [IJmp(|y| + 1)]);
    assert ChoiceTestCode(test, c, x, false) == pre + x;
    assert ChoiceTestCode(test, c, y, false) == pre' + y;
    AppendDiffers(pre, x, pre', y);
  }

  lemma ChoiceFullKeeps(test: Guard, c: seq<Instr>, x: seq<Instr>, y: seq<Instr>)
    requires test.Guarded? ==> HasLabel(test.test)
    ensures ChoiceFullCode(test, c, x) == ChoiceFullCode(test, c, y) <==> x == y
  {
    var pre := TestCode(test, |c| + 3) + ([IChoice(|c| + 2)] + c);
    assert ChoiceFullCode(test, c, x) == pre + [ICommit(|x| + 1)] + x;
    assert ChoiceFullCode(test, c, y) == pre + [ICommit(|y| + 1)] + y;
    AppendDiffers(pre + [ICommit(|x| + 1)], x, pre + [ICommit(|y| + 1)], y);
  }

  lemma LoopTestKeeps(test: Guard, x: seq<Instr>, y: seq<Instr>)
    requires test.Guarded? && HasLabel(test.test)
    ensures LoopTestCode(test, x) == LoopTestCode(test, y) <==> x == y
  {
    if LoopTestCode(test, x) == LoopTestCode(test, y) {
      assert x == LoopTestCode(test, x)[1..|x| + 1];
      assert y == LoopTestCode(test, y)[1..|y| + 1];
    }
  }

  lemma LoopsDiffer(test: Guard, c: seq<Instr>)
    requires test.Guarded? ==> HasLabel(test.test)
    ensures LoopCode(test, c, true) != LoopCode(test, c, false)
  {
    var n := |TestCode(test, |c| + 3)|;
    assert LoopCode(test, c, true)[n] == IPartialCommit(1);
    assert LoopCode(test, c, false)[n] == IChoice(|c| + 2);
  }

  lemma ChoicesDiffer(cs: Charset, e: bool, x: seq<Instr>, c: seq<Instr>, y: seq<Instr>)
    ensures ChoiceOptCode(x) != ChoiceFullCode(GenTest(cs, e), c, y)
  {
    assert ChoiceOptCode(x)[0] == IPartialCommit(1);
    assert !ChoiceFullCode(GenTest(cs, e), c, y)[0].IPartialCommit?;
  }

  /** The code depends on `opt` exactly when OptTail says so. */
  lemma {:induction false} OptTailExact(g: Rules, t: Tree, tt: Guard, fl: Charset)
    ensures OptTail(g, t, fl) <==> Gen(g, t, true, tt, fl) != Gen(g, t, false, tt, fl)
  {
    hide Gen, FirstOf, ChoiceByTest, LoopByTest, FollowOf, GuardOfSecond, GenTest, ChoiceTestCode, ChoiceOptCode,
      ChoiceFullCode, LoopTestCode, LoopCode;
    GenUnfold(g, t, true, tt, fl);
    GenUnfold(g, t, false, tt, fl);
    match t
    case TSeq(p1, p2) =>
      var tt2 := GuardOfSecond(g, p1, tt);
      OptTailExact(g, p2, tt2, fl);
      var c1 := Gen(g, p1, false, tt, FollowOf(g, p1, p2, fl));
      AppendDiffers(c1, Gen(g, p2, true, tt2, fl), c1, Gen(g, p2, false, tt2, fl));
    case TChoice(p1, p2) =>
      var c2, c2' := Gen(g, p2, true, NoGuard, fl), Gen(g, p2, false, NoGuard, fl);
      var f1 := FirstOf(g, p1, FULLSET);
      OptTailExact(g, p2, NoGuard, fl);
      if ChoiceByTest(g, p1, p2, fl) {
        if !p2.TTrue? {
          var test := GenTest(f1.cs, false);
          ChoiceTestKeeps(test, Gen(g, p1, false, test, fl), c2, c2');
        }
      } else if p2.TTrue? {
        var test := GenTest(f1.cs, f1.e);
        ChoicesDiffer(f1.cs, f1.e, Gen(g, p1, true, NoGuard, FULLSET), Gen(g, p1, true, test, FULLSET), c2');
      } else {
        var test := GenTest(f1.cs, f1.e);
        ChoiceFullKeeps(test, Gen(g, p1, false, test, FULLSET), c2, c2');
      }
    case TRep(p) =>
      if !IsCharset(p) {
        var f := FirstOf(g, p, FULLSET);
        if LoopByTest(g, p, fl) {
          var test := GenTest(f.cs, false);
          OptTailExact(g, p, test, FULLSET);
          LoopTestKeeps(test, Gen(g, p, true, test, FULLSET), Gen(g, p, false, test, FULLSET));
        } else {
          LoopsDiffer(GenTest(f.cs, f.e), Gen(g, p, false, NoGuard, FULLSET));
        }
      }
    case _ => GenIgnoresOpt(g, t, tt, fl);
  }

  lemma GenIgnoresOpt(g: Rules, t: Tree, tt: Guard, fl: Charset)
    requires !t.TSeq? && !t.TChoice? && !t.TRep?
    ensures Gen(g, t, true, tt, fl) == Gen(g, t, false, tt, fl)
  {
  }
}
