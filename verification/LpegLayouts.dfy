/** What the layouts of the generated code save, and exactly when. */
module LpegLayouts {
  import opened LpegTree
  import opened LpegAnalysis
  import opened LpegMachine
  import opened LpegCode
  import opened LpegPremise
  import opened LpegPlace
  import opened LpegVerify
  import opened LpegExact

  // ---------- When a layout applies ----------

  /** Can a match of the pattern, or of what follows it, begin with `c`? */
  predicate Starts(g: Rules, t: Tree, follow: Charset, left: nat, c: Byte)
  {
    Begins(g, t, left, c) || (Skips(g, t, left, c) && c in follow)
  }

  /** One test decides the pattern: nothing on any way through it can fail behind the first character. */
  ghost predicate OneTestEach(g: Rules, t: Tree) { forall w :: w in Ways(g, t, CHASE) ==> OneTest(w) }

  /**
   * A choice is decided by the next character if that decides its first pattern, or if that pattern needs a
   * character and no character can start both.
   */
  lemma ChoiceByTestExact(g: Rules, p1: Tree, p2: Tree, fl: Charset, left: nat)
    requires LeftBounded(g, p1, left) && LeftBounded(g, p2, left) && left <= CHASE
    ensures ChoiceByTest(g, p1, p2, fl) <==>
            || OneTestEach(g, p1)
            || (!EndsSubject(g, p1, left) && forall c: Byte :: !(Starts(g, p1, FULLSET, left, c) && Starts(g, p2, fl, left, c)))
  {
    hide Begins, Skips, EndsSubject, Ways, Headfailx, Getfirst, LeftBounded, OneTest;
    HeadfailShape(g, p1, CHASE);
    forall c: Byte
      ensures Starts(g, p1, FULLSET, left, c) <==> c in FirstOf(g, p1, FULLSET).cs
      ensures Starts(g, p2, fl, left, c) <==> c in FirstOf(g, p2, fl).cs
      ensures FirstOf(g, p1, FULLSET).e <==> EndsSubject(g, p1, left)
    {
      FirstExact(g, p1, FULLSET, left, c);
      FirstExact(g, p2, fl, left, c);
    }
    FirstExact(g, p1, FULLSET, left, 0);
    DisjointExact(FirstOf(g, p1, FULLSET).cs, FirstOf(g, p2, fl).cs);
  }

  /** A loop is decided by the next character likewise, against what follows the loop. */
  lemma LoopByTestExact(g: Rules, p: Tree, fl: Charset, left: nat)
    requires LeftBounded(g, p, left) && left <= CHASE
    ensures LoopByTest(g, p, fl) <==>
            || OneTestEach(g, p)
            || (!EndsSubject(g, p, left) && forall c: Byte :: !(Starts(g, p, FULLSET, left, c) && c in fl))
  {
    hide Begins, Skips, EndsSubject, Ways, Headfailx, Getfirst, LeftBounded, OneTest;
    HeadfailShape(g, p, CHASE);
    forall c: Byte ensures Starts(g, p, FULLSET, left, c) <==> c in FirstOf(g, p, FULLSET).cs {
      FirstExact(g, p, FULLSET, left, c);
    }
    FirstExact(g, p, FULLSET, left, 0);
    DisjointExact(FirstOf(g, p, FULLSET).cs, fl);
  }

  lemma DisjointExact(a: Charset, b: Charset)
    ensures Disjoint(a, b) <==> forall c: Byte :: !(c in a && c in b)
  {
    if forall c: Byte :: !(c in a && c in b) {
      assert a * b == {};
    }
    if Disjoint(a, b) {
      forall c: Byte ensures !(c in a && c in b) {
        assert c !in a * b;
      }
    }
  }

  /** A look-ahead looks behind, and a capture is one instruction, for one short length and no capture inside. */
  lemma FixedExact(g: Rules, p: Tree)
    ensures AndByBehind(g, p) <==>
            (exists n: nat :: n <= MAXBEHIND && TakesOnly(g, p, MAXRULES, n)) && !exists q :: PartOf(q, p) && q.TCapture?
    ensures CaptureFull(g, p) <==>
            (exists n: nat :: n <= MAXOFF && TakesOnly(g, p, MAXRULES, n)) && !exists q :: PartOf(q, p) && q.TCapture?
  {
    hide TakesOnly, PartOf, Fixedlenx, HasCaptures;
    CapturesExact(p);
    forall n: nat ensures Fixedlen(g, p) == n <==> TakesOnly(g, p, MAXRULES, n) {
      FixedlenExact(g, p, n);
    }
    if 0 <= Fixedlen(g, p) {
      assert TakesOnly(g, p, MAXRULES, Fixedlen(g, p));
    }
  }

  /** Where lengths are known before calls are resolved, the rules make no difference to them. */
  lemma {:induction false} TakesOpen(g: Rules, t: Tree, depth: nat, n: nat)
    requires Plain([], t, depth)
    ensures Plain(g, t, depth) && (Takes(g, t, depth, n) <==> Takes([], t, depth, n))
    decreases t
  {
    match t
    case TSeq(p1, p2) =>
      forall i: nat
        ensures Plain(g, p1, depth) && (Takes(g, p1, depth, i) <==> Takes([], p1, depth, i))
        ensures Plain(g, p2, depth) && (Takes(g, p2, depth, i) <==> Takes([], p2, depth, i))
      {
        TakesOpen(g, p1, depth, i);
        TakesOpen(g, p2, depth, i);
      }
      TakesOpen(g, p1, depth, n);
    case TChoice(p1, p2) => TakesOpen(g, p1, depth, n); TakesOpen(g, p2, depth, n);
    case TCapture(_, _, p) => TakesOpen(g, p, depth, n);
    case _ =>
  }

  /** Every pattern without captures that can take one length only, from 1 to 255, may be looked behind at. */
  lemma BehindBuilds(g: Rules, t: Tree, n: nat)
    requires WellFormed(g, t) && !(exists q :: PartOf(q, t) && q.TCapture?) && TakesOnly([], t, MAXRULES, n)
    ensures WellFormed(g, TBehind(n, t)) <==> 0 < n <= 255
  {
    hide Plain, Takes, PartOf, HasCaptures, Fixedlenx;
    CapturesExact(t);
    forall m: nat ensures Takes(g, t, MAXRULES, m) <==> Takes([], t, MAXRULES, m) {
      TakesOpen(g, t, MAXRULES, m);
    }
    TakesOpen(g, t, MAXRULES, n);
    FixedlenExact(g, t, n);
  }

  /** What follows the first pattern of a sequence is known where that ends in a choice or a repetition. */
  lemma FollowExact(g: Rules, p1: Tree, p2: Tree, fl: Charset, left: nat, c: Byte)
    requires LeftBounded(g, p2, left) && left <= CHASE
    ensures c in FollowOf(g, p1, p2, fl) <==> !(LastOf(p1).TChoice? || LastOf(p1).TRep?) || Starts(g, p2, fl, left, c)
  {
    hide Begins, Skips, Getfirst, LeftBounded, LastOf;
    NeedfollowExact(p1);
    FirstExact(g, p2, fl, left, c);
  }

  // ---------- Tests ----------

  /** The characters that pass a test made by GenTest. */
  function PassedBy(i: Instr): Charset
    requires i.ITestAny? || i.ITestChar? || i.ITestSet? || i.IJmp?
  {
    match i
    case ITestAny(_) => FULLSET
    case ITestChar(_, c) => {c}
    case ITestSet(_, cs) => cs
    case IJmp(_) => {}
  }

  /** There is a test where a character is needed, and just the given characters pass it. */
  lemma TestExact(cs: Charset, e: bool)
    ensures GenTest(cs, e) == NoGuard <==> e
    ensures !e ==>
              var i := GenTest(cs, e).test;
              (i.ITestAny? || i.ITestChar? || i.ITestSet? || i.IJmp?) && PassedBy(i) == cs
  {
  }

  /** A set that was just tested is not tested again. */
  lemma CharsetExact(cs: Charset, tt: Guard, test: Charset)
    requires tt == GenTest(test, false) || tt == NoGuard
    ensures GenCharset(cs, tt) == IAny <==> cs == FULLSET || (tt.Guarded? && test == cs && cs != {})
    ensures GenCharset(cs, tt) != IAny ==> GenCharset(cs, tt) == CharsetType(cs)
  {
    TestExact(test, false);
  }

  lemma CharExact(c: Byte, tt: Guard, test: Charset)
    requires tt == GenTest(test, false) || tt == NoGuard
    ensures GenChar(c, tt) == IAny <==> tt.Guarded? && test == {c}
    ensures GenChar(c, tt) != IAny ==> GenChar(c, tt) == IChar(c)
  {
    TestExact(test, false);
  }

  /** The second pattern of a sequence is under the test only if the first one takes nothing. */
  lemma GuardExact(g: Rules, p1: Tree, tt: Guard)
    ensures GuardOfSecond(g, p1, tt) == if TakesOnly(g, p1, MAXRULES, 0) then tt else NoGuard
  {
    hide TakesOnly, Fixedlenx;
    FixedlenExact(g, p1, 0);
  }

  /** What the test in front has decided is not decided again: a character that passed it is just taken. */
  lemma TestedOnce(g: Rules, p1: Tree, p2: Tree, opt: bool, tt: Guard, fl: Charset)
    requires IsCharset(p1) && ToCharset(p1) != {}
    ensures var code := Gen(g, TChoice(p1, p2), opt, tt, fl); |code| > 1 && code[1] == IAny
  {
    hide Gen, GenTest;
    var cs := ToCharset(p1);
    var test := GenTest(cs, false);
    assert FirstOf(g, p1, FULLSET) == First(cs, false) && Headfail(g, p1);
    GenUnfold(g, TChoice(p1, p2), opt, tt, fl);
    CharTaken(g, p1, test, fl);
    var c2 := Gen(g, p2, opt, NoGuard, fl);
    var jmp := if p2.TTrue? then [] else [IJmp(|c2| + 1)];
    assert |TestCode(test, 1 + |jmp| + 1)| == 1 by { TestExact(cs, false); }
  }

  lemma CharTaken(g: Rules, p: Tree, test: Guard, fl: Charset)
    requires IsCharset(p) && ToCharset(p) != {} && test == GenTest(ToCharset(p), false)
    ensures Gen(g, p, false, test, fl) == [IAny]
  {
    CharsetExact(ToCharset(p), test, ToCharset(p));
    if p.TChar? {
      CharExact(p.c, test, {p.c});
    }
  }

  // ---------- What the code costs ----------

  /** The number of instructions, and how many of them push a choice of their own. */
  datatype Cost = Cost(size: nat, choices: nat)

  function Plus(a: Cost, b: Cost): Cost { Cost(a.size + b.size, a.choices + b.choices) }

  function Choices(code: seq<Instr>): nat
  {
    if code == [] then 0 else Choices(code[1..]) + if code[0].IChoice? then 1 else 0
  }

  predicate Costs(code: seq<Instr>, c: Cost) { |code| == c.size && Choices(code) == c.choices }

  lemma {:induction false} ChoicesJoin(a: seq<Instr>, b: seq<Instr>)
    ensures Choices(a + b) == Choices(a) + Choices(b)
    decreases |a|
  {
    if a == [] {
      assert a + b == b;
    } else {
      ChoicesJoin(a[1..], b);
      assert (a + b)[1..] == a[1..] + b;
    }
  }

  lemma OneChoice(i: Instr)
    ensures Choices([i]) == if i.IChoice? then 1 else 0
  {
    assert [i][1..] == [];
  }

  /** One instruction for a first set, none if the pattern may match the empty subject. */
  function TestSize(e: bool): nat { if e then 0 else 1 }

  /**
   * What the code of a pattern costs. A test saves the choice, an optional pattern or a loop under a choice
   * uses that one, and a look-ahead of one length without captures needs none.
   */
  function Expected(g: Rules, t: Tree, opt: bool, fl: Charset): Cost
    decreases t, 1, 0
  {
    match t
    case TTrue => Cost(0, 0)
    case TSeq(p1, p2) => Plus(Expected(g, p1, false, FollowOf(g, p1, p2, fl)), Expected(g, p2, opt, fl))
    case TChoice(p1, p2) =>
      if ChoiceByTest(g, p1, p2, fl) then
        Plus(Cost(if p2.TTrue? then 1 else 2, 0), Plus(Expected(g, p1, false, fl), Expected(g, p2, opt, fl)))
      else if opt && p2.TTrue? then Plus(Cost(1, 0), Expected(g, p1, true, FULLSET))
      else
        Plus(Cost(TestSize(FirstOf(g, p1, FULLSET).e) + 2, 1),
             Plus(Expected(g, p1, p2.TTrue?, FULLSET), Expected(g, p2, opt, fl)))
    case TRep(p) =>
      if IsCharset(p) then Cost(1, 0)
      else if LoopByTest(g, p, fl) then Plus(Cost(2, 0), Expected(g, p, opt, FULLSET))
      else Plus(Cost(TestSize(FirstOf(g, p, FULLSET).e) + 2, if opt then 0 else 1), Expected(g, p, false, FULLSET))
    case TNot(p) =>
      var test := TestSize(FirstOf(g, p, FULLSET).e);
      if Headfail(g, p) then Cost(test + 1, 0) else Plus(Cost(test + 2, 1), Expected(g, p, false, FULLSET))
    case TAnd(p) =>
      Plus(if !AndByBehind(g, p) then Cost(3, 1) else if Fixedlen(g, p) > 0 then Cost(1, 0) else Cost(0, 0),
           Expected(g, p, false, FULLSET))
    case TBehind(n, p) => Plus(Cost(if n > 0 then 1 else 0, 0), Expected(g, p, false, FULLSET))
    case TCapture(_, _, p) => Plus(Cost(if CaptureFull(g, p) then 1 else 2, 0), Expected(g, p, false, fl))
    case TGrammar(rules) => Plus(Cost(2, 0), ExpectedRules(t, |rules|))
    case _ => Cost(1, 0)
  }

  function ExpectedRules(t: Tree, k: nat): Cost
    requires t.TGrammar? && k <= |t.rules|
    decreases t, 0, k
  {
    if k == 0 then Cost(0, 0)
    else Plus(ExpectedRules(t, k - 1), Plus(Expected(t.rules, t.rules[k - 1], false, FULLSET), Cost(1, 0)))
  }

  lemma ChoicesTest(tt: Guard, off: int, code: seq<Instr>, cs: Charset, e: bool)
    requires tt == GenTest(cs, e)
    ensures Choices(TestCode(tt, off) + code) == Choices(code) && |TestCode(tt, off)| == TestSize(e)
  {
    hide Choices;
    ChoicesJoin(TestCode(tt, off), code);
    if e {
      NoChoices();
    } else {
      OneChoice(WithOff(tt.test, off));
    }
  }

  lemma NoChoices()
    ensures Choices([]) == 0
  {
  }

  lemma ChoicesBefore(i: Instr, code: seq<Instr>)
    ensures Choices([i] + code) == Choices(code) + if i.IChoice? then 1 else 0
  {
    hide Choices;
    OneChoice(i);
    ChoicesJoin([i], code);
  }

  lemma ChoicesBehind(code: seq<Instr>, i: Instr)
    ensures Choices(code + [i]) == Choices(code) + if i.IChoice? then 1 else 0
  {
    hide Choices;
    OneChoice(i);
    ChoicesJoin(code, [i]);
  }

  lemma {:induction false} ChoiceCost(g: Rules, t: Tree, opt: bool, tt: Guard, fl: Charset)
    requires t.TChoice?
    ensures Costs(Gen(g, t, opt, tt, fl), Expected(g, t, opt, fl))
    decreases t, 1, 0
  {
    hide Choices, Gen, Expected, FirstOf, ChoiceByTest, GenTest;
    var (p1, p2) := (t.first, t.second);
    var f1 := FirstOf(g, p1, FULLSET);
    GenUnfold(g, t, opt, tt, fl);
    ExpectedChoice(g, p1, p2, opt, fl);
    var c2 := Gen(g, p2, opt, NoGuard, fl);
    if ChoiceByTest(g, p1, p2, fl) {
      var test := GenTest(f1.cs, false);
      var c1 := Gen(g, p1, false, test, fl);
      CostExact(g, p1, false, test, fl);
      CostExact(g, p2, opt, NoGuard, fl);
      var jmp := if p2.TTrue? then [] else [IJmp(|c2| + 1)];
      ChoicesTest(test, |c1| + |jmp| + 1, c1 + (jmp + c2), f1.cs, false);
      ChoicesJoin(c1, jmp + c2);
      ChoicesJoin(jmp, c2);
      OneChoice(IJmp(|c2| + 1));
      NoChoices();
    } else if opt && p2.TTrue? {
      CostExact(g, p1, true, NoGuard, FULLSET);
      ChoicesBefore(IPartialCommit(1), Gen(g, p1, true, NoGuard, FULLSET));
    } else {
      var test := GenTest(f1.cs, f1.e);
      var c1 := Gen(g, p1, p2.TTrue?, test, FULLSET);
      CostExact(g, p1, p2.TTrue?, test, FULLSET);
      CostExact(g, p2, opt, NoGuard, fl);
      var commit := [ICommit(|c2| + 1)] + c2;
      ChoicesTest(test, |c1| + 3, [IChoice(|c1| + 2)] + (c1 + commit), f1.cs, f1.e);
      ChoicesBefore(IChoice(|c1| + 2), c1 + commit);
      ChoicesJoin(c1, commit);
      ChoicesBefore(ICommit(|c2| + 1), c2);
    }
  }

  lemma ExpectedChoice(g: Rules, p1: Tree, p2: Tree, opt: bool, fl: Charset)
    ensures Expected(g, TChoice(p1, p2), opt, fl) ==
            if ChoiceByTest(g, p1, p2, fl) then
              Plus(Cost(if p2.TTrue? then 1 else 2, 0), Plus(Expected(g, p1, false, fl), Expected(g, p2, opt, fl)))
            else if opt && p2.TTrue? then Plus(Cost(1, 0), Expected(g, p1, true, FULLSET))
            else
              Plus(Cost(TestSize(FirstOf(g, p1, FULLSET).e) + 2, 1),
                   Plus(Expected(g, p1, p2.TTrue?, FULLSET), Expected(g, p2, opt, fl)))
  {
    hide Getfirst, FirstOf, Headfailx, Headfail, Fixedlenx, Fixedlen, HasCaptures, Checkaux, Needfollow, FollowOf, Disjoint,
      ChoiceByTest, LoopByTest, AndByBehind, CaptureFull, Plus, TestSize;
  }

  lemma ExpectedRep(g: Rules, p: Tree, opt: bool, fl: Charset)
    ensures Expected(g, TRep(p), opt, fl) ==
            if IsCharset(p) then Cost(1, 0)
            else if LoopByTest(g, p, fl) then Plus(Cost(2, 0), Expected(g, p, opt, FULLSET))
            else Plus(Cost(TestSize(FirstOf(g, p, FULLSET).e) + 2, if opt then 0 else 1), Expected(g, p, false, FULLSET))
  {
    hide Getfirst, FirstOf, Headfailx, Headfail, Fixedlenx, Fixedlen, HasCaptures, Checkaux, Needfollow, FollowOf, Disjoint,
      ChoiceByTest, LoopByTest, AndByBehind, CaptureFull, Plus, TestSize;
  }

  lemma {:induction false} RepCost(g: Rules, t: Tree, opt: bool, tt: Guard, fl: Charset)
    requires t.TRep?
    ensures Costs(Gen(g, t, opt, tt, fl), Expected(g, t, opt, fl))
    decreases t, 1, 0
  {
    hide Choices, Gen, Expected, FirstOf, LoopByTest, GenTest;
    var p := t.body;
    var f := FirstOf(g, p, FULLSET);
    GenUnfold(g, t, opt, tt, fl);
    ExpectedRep(g, p, opt, fl);
    if IsCharset(p) {
      OneChoice(ISpan(ToCharset(p)));
    } else if LoopByTest(g, p, fl) {
      var test := GenTest(f.cs, false);
      var c := Gen(g, p, opt, test, FULLSET);
      CostExact(g, p, opt, test, FULLSET);
      ChoicesTest(test, |c| + 2, c + [IJmp(-(|c| + 1))], f.cs, false);
      ChoicesBehind(c, IJmp(-(|c| + 1)));
    } else {
      var c := Gen(g, p, false, NoGuard, FULLSET);
      var first := if opt then IPartialCommit(1) else IChoice(|c| + 2);
      CostExact(g, p, false, NoGuard, FULLSET);
      ChoicesTest(GenTest(f.cs, f.e), |c| + 3, [first] + (c + [IPartialCommit(-|c|)]), f.cs, f.e);
      ChoicesBefore(first, c + [IPartialCommit(-|c|)]);
      ChoicesBehind(c, IPartialCommit(-|c|));
    }
  }

  lemma NoChoiceThere(cs: Charset, tt: Guard)
    ensures !GenCharset(cs, tt).IChoice? && forall c :: !GenChar(c, tt).IChoice?
  {
  }

  lemma {:induction false} NotCost(g: Rules, t: Tree, opt: bool, tt: Guard, fl: Charset)
    requires t.TNot?
    ensures Costs(Gen(g, t, opt, tt, fl), Expected(g, t, opt, fl))
    decreases t, 1, 0
  {
    hide Choices, Gen, FirstOf, Headfail, GenTest, AndByBehind, Fixedlen, ChoiceByTest, LoopByTest, CaptureFull, FollowOf;
    GenUnfold(g, t, opt, tt, fl);
    var p := t.body;
    var f := FirstOf(g, p, FULLSET);
    var test := GenTest(f.cs, f.e);
    var c := Gen(g, p, false, NoGuard, FULLSET);
    CostExact(g, p, false, NoGuard, FULLSET);
    if Headfail(g, p) {
      ChoicesTest(test, 2, [IFail], f.cs, f.e);
      OneChoice(IFail);
    } else {
      ChoicesTest(test, |c| + 3, [IChoice(|c| + 2)] + (c + [IFailTwice]), f.cs, f.e);
      ChoicesBefore(IChoice(|c| + 2), c + [IFailTwice]);
      ChoicesBehind(c, IFailTwice);
    }
  }

  lemma {:induction false} AndCost(g: Rules, t: Tree, opt: bool, tt: Guard, fl: Charset)
    requires t.TAnd?
    ensures Costs(Gen(g, t, opt, tt, fl), Expected(g, t, opt, fl))
    decreases t, 1, 0
  {
    hide Choices, Gen, FirstOf, Headfail, GenTest, Fixedlenx, HasCaptures, ChoiceByTest, LoopByTest, CaptureFull, FollowOf;
    GenUnfold(g, t, opt, tt, fl);
    var p := t.body;
    var c := Gen(g, p, false, tt, FULLSET);
    CostExact(g, p, false, tt, FULLSET);
    if AndByBehind(g, p) {
      var n: nat := Fixedlen(g, p);
      if n > 0 {
        ChoicesBehind(c, IBehind(n));
      } else {
        assert c + [] == c;
      }
    } else {
      var end := [IBackCommit(2)] + [IFail];
      ChoicesBefore(IChoice(|c| + 2), c + end);
      ChoicesJoin(c, end);
      ChoicesBefore(IBackCommit(2), [IFail]);
      OneChoice(IFail);
    }
  }

  lemma {:induction false} BehindCost(g: Rules, t: Tree, opt: bool, tt: Guard, fl: Charset)
    requires t.TBehind?
    ensures Costs(Gen(g, t, opt, tt, fl), Expected(g, t, opt, fl))
    decreases t, 1, 0
  {
    hide Choices, Gen, FirstOf, Headfail, GenTest, AndByBehind, Fixedlen, ChoiceByTest, LoopByTest, CaptureFull, FollowOf;
    GenUnfold(g, t, opt, tt, fl);
    var c := Gen(g, t.body, false, NoGuard, FULLSET);
    CostExact(g, t.body, false, NoGuard, FULLSET);
    ChoicesBefore(IBehind(t.back), c);
    assert [] + c == c;
  }

  lemma ExpectedSeq(g: Rules, p1: Tree, p2: Tree, opt: bool, fl: Charset)
    ensures Expected(g, TSeq(p1, p2), opt, fl) == Plus(Expected(g, p1, false, FollowOf(g, p1, p2, fl)), Expected(g, p2, opt, fl))
  {
    hide Getfirst, FirstOf, Headfailx, Headfail, Fixedlenx, Fixedlen, HasCaptures, Checkaux, Needfollow, FollowOf, Disjoint,
      ChoiceByTest, LoopByTest, AndByBehind, CaptureFull, Plus, TestSize;
  }

  lemma {:induction false} SeqCost(g: Rules, t: Tree, opt: bool, tt: Guard, fl: Charset)
    requires t.TSeq?
    ensures Costs(Gen(g, t, opt, tt, fl), Expected(g, t, opt, fl))
    decreases t, 1, 0
  {
    hide Choices, Gen, Expected, FollowOf, GuardOfSecond;
    var (p1, p2) := (t.first, t.second);
    GenUnfold(g, t, opt, tt, fl);
    ExpectedSeq(g, p1, p2, opt, fl);
    CostExact(g, p1, false, tt, FollowOf(g, p1, p2, fl));
    CostExact(g, p2, opt, GuardOfSecond(g, p1, tt), fl);
    ChoicesJoin(Gen(g, p1, false, tt, FollowOf(g, p1, p2, fl)), Gen(g, p2, opt, GuardOfSecond(g, p1, tt), fl));
  }

  lemma {:induction false} CaptureCost(g: Rules, t: Tree, opt: bool, tt: Guard, fl: Charset)
    requires t.TCapture?
    ensures Costs(Gen(g, t, opt, tt, fl), Expected(g, t, opt, fl))
    decreases t, 1, 0
  {
    hide Choices, Gen, FollowOf, ChoiceByTest, LoopByTest, AndByBehind, FirstOf, Headfail, Fixedlenx, HasCaptures;
    GenUnfold(g, t, opt, tt, fl);
    var p := t.body;
    var c := Gen(g, p, false, tt, fl);
    CostExact(g, p, false, tt, fl);
    if CaptureFull(g, p) {
      var len: nat := Fixedlen(g, p);
      ChoicesBehind(c, IFullCapture(t.kind, t.key, len));
    } else {
      ChoicesBefore(IOpenCapture(t.kind, t.key), c + [ICloseCapture]);
      ChoicesBehind(c, ICloseCapture);
    }
  }

  lemma {:induction false} LeafCost(g: Rules, t: Tree, opt: bool, tt: Guard, fl: Charset)
    requires IsCharset(t) || t.TTrue? || t.TFalse? || t.TCall?
    ensures Costs(Gen(g, t, opt, tt, fl), Expected(g, t, opt, fl))
  {
    hide Choices, GenChar, GenCharset, ChoiceByTest, LoopByTest, AndByBehind, CaptureFull, FirstOf, Headfail, Fixedlen, FollowOf;
    NoChoices();
    OneChoice(IAny);
    OneChoice(IFail);
    match t
    case TChar(c) => OneChoice(GenChar(c, tt)); NoChoiceThere({c}, tt);
    case TSet(cs) => OneChoice(GenCharset(cs, tt)); NoChoiceThere(cs, tt);
    case TCall(k) => OneChoice(IOpenCall(0, k));
    case _ =>
  }

  /** The code of every pattern has exactly the expected size and number of choices, whatever test dominates it. */
  lemma {:induction false} CostExact(g: Rules, t: Tree, opt: bool, tt: Guard, fl: Charset)
    ensures Costs(Gen(g, t, opt, tt, fl), Expected(g, t, opt, fl))
    decreases t, 1, 1
  {
    hide Costs, Gen, Expected;
    match t
    case TSeq(_, _) => SeqCost(g, t, opt, tt, fl);
    case TChoice(_, _) => ChoiceCost(g, t, opt, tt, fl);
    case TRep(_) => RepCost(g, t, opt, tt, fl);
    case TNot(_) => NotCost(g, t, opt, tt, fl);
    case TAnd(_) => AndCost(g, t, opt, tt, fl);
    case TBehind(_, _) => BehindCost(g, t, opt, tt, fl);
    case TCapture(_, _, _) => CaptureCost(g, t, opt, tt, fl);
    case TGrammar(_) => GrammarCost(t, g, opt, tt, fl);
    case _ => LeafCost(g, t, opt, tt, fl);
  }

  lemma {:induction false} RulesCost(t: Tree, k: nat)
    requires t.TGrammar? && k <= |t.rules|
    ensures Costs(GenRules(t, k), ExpectedRules(t, k))
    decreases t, 0, k
  {
    hide Choices, Gen, Expected;
    if k == 0 {
      NoChoices();
    } else {
      var c := Gen(t.rules, t.rules[k - 1], false, NoGuard, FULLSET);
      RulesCost(t, k - 1);
      CostExact(t.rules, t.rules[k - 1], false, NoGuard, FULLSET);
      ChoicesJoin(GenRules(t, k - 1), RuleCode(c));
      ChoicesBehind(c, IRet);
    }
  }

  lemma {:induction false} GrammarCost(t: Tree, g: Rules, opt: bool, tt: Guard, fl: Charset)
    requires t.TGrammar?
    ensures Costs(Gen(g, t, opt, tt, fl), Expected(g, t, opt, fl))
    decreases t, 1, 0
  {
    hide Choices, GenRules, RulePositions, CorrectCalls, JumpsToReturn, ExpectedRules, Gen, FirstOf, ChoiceByTest;
    GenUnfold(g, t, opt, tt, fl);
    var raw, pos := GenRules(t, |t.rules|), RulePositions(t);
    var r := CorrectCalls(raw, pos, 0);
    RulesCost(t, |t.rules|);
    CorrectCallsDone(raw, pos, 0);
    forall j | 0 <= j < |raw| ensures raw[j].IChoice? <==> r[j].IChoice? {
      assert Closed(raw, pos, 0, r, j);
    }
    SameCost(raw, r);
    var head := [ICall(2), IJmp(|raw| + 1)];
    assert head == [ICall(2)] + [IJmp(|raw| + 1)];
    ChoicesJoin(head, r);
    ChoicesBefore(ICall(2), [IJmp(|raw| + 1)]);
    OneChoice(IJmp(|raw| + 1));
  }

  lemma {:induction false} SameCost(a: seq<Instr>, b: seq<Instr>)
    requires |a| == |b| && forall j :: 0 <= j < |a| ==> (a[j].IChoice? <==> b[j].IChoice?)
    ensures Choices(a) == Choices(b)
    decreases |a|
  {
    if a != [] {
      SameCost(a[1..], b[1..]);
    }
  }

  // ---------- Tail calls ----------

  /** A call with nothing but jumps between it and a return becomes a jump. */
  lemma {:induction false} TailCallsJump(code: seq<Instr>, pos: seq<nat>, i: nat, j: nat)
    requires i <= j < |code| && code[j].IOpenCall? && code[j].rule < |pos| && Returns(code, j + 1)
    ensures CorrectCalls(code, pos, i)[j] == IJmp(pos[code[j].rule] - j)
    decreases |code| - i
  {
    hide FinalTarget;
    if code[i].IOpenCall? && code[i].rule < |pos| {
      var off := pos[code[i].rule] - i;
      var next := code[i := if Returns(code, i + 1) then IJmp(off) else ICall(off)];
      if i < j {
        SameChain(code, next, j + 1, |code|);
        TailCallsJump(next, pos, i + 1, j);
      } else {
        CorrectCallsDone(next, pos, i + 1);
        assert Closed(next, pos, i + 1, CorrectCalls(next, pos, i + 1), j);
      }
    } else {
      TailCallsJump(code, pos, i + 1, j);
    }
  }

  lemma {:induction false} SameChain(code: seq<Instr>, next: seq<Instr>, i: int, n: nat)
    requires |code| == |next| && forall j :: 0 <= j < |code| && !code[j].IOpenCall? ==> next[j] == code[j]
    requires var ft := FinalTarget(code, i, n); 0 <= ft < |code| && code[ft].IRet?
    ensures FinalTarget(next, i, n) == FinalTarget(code, i, n)
    decreases n
  {
    if 0 <= i < |code| && code[i].IJmp? && n > 0 {
      SameChain(code, next, i + code[i].off, n - 1);
    }
  }
}
