/** Where the code of a pattern stands in a program, and how the calls of a grammar are closed. */
module LpegPlace {
  import opened LpegTree
  import opened LpegAnalysis
  import opened LpegMachine
  import opened LpegCode
  import opened LpegPremise

  // ---------- Code in place ----------

  /** A machine whose code holds rule `k` of `g` at `pos[k]`. */
  datatype Site = Site(m: Machine, g: Rules, pos: seq<nat>)

  /** Control that reaches `i` returns after some jumps. */
  ghost predicate JumpsToReturn(code: seq<Instr>, i: int)
  {
    exists n: nat :: var ft := FinalTarget(code, i, n); 0 <= ft < |code| && code[ft].IRet?
  }

  /** Instruction `j` of the finished code is `i`, with an open call closed as a call or a tail call. */
  ghost predicate Resolved(x: Site, j: nat, i: Instr)
    requires j < |x.m.code|
  {
    if i.IOpenCall? then
      && i.rule < |x.pos|
      && (|| x.m.code[j] == ICall(x.pos[i.rule] - j)
          || (x.m.code[j] == IJmp(x.pos[i.rule] - j) && JumpsToReturn(x.m.code, j + 1)))
    else x.m.code[j] == i
  }

  ghost predicate Placed(x: Site, a: nat, c: seq<Instr>)
  {
    a + |c| <= |x.m.code| && forall j :: 0 <= j < |c| ==> Resolved(x, a + j, c[j])
  }

  lemma PlacedSplit(x: Site, a: nat, c1: seq<Instr>, c2: seq<Instr>)
    requires Placed(x, a, c1 + c2)
    ensures Placed(x, a, c1) && Placed(x, a + |c1|, c2)
  {
    forall j | 0 <= j < |c1| ensures Resolved(x, a + j, c1[j]) {
      assert (c1 + c2)[j] == c1[j];
    }
    forall j | 0 <= j < |c2| ensures Resolved(x, a + |c1| + j, c2[j]) {
      assert (c1 + c2)[|c1| + j] == c2[j];
    }
  }

  lemma PlacedOne(x: Site, a: nat, i: Instr)
    requires Placed(x, a, [i])
    ensures a < |x.m.code| && Resolved(x, a, i)
    ensures !i.IOpenCall? ==> x.m.code[a] == i
  {
    assert Resolved(x, a + 0, [i][0]);
  }

  ghost predicate RulesPlaced(x: Site)
  {
    |x.pos| == |x.g| &&
    forall k :: 0 <= k < |x.g| ==> Placed(x, x.pos[k], RuleCode(Gen(x.g, x.g[k], false, NoGuard, FULLSET)))
  }

  // ---------- The parts of each layout ----------

  lemma ChoiceTestPlaced(x: Site, t: Tree, opt: bool, tt: Guard, fl: Charset, a: nat)
    requires t.TChoice? && ChoiceByTest(x.g, t.first, t.second, fl)
    requires Placed(x, a, Gen(x.g, t, opt, tt, fl))
    ensures var f1 := FirstOf(x.g, t.first, FULLSET);
            var test := GenTest(f1.cs, false);
            var c1, c2 := Gen(x.g, t.first, false, test, fl), Gen(x.g, t.second, opt, NoGuard, fl);
            var jmp := if t.second.TTrue? then [] else [IJmp(|c2| + 1)];
            && |Gen(x.g, t, opt, tt, fl)| == 1 + |c1| + |jmp| + |c2|
            && (t.second.TTrue? ==> c2 == [])
            && Placed(x, a, TestCode(test, |c1| + |jmp| + 1))
            && Placed(x, a + 1, c1)
            && Placed(x, a + 1 + |c1|, jmp)
            && Placed(x, a + 1 + |c1| + |jmp|, c2)
  {
    hide Gen, Placed, GenTest, FirstOf, Headfail, Fixedlenx, HasCaptures;
    GenUnfold(x.g, t, opt, tt, fl);
    var f1 := FirstOf(x.g, t.first, FULLSET);
    var test := GenTest(f1.cs, false);
    var c1, c2 := Gen(x.g, t.first, false, test, fl), Gen(x.g, t.second, opt, NoGuard, fl);
    if t.second.TTrue? { GenUnfold(x.g, t.second, opt, NoGuard, fl); }
    var jmp := if t.second.TTrue? then [] else [IJmp(|c2| + 1)];
    var tc := TestCode(test, |c1| + |jmp| + 1);
    PlacedSplit(x, a, tc, c1 + (jmp + c2));
    PlacedSplit(x, a + 1, c1, jmp + c2);
    PlacedSplit(x, a + 1 + |c1|, jmp, c2);
  }

  lemma ChoiceOptPlaced(x: Site, t: Tree, tt: Guard, fl: Charset, a: nat)
    requires t.TChoice? && !ChoiceByTest(x.g, t.first, t.second, fl) && t.second.TTrue?
    requires Placed(x, a, Gen(x.g, t, true, tt, fl))
    ensures var c1 := Gen(x.g, t.first, true, NoGuard, FULLSET);
            && |Gen(x.g, t, true, tt, fl)| == 1 + |c1|
            && Placed(x, a, [IPartialCommit(1)])
            && Placed(x, a + 1, c1)
  {
    hide Gen, Placed, GenTest, FirstOf, Headfail, Fixedlenx, HasCaptures;
    GenUnfold(x.g, t, true, tt, fl);
    PlacedSplit(x, a, [IPartialCommit(1)], Gen(x.g, t.first, true, NoGuard, FULLSET));
  }

  lemma ChoiceFullPlaced(x: Site, t: Tree, opt: bool, tt: Guard, fl: Charset, a: nat)
    requires t.TChoice? && !ChoiceByTest(x.g, t.first, t.second, fl) && !(opt && t.second.TTrue?)
    requires Placed(x, a, Gen(x.g, t, opt, tt, fl))
    ensures var f1 := FirstOf(x.g, t.first, FULLSET);
            var test := GenTest(f1.cs, f1.e);
            var c1, c2 := Gen(x.g, t.first, t.second.TTrue?, test, FULLSET), Gen(x.g, t.second, opt, NoGuard, fl);
            var tc := TestCode(test, |c1| + 3);
            var a1 := a + |tc|;
            && |Gen(x.g, t, opt, tt, fl)| == |tc| + 1 + |c1| + 1 + |c2|
            && (t.second.TTrue? ==> c2 == [])
            && Placed(x, a, tc)
            && Placed(x, a1, [IChoice(|c1| + 2)])
            && Placed(x, a1 + 1, c1)
            && Placed(x, a1 + 1 + |c1|, [ICommit(|c2| + 1)])
            && Placed(x, a1 + 2 + |c1|, c2)
  {
    hide Gen, Placed, GenTest, FirstOf, Headfail, Fixedlenx, HasCaptures;
    GenUnfold(x.g, t, opt, tt, fl);
    if t.second.TTrue? { GenUnfold(x.g, t.second, opt, NoGuard, fl); }
    var f1 := FirstOf(x.g, t.first, FULLSET);
    var test := GenTest(f1.cs, f1.e);
    var c1, c2 := Gen(x.g, t.first, t.second.TTrue?, test, FULLSET), Gen(x.g, t.second, opt, NoGuard, fl);
    var tc := TestCode(test, |c1| + 3);
    PlacedSplit(x, a, tc, [IChoice(|c1| + 2)] + (c1 + ([ICommit(|c2| + 1)] + c2)));
    var a1 := a + |tc|;
    PlacedSplit(x, a1, [IChoice(|c1| + 2)], c1 + ([ICommit(|c2| + 1)] + c2));
    PlacedSplit(x, a1 + 1, c1, [ICommit(|c2| + 1)] + c2);
    PlacedSplit(x, a1 + 1 + |c1|, [ICommit(|c2| + 1)], c2);
  }

  lemma NotPlaced(x: Site, t: Tree, opt: bool, tt: Guard, fl: Charset, a: nat)
    requires t.TNot?
    requires Placed(x, a, Gen(x.g, t, opt, tt, fl))
    ensures var f := FirstOf(x.g, t.body, FULLSET);
            var test := GenTest(f.cs, f.e);
            var c := Gen(x.g, t.body, false, NoGuard, FULLSET);
            if Headfail(x.g, t.body) then
              && |Gen(x.g, t, opt, tt, fl)| == |TestCode(test, 2)| + 1
              && Placed(x, a, TestCode(test, 2))
              && Placed(x, a + |TestCode(test, 2)|, [IFail])
            else
              var a1 := a + |TestCode(test, |c| + 3)|;
              && |Gen(x.g, t, opt, tt, fl)| == a1 - a + 2 + |c|
              && Placed(x, a, TestCode(test, |c| + 3))
              && Placed(x, a1, [IChoice(|c| + 2)])
              && Placed(x, a1 + 1, c)
              && Placed(x, a1 + 1 + |c|, [IFailTwice])
  {
    hide Gen, Placed, GenTest, FirstOf, Headfail, Fixedlenx, HasCaptures;
    GenUnfold(x.g, t, opt, tt, fl);
    var f := FirstOf(x.g, t.body, FULLSET);
    var test := GenTest(f.cs, f.e);
    var c := Gen(x.g, t.body, false, NoGuard, FULLSET);
    if Headfail(x.g, t.body) {
      PlacedSplit(x, a, TestCode(test, 2), [IFail]);
    } else {
      var tc := TestCode(test, |c| + 3);
      PlacedSplit(x, a, tc, [IChoice(|c| + 2)] + (c + [IFailTwice]));
      PlacedSplit(x, a + |tc|, [IChoice(|c| + 2)], c + [IFailTwice]);
      PlacedSplit(x, a + |tc| + 1, c, [IFailTwice]);
    }
  }

  lemma AndPlaced(x: Site, t: Tree, opt: bool, tt: Guard, fl: Charset, a: nat)
    requires t.TAnd?
    requires Placed(x, a, Gen(x.g, t, opt, tt, fl))
    ensures var c := Gen(x.g, t.body, false, tt, FULLSET);
            if AndByBehind(x.g, t.body) then
              var n := Fixedlen(x.g, t.body);
              var back := if n > 0 then [IBehind(n)] else [];
              && |Gen(x.g, t, opt, tt, fl)| == |c| + |back|
              && Placed(x, a, c)
              && Placed(x, a + |c|, back)
            else
              && |Gen(x.g, t, opt, tt, fl)| == |c| + 3
              && Placed(x, a, [IChoice(|c| + 2)])
              && Placed(x, a + 1, c)
              && Placed(x, a + 1 + |c|, [IBackCommit(2)])
              && Placed(x, a + 2 + |c|, [IFail])
  {
    hide Gen, Placed, GenTest, FirstOf, Headfail, Fixedlenx, HasCaptures;
    GenUnfold(x.g, t, opt, tt, fl);
    var c := Gen(x.g, t.body, false, tt, FULLSET);
    if AndByBehind(x.g, t.body) {
      var n := Fixedlen(x.g, t.body);
      PlacedSplit(x, a, c, if n > 0 then [IBehind(n)] else []);
    } else {
      PlacedSplit(x, a, [IChoice(|c| + 2)], c + ([IBackCommit(2)] + [IFail]));
      PlacedSplit(x, a + 1, c, [IBackCommit(2)] + [IFail]);
      PlacedSplit(x, a + 1 + |c|, [IBackCommit(2)], [IFail]);
    }
  }

  lemma CapturePlaced(x: Site, t: Tree, opt: bool, tt: Guard, fl: Charset, a: nat)
    requires t.TCapture?
    requires Placed(x, a, Gen(x.g, t, opt, tt, fl))
    ensures var c := Gen(x.g, t.body, false, tt, fl);
            if CaptureFull(x.g, t.body) then
              && |Gen(x.g, t, opt, tt, fl)| == |c| + 1
              && Placed(x, a, c)
              && Placed(x, a + |c|, [IFullCapture(t.kind, t.key, Fixedlen(x.g, t.body))])
            else
              && |Gen(x.g, t, opt, tt, fl)| == |c| + 2
              && Placed(x, a, [IOpenCapture(t.kind, t.key)])
              && Placed(x, a + 1, c)
              && Placed(x, a + 1 + |c|, [ICloseCapture])
  {
    hide Gen, Placed, GenTest, FirstOf, Headfail, Fixedlenx, HasCaptures;
    GenUnfold(x.g, t, opt, tt, fl);
    var c := Gen(x.g, t.body, false, tt, fl);
    if CaptureFull(x.g, t.body) {
      PlacedSplit(x, a, c, [IFullCapture(t.kind, t.key, Fixedlen(x.g, t.body))]);
    } else {
      PlacedSplit(x, a, [IOpenCapture(t.kind, t.key)], c + [ICloseCapture]);
      PlacedSplit(x, a + 1, c, [ICloseCapture]);
    }
  }

  lemma RepPlaced(x: Site, t: Tree, opt: bool, tt: Guard, fl: Charset, a: nat)
    requires t.TRep? && !IsCharset(t.body)
    requires Placed(x, a, Gen(x.g, t, opt, tt, fl))
    ensures var f := FirstOf(x.g, t.body, FULLSET);
            if LoopByTest(x.g, t.body, fl) then
              var test := GenTest(f.cs, false);
              var c := Gen(x.g, t.body, opt, test, FULLSET);
              && |Gen(x.g, t, opt, tt, fl)| == |c| + 2
              && Placed(x, a, TestCode(test, |c| + 2))
              && Placed(x, a + 1, c)
              && Placed(x, a + 1 + |c|, [IJmp(-(|c| + 1))])
            else
              var test := GenTest(f.cs, f.e);
              var c := Gen(x.g, t.body, false, NoGuard, FULLSET);
              var tc := TestCode(test, |c| + 3);
              && |Gen(x.g, t, opt, tt, fl)| == |tc| + 2 + |c|
              && Placed(x, a, tc)
              && Placed(x, a + |tc|, [if opt then IPartialCommit(1) else IChoice(|c| + 2)])
              && Placed(x, a + |tc| + 1, c)
              && Placed(x, a + |tc| + 1 + |c|, [IPartialCommit(-|c|)])
  {
    hide Gen, Placed, GenTest, FirstOf, Headfail, Fixedlenx, HasCaptures;
    GenUnfold(x.g, t, opt, tt, fl);
    var f := FirstOf(x.g, t.body, FULLSET);
    if LoopByTest(x.g, t.body, fl) {
      var test := GenTest(f.cs, false);
      var c := Gen(x.g, t.body, opt, test, FULLSET);
      PlacedSplit(x, a, TestCode(test, |c| + 2), c + [IJmp(-(|c| + 1))]);
      PlacedSplit(x, a + 1, c, [IJmp(-(|c| + 1))]);
    } else {
      var test := GenTest(f.cs, f.e);
      var c := Gen(x.g, t.body, false, NoGuard, FULLSET);
      var tc := TestCode(test, |c| + 3);
      var first := [if opt then IPartialCommit(1) else IChoice(|c| + 2)];
      PlacedSplit(x, a, tc, first + (c + [IPartialCommit(-|c|)]));
      PlacedSplit(x, a + |tc|, first, c + [IPartialCommit(-|c|)]);
      PlacedSplit(x, a + |tc| + 1, c, [IPartialCommit(-|c|)]);
    }
  }

  // ---------- Closing calls ----------

  /** Every open call names one of `n` rules. */
  ghost predicate CallsBelow(c: seq<Instr>, n: nat)
  {
    forall j :: 0 <= j < |c| && c[j].IOpenCall? ==> c[j].rule < n
  }

  /** How instruction `j` of `code` stands after the calls from `i` on were closed, giving `r`. */
  ghost predicate Closed(code: seq<Instr>, pos: seq<nat>, i: nat, r: seq<Instr>, j: nat)
    requires j < |code| == |r|
  {
    if i <= j && code[j].IOpenCall? && code[j].rule < |pos| then
      r[j] == ICall(pos[code[j].rule] - j) ||
      (r[j] == IJmp(pos[code[j].rule] - j) && JumpsToReturn(r, j + 1))
    else r[j] == code[j]
  }

  /** Closing the calls of a grammar settles every one of them and keeps the rest. */
  lemma {:induction false} CorrectCallsDone(code: seq<Instr>, pos: seq<nat>, i: nat)
    requires i <= |code|
    ensures forall j :: 0 <= j < |code| ==> Closed(code, pos, i, CorrectCalls(code, pos, i), j)
    decreases |code| - i
  {
    hide JumpsToReturn, Returns;
    if i < |code| {
      if code[i].IOpenCall? && code[i].rule < |pos| {
        var off := pos[code[i].rule] - i;
        var code1 := code[i := if Returns(code, i + 1) then IJmp(off) else ICall(off)];
        CorrectCallsDone(code1, pos, i + 1);
        var r := CorrectCalls(code1, pos, i + 1);
        forall j | 0 <= j < |code| ensures Closed(code, pos, i, r, j) {
          assert Closed(code1, pos, i + 1, r, j);
          if j == i && Returns(code, i + 1) {
            forall h | 0 <= h < |code| && !code[h].IOpenCall? ensures r[0 + h] == code[h] {
              assert Closed(code1, pos, i + 1, r, h);
            }
            ReturnsKept(code, r, i + 1);
          }
        }
      } else {
        CorrectCallsDone(code, pos, i + 1);
        var r := CorrectCalls(code, pos, i + 1);
        forall j | 0 <= j < |code| ensures Closed(code, pos, i, r, j) {
          assert Closed(code, pos, i + 1, r, j);
        }
      }
    }
  }

  lemma ReturnsKept(code: seq<Instr>, r: seq<Instr>, i: int)
    requires |code| == |r| && Returns(code, i)
    requires forall j :: 0 <= j < |code| && !code[j].IOpenCall? ==> r[0 + j] == code[j]
    ensures JumpsToReturn(r, i)
  {
    hide JumpsToReturn, FinalTarget;
    ChainKept(code, r, 0, i, |code|);
  }

  /** Code that agrees from `base` on except on open calls has the same chains to a return. */
  lemma {:induction false} ChainKept(code: seq<Instr>, r: seq<Instr>, base: nat, i: int, n: nat)
    requires base + |code| <= |r|
    requires forall j :: 0 <= j < |code| && !code[j].IOpenCall? ==> r[base + j] == code[j]
    requires var ft := FinalTarget(code, i, n); 0 <= ft < |code| && code[ft].IRet?
    ensures FinalTarget(r, base + i, n) == base + FinalTarget(code, i, n)
    ensures JumpsToReturn(r, base + i)
    decreases n
  {
    if 0 <= i < |code| && code[i].IJmp? && n > 0 {
      ChainKept(code, r, base, i + code[i].off, n - 1);
    } else {
      assert r[base + i].IRet?;
    }
    var ft := FinalTarget(r, base + i, n);
    assert 0 <= ft < |r| && r[ft].IRet?;
  }

  lemma CallsBelowAppend(a: seq<Instr>, b: seq<Instr>, n: nat)
    requires CallsBelow(a, n) && CallsBelow(b, n)
    ensures CallsBelow(a + b, n)
  {
  }

  lemma CallsBelowEmpty(n: nat)
    ensures CallsBelow([], n)
  {
  }

  lemma CallsBelowOne(i: Instr, n: nat)
    requires i.IOpenCall? ==> i.rule < n
    ensures CallsBelow([i], n)
  {
  }

  lemma CallsBelowTest(cs: Charset, e: bool, off: int, n: nat)
    ensures CallsBelow(TestCode(GenTest(cs, e), off), n)
  {
  }

  lemma LayoutCallsBelow(cs: Charset, e: bool, c1: seq<Instr>, c2: seq<Instr>, n: nat)
    requires CallsBelow(c1, n) && CallsBelow(c2, n)
    ensures CallsBelow(SeqCode(c1, c2), n)
    ensures !e ==> CallsBelow(ChoiceTestCode(GenTest(cs, e), c1, c2, true), n)
    ensures !e ==> CallsBelow(ChoiceTestCode(GenTest(cs, e), c1, c2, false), n)
    ensures CallsBelow(ChoiceOptCode(c1), n)
    ensures CallsBelow(ChoiceFullCode(GenTest(cs, e), c1, c2), n)
  {
    hide GenTest, CallsBelow, TestCode;
    CallsBelowOne(IJmp(|c2| + 1), n);
    CallsBelowOne(IPartialCommit(1), n);
    CallsBelowOne(IChoice(|c1| + 2), n);
    CallsBelowOne(ICommit(|c2| + 1), n);
    CallsBelowAppend(c1, c2, n);
    CallsBelowAppend([IJmp(|c2| + 1)], c2, n);
    CallsBelowAppend(c1, [IJmp(|c2| + 1)] + c2, n);
    CallsBelowTest(cs, e, |c1| + 1, n);
    CallsBelowTest(cs, e, |c1| + 2, n);
    CallsBelowTest(cs, e, |c1| + 3, n);
    CallsBelowAppend([IPartialCommit(1)], c1, n);
    CallsBelowAppend([ICommit(|c2| + 1)], c2, n);
    CallsBelowAppend(c1, [ICommit(|c2| + 1)] + c2, n);
    CallsBelowAppend([IChoice(|c1| + 2)], c1 + ([ICommit(|c2| + 1)] + c2), n);
    var test := GenTest(cs, e);
    CallsBelowAppend(TestCode(test, |c1| + 3), [IChoice(|c1| + 2)] + (c1 + ([ICommit(|c2| + 1)] + c2)), n);
    if !e {
      assert [] + c2 == c2;
      CallsBelowAppend(TestCode(test, |c1| + 1), c1 + c2, n);
      CallsBelowAppend(TestCode(test, |c1| + 2), c1 + ([IJmp(|c2| + 1)] + c2), n);
    }
  }

  lemma LoopCallsBelow(cs: Charset, e: bool, c: seq<Instr>, n: nat)
    requires CallsBelow(c, n)
    ensures !e ==> CallsBelow(LoopTestCode(GenTest(cs, e), c), n)
    ensures CallsBelow(LoopCode(GenTest(cs, e), c, true), n)
    ensures CallsBelow(LoopCode(GenTest(cs, e), c, false), n)
    ensures CallsBelow(NotCode(GenTest(cs, e), true, c), n)
    ensures CallsBelow(NotCode(GenTest(cs, e), false, c), n)
    ensures CallsBelow(AndCode(c), n)
  {
    hide GenTest;
    CallsBelowTest(cs, e, |c| + 2, n);
    CallsBelowTest(cs, e, |c| + 3, n);
    CallsBelowTest(cs, e, 2, n);
  }

  lemma {:induction false} GenCallsBelow(g: Rules, t: Tree, opt: bool, tt: Guard, fl: Charset)
    requires WellFormed(g, t)
    ensures CallsBelow(Gen(g, t, opt, tt, fl), |g|)
    decreases t
  {
    hide Gen, CallsBelow, ChoiceTestCode, ChoiceFullCode, ChoiceOptCode, LoopTestCode, LoopCode, NotCode, AndCode, GenTest,
      FirstOf, ChoiceByTest, LoopByTest, FollowOf, GuardOfSecond, SeqCode, Headfail, Fixedlenx, HasCaptures, GrammarCode;
    GenUnfold(g, t, opt, tt, fl);
    var n := |g|;
    match t
    case TSeq(p1, p2) =>
      GenCallsBelow(g, p1, false, tt, FollowOf(g, p1, p2, fl));
      GenCallsBelow(g, p2, opt, GuardOfSecond(g, p1, tt), fl);
      LayoutCallsBelow({}, true, Gen(g, p1, false, tt, FollowOf(g, p1, p2, fl)),
                       Gen(g, p2, opt, GuardOfSecond(g, p1, tt), fl), n);
    case TChoice(p1, p2) =>
      var f1 := FirstOf(g, p1, FULLSET);
      GenCallsBelow(g, p2, opt, NoGuard, fl);
      var c2 := Gen(g, p2, opt, NoGuard, fl);
      if ChoiceByTest(g, p1, p2, fl) {
        var test := GenTest(f1.cs, false);
        GenCallsBelow(g, p1, false, test, fl);
        LayoutCallsBelow(f1.cs, false, Gen(g, p1, false, test, fl), c2, n);
      } else if opt && p2.TTrue? {
        GenCallsBelow(g, p1, true, NoGuard, FULLSET);
        LayoutCallsBelow({}, true, Gen(g, p1, true, NoGuard, FULLSET), c2, n);
      } else {
        var test := GenTest(f1.cs, f1.e);
        GenCallsBelow(g, p1, p2.TTrue?, test, FULLSET);
        LayoutCallsBelow(f1.cs, f1.e, Gen(g, p1, p2.TTrue?, test, FULLSET), c2, n);
      }
    case TRep(p) =>
      var f := FirstOf(g, p, FULLSET);
      if !IsCharset(p) {
        if LoopByTest(g, p, fl) {
          var test := GenTest(f.cs, false);
          GenCallsBelow(g, p, opt, test, FULLSET);
          LoopCallsBelow(f.cs, false, Gen(g, p, opt, test, FULLSET), n);
        } else {
          GenCallsBelow(g, p, false, NoGuard, FULLSET);
          LoopCallsBelow(f.cs, f.e, Gen(g, p, false, NoGuard, FULLSET), n);
        }
      } else {
        CallsBelowOne(ISpan(ToCharset(p)), n);
      }
    case TNot(p) =>
      var f := FirstOf(g, p, FULLSET);
      GenCallsBelow(g, p, false, NoGuard, FULLSET);
      LoopCallsBelow(f.cs, f.e, Gen(g, p, false, NoGuard, FULLSET), n);
    case TAnd(p) =>
      GenCallsBelow(g, p, false, tt, FULLSET);
      var c := Gen(g, p, false, tt, FULLSET);
      LoopCallsBelow({}, true, c, n);
      if AndByBehind(g, p) && Fixedlen(g, p) > 0 {
        CallsBelowOne(IBehind(Fixedlen(g, p)), n);
        CallsBelowAppend(c, [IBehind(Fixedlen(g, p))], n);
      } else {
        assert c + [] == c;
      }
    case TBehind(k, p) =>
      GenCallsBelow(g, p, false, NoGuard, FULLSET);
      CallsBelowOne(IBehind(k), n);
      CallsBelowAppend([IBehind(k)], Gen(g, p, false, NoGuard, FULLSET), n);
    case TCapture(kind, key, p) =>
      GenCallsBelow(g, p, false, tt, fl);
      var c := Gen(g, p, false, tt, fl);
      if CaptureFull(g, p) {
        CallsBelowOne(IFullCapture(kind, key, Fixedlen(g, p)), n);
        CallsBelowAppend(c, [IFullCapture(kind, key, Fixedlen(g, p))], n);
      } else {
        CallsBelowOne(IOpenCapture(kind, key), n);
        CallsBelowOne(ICloseCapture, n);
        CallsBelowAppend(c, [ICloseCapture], n);
        CallsBelowAppend([IOpenCapture(kind, key)], c + [ICloseCapture], n);
      }
    case TGrammar(rules) => GrammarCallsBelow(t, n);
    case _ => LeafCallsBelow(g, t, opt, tt, fl);
  }

  lemma LeafCallsBelow(g: Rules, t: Tree, opt: bool, tt: Guard, fl: Charset)
    requires t.TChar? || t.TSet? || t.TAny? || t.TTrue? || t.TFalse? || (t.TCall? && t.rule < |g|)
    ensures CallsBelow(Gen(g, t, opt, tt, fl), |g|)
  {
    hide CharsetType;
  }

  lemma {:induction false} RulesCallsBelow(t: Tree, k: nat)
    requires t.TGrammar? && WellFormed([], t) && k <= |t.rules|
    ensures CallsBelow(GenRules(t, k), |t.rules|)
    decreases t, k
  {
    hide Gen, CallsBelow, HasCaptures;
    if k == 0 {
      CallsBelowEmpty(|t.rules|);
    } else {
      var c := Gen(t.rules, t.rules[k - 1], false, NoGuard, FULLSET);
      RulesCallsBelow(t, k - 1);
      GenCallsBelow(t.rules, t.rules[k - 1], false, NoGuard, FULLSET);
      CallsBelowOne(IRet, |t.rules|);
      CallsBelowAppend(c, [IRet], |t.rules|);
      CallsBelowAppend(GenRules(t, k - 1), RuleCode(c), |t.rules|);
    }
  }

  /** A grammar leaves no open call behind. */
  lemma GrammarCallsBelow(t: Tree, n: nat)
    requires t.TGrammar? && WellFormed([], t)
    ensures CallsBelow(GrammarCode(GenRules(t, |t.rules|), RulePositions(t)), n)
    decreases t, |t.rules| + 1
  {
    hide GenRules, WellFormed, CorrectCalls;
    var raw := GenRules(t, |t.rules|);
    RulesCallsBelow(t, |t.rules|);
    CorrectCallsDone(raw, RulePositions(t), 0);
    forall j | 0 <= j < |raw| ensures !CorrectCalls(raw, RulePositions(t), 0)[j].IOpenCall? {
      assert Closed(raw, RulePositions(t), 0, CorrectCalls(raw, RulePositions(t), 0), j);
    }
  }

  // ---------- A grammar in place ----------

  /** Rule `k` keeps its place while later rules are coded. */
  lemma {:induction false} RuleInRaw(t: Tree, k: nat, n: nat)
    requires t.TGrammar? && k < n <= |t.rules|
    ensures var c := RuleCode(Gen(t.rules, t.rules[k], false, NoGuard, FULLSET));
            var start := |GenRules(t, k)|;
            start + |c| <= |GenRules(t, n)| && GenRules(t, n)[start..start + |c|] == c
    decreases n
  {
    hide Gen, RuleCode;
    if k < n - 1 {
      RuleInRaw(t, k, n - 1);
    }
  }

  lemma GrammarPlaced(x: Site, a: nat, t: Tree, opt: bool, tt: Guard, fl: Charset) returns (y: Site)
    requires t.TGrammar? && WellFormed([], t) && Placed(x, a, Gen(x.g, t, opt, tt, fl))
    ensures y.m == x.m && y.g == t.rules && RulesPlaced(y) && y.pos[0] == a + 2
    ensures forall k :: 0 <= k < |t.rules| ==> y.pos[k] == a + 2 + |GenRules(t, k)|
    ensures var n := |GenRules(t, |t.rules|)|;
            |Gen(x.g, t, opt, tt, fl)| == n + 2 && a + 2 + n <= |x.m.code| &&
            x.m.code[a] == ICall(2) && x.m.code[a + 1] == IJmp(n + 1)
  {
    hide Gen, GenRules, RulePositions, RuleCode, FinalTarget, CorrectCalls;
    GenUnfold(x.g, t, opt, tt, fl);
    var raw, rel := GenRules(t, |t.rules|), RulePositions(t);
    var code := CorrectCalls(raw, rel, 0);
    PlacedSplit(x, a, [ICall(2), IJmp(|raw| + 1)], code);
    assert Resolved(x, a + 0, [ICall(2), IJmp(|raw| + 1)][0]);
    assert Resolved(x, a + 1, [ICall(2), IJmp(|raw| + 1)][1]);
    var pos := seq(|rel|, k requires 0 <= k < |rel| => a + 2 + rel[k]);
    y := Site(x.m, t.rules, pos);
    RulesCallsBelow(t, |t.rules|);
    CorrectCallsDone(raw, rel, 0);
    forall k | 0 <= k < |t.rules|
      ensures Placed(y, pos[k], RuleCode(Gen(t.rules, t.rules[k], false, NoGuard, FULLSET)))
    {
      RulePlaced(x, y, a + 2, t, k, raw, code);
    }
    RuleStarts(t);
  }

  lemma RuleStarts(t: Tree)
    requires t.TGrammar?
    ensures forall k :: 0 <= k < |t.rules| ==> RulePositions(t)[k] == |GenRules(t, k)|
    ensures t.rules != [] ==> RulePositions(t)[0] == 0
  {
    hide Gen;
  }

  lemma RulePlaced(x: Site, y: Site, base: nat, t: Tree, k: nat, raw: seq<Instr>, code: seq<Instr>)
    requires t.TGrammar? && k < |t.rules| && y.m == x.m && y.g == t.rules
    requires raw == GenRules(t, |t.rules|) && code == CorrectCalls(raw, RulePositions(t), 0)
    requires Placed(x, base, code) && CallsBelow(raw, |t.rules|)
    requires |y.pos| == |t.rules| && forall i :: 0 <= i < |y.pos| ==> y.pos[i] == base + RulePositions(t)[i]
    ensures Placed(y, y.pos[k], RuleCode(Gen(t.rules, t.rules[k], false, NoGuard, FULLSET)))
  {
    hide Gen, GenRules, RulePositions, FinalTarget, CorrectCalls, Placed, JumpsToReturn;
    var p := y.pos[k];
    var c := RuleCode(Gen(t.rules, t.rules[k], false, NoGuard, FULLSET));
    var rel := RulePositions(t);
    RuleInRaw(t, k, |t.rules|);
    RuleStarts(t);
    CorrectCallsDone(raw, rel, 0);
    forall j: nat | j < |c| ensures ResolvedAt(y, p, c, j) {
      var i := rel[k] + j;
      assert raw[i] == c[j] by { assert raw[rel[k]..rel[k] + |c|][j] == c[j]; }
      assert Closed(raw, rel, 0, code, i);
      CodeAt(x, base, code, i);
      if c[j].IOpenCall? && code[i].IJmp? {
        ReturnShift(x, base, code, i + 1);
      }
    }
    PlacedFrom(y, p, c);
  }

  ghost predicate ResolvedAt(x: Site, a: nat, c: seq<Instr>, j: nat)
    requires j < |c|
  {
    a + j < |x.m.code| && Resolved(x, a + j, c[j])
  }

  lemma PlacedFrom(x: Site, a: nat, c: seq<Instr>)
    requires c != [] && forall j: nat :: j < |c| ==> ResolvedAt(x, a, c, j)
    ensures Placed(x, a, c)
  {
    assert ResolvedAt(x, a, c, |c| - 1);
    forall j | 0 <= j < |c| ensures a + j < |x.m.code| && Resolved(x, a + j, c[j]) {
      assert ResolvedAt(x, a, c, j);
    }
  }

  lemma CodeAt(x: Site, a: nat, code: seq<Instr>, i: nat)
    requires Placed(x, a, code) && i < |code| && !code[i].IOpenCall?
    ensures a + i < |x.m.code| && x.m.code[a + i] == code[i]
  {
    assert Resolved(x, a + i, code[i]);
  }

  lemma ReturnShift(x: Site, a: nat, code: seq<Instr>, i: nat)
    requires Placed(x, a, code) && JumpsToReturn(code, i)
    ensures JumpsToReturn(x.m.code, a + i)
  {
    var n: nat :| var ft := FinalTarget(code, i, n); 0 <= ft < |code| && code[ft].IRet?;
    forall j | 0 <= j < |code| && !code[j].IOpenCall? ensures x.m.code[a + j] == code[j] {
      CodeAt(x, a, code, j);
    }
    ChainKept(code, x.m.code, a, i, n);
  }

  /** The rules of a grammar with their calls closed, standing alone. */
  lemma RawPlaced(t: Tree) returns (y: Site)
    requires t.TGrammar? && WellFormed([], t)
    ensures y == Site(Machine(CorrectCalls(GenRules(t, |t.rules|), RulePositions(t), 0), []), t.rules, RulePositions(t))
    ensures RulesPlaced(y)
    ensures forall k :: 0 <= k < |t.rules| ==> y.pos[k] == |GenRules(t, k)|
  {
    hide Gen, WellFormed, GenRules, RulePositions, RuleCode, FinalTarget, CorrectCalls;
    var raw, rel := GenRules(t, |t.rules|), RulePositions(t);
    var code := CorrectCalls(raw, rel, 0);
    var x := Site(Machine(code, []), [], []);
    y := Site(Machine(code, []), t.rules, rel);
    RulesCallsBelow(t, |t.rules|);
    CorrectCallsDone(raw, rel, 0);
    forall j | 0 <= j < |code| ensures !code[j].IOpenCall? {
      assert Closed(raw, rel, 0, code, j);
    }
    forall k | 0 <= k < |t.rules|
      ensures Placed(y, rel[k], RuleCode(Gen(t.rules, t.rules[k], false, NoGuard, FULLSET)))
    {
      RulePlaced(x, y, 0, t, k, raw, code);
    }
    RuleStarts(t);
  }
}
