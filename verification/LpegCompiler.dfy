/** The compiler as it runs: code is appended, offsets are filled in later, and jumps are then tidied in place. */
module LpegCompiler {
  import opened LpegTree
  import opened LpegAnalysis
  import opened LpegMachine
  import opened LpegCode
  import opened LpegPremise
  import opened LpegPlace
  import opened LpegPeephole
  import opened LpegVerify
  import opened LpegTidy
  import opened LpegTheorem

  /** Signals that there is no instruction. */
  const NOINST := -1

  /** The test at `tt`, as it stands in `code`. */
  function GuardAt(code: seq<Instr>, tt: int): Guard
    requires tt < |code|
  {
    if tt < 0 then NoGuard else Guarded(code[tt])
  }

  /** A test that may still lack its offset. */
  ghost predicate TestAt(code: seq<Instr>, i: int, test: Guard)
  {
    NOINST <= i < |code| && GuardAt(code, i) == test
  }

  class CompileState {
    /** The code so far; its length is the position of the next instruction. */
    var code: seq<Instr>

    constructor ()
      ensures code == []
    {
      code := [];
    }

    method AddInstruction(i: Instr) returns (pos: int)
      modifies this
      ensures code == old(code) + [i] && pos == |old(code)|
    {
      pos := |code|;
      code := code + [i];
    }

    method SetOffset(instruction: nat, offset: int)
      requires instruction < |code| && HasLabel(code[instruction])
      modifies this
      ensures code == old(code)[instruction := WithOff(old(code)[instruction], offset)]
    {
      code := code[instruction := WithOff(code[instruction], offset)];
    }

    method JumpToThere(instruction: int, target: int)
      requires instruction < |code| && (instruction >= 0 ==> HasLabel(code[instruction]))
      modifies this
      ensures instruction < 0 ==> code == old(code)
      ensures instruction >= 0 ==>
                code == old(code)[instruction := WithOff(old(code)[instruction], target - instruction)]
    {
      if instruction >= 0 {
        SetOffset(instruction, target - instruction);
      }
    }

    method JumpToHere(instruction: int)
      requires instruction < |code| && (instruction >= 0 ==> HasLabel(code[instruction]))
      modifies this
      ensures instruction < 0 ==> code == old(code)
      ensures instruction >= 0 ==>
                code == old(code)[instruction := WithOff(old(code)[instruction], |old(code)| - instruction)]
    {
      JumpToThere(instruction, |code|);
    }

    method CodeChar(c: Byte, tt: int)
      requires NOINST <= tt < |code|
      modifies this
      ensures code == old(code) + [GenChar(c, GuardAt(old(code), tt))]
    {
      if tt >= 0 && code[tt].ITestChar? && code[tt].c == c {
        var _ := AddInstruction(IAny);
      } else {
        var _ := AddInstruction(IChar(c));
      }
    }

    method CodeCharset(cs: Charset, tt: int)
      requires NOINST <= tt < |code|
      modifies this
      ensures code == old(code) + [GenCharset(cs, GuardAt(old(code), tt))]
    {
      var op := CharsetType(cs);
      if op.IChar? {
        CodeChar(op.c, tt);
      } else if op.ISet? && tt >= 0 && code[tt].ITestSet? && code[tt].cs == cs {
        var _ := AddInstruction(IAny);
      } else {
        var _ := AddInstruction(op);
      }
    }

    method CodeTestset(cs: Charset, e: bool) returns (i: int)
      modifies this
      ensures e ==> i == NOINST && code == old(code)
      ensures !e ==> i == |old(code)| && code == old(code) + [GenTest(cs, e).test]
      ensures TestAt(code, i, GenTest(cs, e))
    {
      if e {
        i := NOINST;
      } else {
        var op := CharsetType(cs);
        if op.IFail? {
          i := AddInstruction(IJmp(0));
        } else if op.IAny? {
          i := AddInstruction(ITestAny(0));
        } else if op.IChar? {
          i := AddInstruction(ITestChar(0, op.c));
        } else {
          i := AddInstruction(ITestSet(0, cs));
        }
      }
    }

    /** Follow jumps in the code to their end. */
    method FinalTargetOf(i: nat) returns (ft: nat)
      requires Settles(code, i)
      ensures ft == Final(code, i) && NoJump(code, ft)
    {
      hide FinalTarget;
      SettlesSoon(code, i);
      ft := i;
      while code[ft].IJmp?
        invariant Settles(code, ft) && ft < |code| && NoJump(code, Final(code, ft))
        invariant Final(code, ft) == Final(code, i)
        decreases ChainLength(code, ft, |code|)
      {
        FinalNext(code, ft);
        SettlesSoon(code, ft + code[ft].off);
        ChainShorter(code, ft, ft + code[ft].off);
        ft := ft + code[ft].off;
      }
      FinalFixed(code, ft);
    }

    method CodeChoice(g: Rules, p1: Tree, p2: Tree, opt: bool, fl: Charset)
      requires WellFormed(g, p1) && WellFormed(g, p2) && GrammarsLoaded(p1) && GrammarsLoaded(p2)
      modifies this
      ensures code == old(code) + Gen(g, TChoice(p1, p2), opt, NoGuard, fl)
      decreases TChoice(p1, p2), 0
    {
      hide Gen, FirstOf, Headfail, WellFormed, GrammarsLoaded, GenTest, ChoiceTestCode, ChoiceFullCode;
      GenUnfold(g, TChoice(p1, p2), opt, NoGuard, fl);
      var f1 := FirstOf(g, p1, FULLSET);
      if Headfail(g, p1) || (!f1.e && Disjoint(f1.cs, FirstOf(g, p2, fl).cs)) {
        CodeChoiceTest(g, p1, p2, opt, fl, f1.cs);
      } else if opt && p2.TTrue? {
        ghost var was := code;
        var commit := AddInstruction(IPartialCommit(0));
        JumpToHere(commit);
        assert code == was + [IPartialCommit(1)];
        Codegen(g, p1, true, NOINST, FULLSET);
      } else {
        CodeChoiceFull(g, p1, p2, opt, fl, f1);
      }
    }

    /** A choice that its test decides. */
    method CodeChoiceTest(g: Rules, p1: Tree, p2: Tree, opt: bool, fl: Charset, cs: Charset)
      requires WellFormed(g, p1) && WellFormed(g, p2) && GrammarsLoaded(p1) && GrammarsLoaded(p2)
      modifies this
      ensures var test := GenTest(cs, false);
              var c1, c2 := Gen(g, p1, false, test, fl), Gen(g, p2, opt, NoGuard, fl);
              code == old(code) + ChoiceTestCode(test, c1, c2, p2.TTrue?)
      decreases TChoice(p1, p2), -1
    {
      hide Gen, WellFormed, GrammarsLoaded, GenTest, TestCode;
      ghost var was, tt := code, GenTest(cs, false);
      var emptyp2 := p2.TTrue?;
      var jmp := NOINST;
      var test := CodeTestset(cs, false);
      ghost var c1, c2 := Gen(g, p1, false, tt, fl), Gen(g, p2, opt, NoGuard, fl);
      Codegen(g, p1, false, test, fl);
      if !emptyp2 {
        jmp := AddInstruction(IJmp(0));
      }
      ghost var gap := if emptyp2 then [] else [IJmp(0)];
      TestOver(test, was, tt, c1 + gap);
      ghost var pre := was + TestCode(tt, |c1| + |gap| + 1) + c1;
      assert code == pre + gap;
      Codegen(g, p2, opt, NOINST, fl);
      if emptyp2 {
        GenUnfold(g, p2, opt, NoGuard, fl);
        JumpToHere(jmp);
        assert code == pre + ([] + c2);
      } else {
        JumpOver(jmp, pre, IJmp(0), c2);
      }
    }

    /** A choice with a pending alternative. */
    method CodeChoiceFull(g: Rules, p1: Tree, p2: Tree, opt: bool, fl: Charset, f1: First)
      requires WellFormed(g, p1) && WellFormed(g, p2) && GrammarsLoaded(p1) && GrammarsLoaded(p2)
      modifies this
      ensures var test := GenTest(f1.cs, f1.e);
              var c1, c2 := Gen(g, p1, p2.TTrue?, test, FULLSET), Gen(g, p2, opt, NoGuard, fl);
              code == old(code) + ChoiceFullCode(test, c1, c2)
      decreases TChoice(p1, p2), -1
    {
      hide Gen, WellFormed, GrammarsLoaded, GenTest, TestCode, GuardAt;
      ghost var was, tt := code, GenTest(f1.cs, f1.e);
      var emptyp2 := p2.TTrue?;
      var test := CodeTestset(f1.cs, f1.e);
      ghost var head := code;
      var pchoice := AddInstruction(IChoice(0));
      GuardKept(head, [IChoice(0)], test);
      ghost var c1, c2 := Gen(g, p1, emptyp2, tt, FULLSET), Gen(g, p2, opt, NoGuard, fl);
      Codegen(g, p1, emptyp2, test, FULLSET);
      var pcommit := AddInstruction(ICommit(0));
      JumpOver(pchoice, head, IChoice(0), c1 + [ICommit(0)]);
      ghost var rest := [IChoice(|c1| + 2)] + (c1 + [ICommit(0)]);
      TestOver(test, was, tt, rest);
      ghost var pre := was + TestCode(tt, |c1| + 3) + [IChoice(|c1| + 2)] + c1;
      assert code == pre + [ICommit(0)];
      NoGuardAt(code);
      Codegen(g, p2, opt, NOINST, fl);
      JumpOver(pcommit, pre, ICommit(0), c2);
      FiveJoined(was, TestCode(tt, |c1| + 3), [IChoice(|c1| + 2)], c1, [ICommit(|c2| + 1)] + c2);
    }

    /** Let the instruction between `pre` and `rest` jump to here. */
    method JumpOver(i: nat, ghost pre: seq<Instr>, ghost ins: Instr, ghost rest: seq<Instr>)
      requires code == pre + [ins] + rest && i == |pre| && HasLabel(ins)
      modifies this
      ensures code == pre + ([WithOff(ins, |rest| + 1)] + rest)
    {
      Patched(pre, ins, rest, |rest| + 1);
      JumpToHere(i);
    }

    /** Let the test before `rest`, if there is one, jump to here. */
    method TestOver(i: int, ghost was: seq<Instr>, ghost tt: Guard, ghost rest: seq<Instr>)
      requires tt.Guarded? ==> HasLabel(tt.test) && i == |was| && code == was + [tt.test] + rest
      requires tt.NoGuard? ==> i == NOINST && code == was + rest
      modifies this
      ensures code == was + (TestCode(tt, |rest| + 1) + rest) && |code| == |old(code)|
    {
      if tt.Guarded? {
        Patched(was, tt.test, rest, |rest| + 1);
      }
      JumpToHere(i);
    }

    method CodeRep(g: Rules, p: Tree, opt: bool, fl: Charset)
      requires WellFormed(g, p) && GrammarsLoaded(p)
      modifies this
      ensures code == old(code) + Gen(g, TRep(p), opt, NoGuard, fl)
      decreases TRep(p), 0
    {
      hide Gen, FirstOf, Headfail, WellFormed, GrammarsLoaded, GenTest, LoopTestCode, LoopCode;
      GenUnfold(g, TRep(p), opt, NoGuard, fl);
      if IsCharset(p) {
        var _ := AddInstruction(ISpan(ToCharset(p)));
      } else {
        var f := FirstOf(g, p, FULLSET);
        if Headfail(g, p) || (!f.e && Disjoint(f.cs, fl)) {
          CodeLoopTest(g, p, opt, f.cs);
        } else {
          CodeLoop(g, p, opt, f);
        }
      }
    }

    /** A loop that its test ends. */
    method CodeLoopTest(g: Rules, p: Tree, opt: bool, cs: Charset)
      requires WellFormed(g, p) && GrammarsLoaded(p)
      modifies this
      ensures var test := GenTest(cs, false);
              code == old(code) + LoopTestCode(test, Gen(g, p, opt, test, FULLSET))
      decreases TRep(p), -1
    {
      hide Gen, WellFormed, GrammarsLoaded, GenTest, TestCode;
      ghost var was, tt := code, GenTest(cs, false);
      var test := CodeTestset(cs, false);
      ghost var c := Gen(g, p, opt, tt, FULLSET);
      Codegen(g, p, opt, test, FULLSET);
      var jmp := AddInstruction(IJmp(0));
      TestOver(test, was, tt, c + [IJmp(0)]);
      ghost var pre := was + TestCode(tt, |c| + 2) + c;
      assert code == pre + [IJmp(0)];
      JumpBack(jmp, test, pre, IJmp(0));
    }

    /** A loop with a pending alternative. */
    method CodeLoop(g: Rules, p: Tree, opt: bool, f: First)
      requires WellFormed(g, p) && GrammarsLoaded(p)
      modifies this
      ensures code == old(code) + LoopCode(GenTest(f.cs, f.e), Gen(g, p, false, NoGuard, FULLSET), opt)
      decreases TRep(p), -1
    {
      hide Gen, WellFormed, GrammarsLoaded, GenTest, TestCode;
      ghost var was, tt := code, GenTest(f.cs, f.e);
      ghost var c := Gen(g, p, false, NoGuard, FULLSET);
      var test := CodeTestset(f.cs, f.e);
      ghost var head := code;
      var pchoice := NOINST;
      if opt {
        var partial := AddInstruction(IPartialCommit(0));
        assert code == head + [IPartialCommit(0)] + [];
        JumpOver(partial, head, IPartialCommit(0), []);
      } else {
        pchoice := AddInstruction(IChoice(0));
      }
      ghost var first := if opt then IPartialCommit(1) else IChoice(0);
      assert code == head + [first];
      var l2 := |code|;
      Codegen(g, p, false, NOINST, FULLSET);
      var commit := AddInstruction(IPartialCommit(0));
      ghost var rest := c + [IPartialCommit(-|c|)];
      JumpBack(commit, l2, head + [first] + c, IPartialCommit(0));
      assert code == head + [first] + rest;
      ghost var last := if opt then IPartialCommit(1) else IChoice(|c| + 2);
      if opt {
        JumpToHere(pchoice);
      } else {
        JumpOver(pchoice, head, first, rest);
      }
      TestOver(test, was, tt, [last] + rest);
    }

    /** Let the last instruction jump back to `target`. */
    method JumpBack(i: nat, target: nat, ghost pre: seq<Instr>, ghost ins: Instr)
      requires code == pre + [ins] && i == |pre| && HasLabel(ins)
      modifies this
      ensures code == pre + [WithOff(ins, target - |pre|)]
    {
      JumpToThere(i, target);
    }

    method CodeNot(g: Rules, p: Tree)
      requires WellFormed(g, p) && GrammarsLoaded(p)
      modifies this
      ensures code == old(code) + Gen(g, TNot(p), false, NoGuard, FULLSET)
      decreases TNot(p), 0
    {
      hide Gen, FirstOf, Headfail, WellFormed, GrammarsLoaded, GenTest, TestCode;
      ghost var was := code;
      GenUnfold(g, TNot(p), false, NoGuard, FULLSET);
      var f := FirstOf(g, p, FULLSET);
      var test := CodeTestset(f.cs, f.e);
      ghost var head, tt := code, GenTest(f.cs, f.e);
      if Headfail(g, p) {
        var _ := AddInstruction(IFail);
        TestOver(test, was, tt, [IFail]);
      } else {
        ghost var c := Gen(g, p, false, NoGuard, FULLSET);
        var pchoice := AddInstruction(IChoice(0));
        Codegen(g, p, false, NOINST, FULLSET);
        var _ := AddInstruction(IFailTwice);
        JumpOver(pchoice, head, IChoice(0), c + [IFailTwice]);
        TestOver(test, was, tt, [IChoice(|c| + 2)] + (c + [IFailTwice]));
      }
    }

    method CodeAnd(g: Rules, p: Tree, tt: int)
      requires WellFormed(g, p) && GrammarsLoaded(p) && NOINST <= tt < |code|
      modifies this
      ensures code == old(code) + Gen(g, TAnd(p), false, GuardAt(old(code), tt), FULLSET)
      decreases TAnd(p), 0
    {
      hide Gen, WellFormed, GrammarsLoaded, Fixedlenx, HasCaptures, GuardAt;
      ghost var was, guard := code, GuardAt(code, tt);
      GenAnd(g, p, guard);
      ghost var c := Gen(g, p, false, guard, FULLSET);
      var n := Fixedlen(g, p);
      if 0 <= n <= MAXBEHIND && !HasCaptures(p) {
        Codegen(g, p, false, tt, FULLSET);
        if n > 0 {
          var _ := AddInstruction(IBehind(n));
        }
      } else {
        var pchoice := AddInstruction(IChoice(0));
        GuardKept(was, [IChoice(0)], tt);
        Codegen(g, p, false, tt, FULLSET);
        var pcommit := AddInstruction(IBackCommit(0));
        JumpOver(pchoice, was, IChoice(0), c + [IBackCommit(0)]);
        ghost var pre := was + [IChoice(|c| + 2)] + c;
        assert code == pre + [IBackCommit(0)];
        var _ := AddInstruction(IFail);
        JumpOver(pcommit, pre, IBackCommit(0), [IFail]);
        assert code == was + AndCode(c);
      }
    }

    method CodeCapture(g: Rules, t: Tree, tt: int, fl: Charset)
      requires t.TCapture? && WellFormed(g, t.body) && GrammarsLoaded(t.body) && NOINST <= tt < |code|
      modifies this
      ensures code == old(code) + Gen(g, t, false, GuardAt(old(code), tt), fl)
      decreases t, 0
    {
      hide Gen, WellFormed, GrammarsLoaded, Fixedlenx, HasCaptures, GuardAt;
      ghost var was, guard := code, GuardAt(code, tt);
      GenCapture(g, t, guard, fl);
      ghost var c := Gen(g, t.body, false, guard, fl);
      var len := Fixedlen(g, t.body);
      if 0 <= len <= MAXOFF && !HasCaptures(t.body) {
        Codegen(g, t.body, false, tt, fl);
        var _ := AddInstruction(IFullCapture(t.kind, t.key, len));
        assert code == was + CaptureFullCode(t.kind, t.key, len, c);
      } else {
        var _ := AddInstruction(IOpenCapture(t.kind, t.key));
        GuardKept(was, [IOpenCapture(t.kind, t.key)], tt);
        Codegen(g, t.body, false, tt, fl);
        var _ := AddInstruction(ICloseCapture);
        assert code == was + CaptureCode(t.kind, t.key, c);
      }
    }

    /** Code the first pattern of a sequence; the result is the test that still protects the second. */
    method CodeSeq1(g: Rules, p1: Tree, p2: Tree, tt: int, fl: Charset) returns (tt2: int)
      requires WellFormed(g, p1) && GrammarsLoaded(p1) && NOINST <= tt < |code|
      modifies this
      ensures code == old(code) + Gen(g, p1, false, GuardAt(old(code), tt), FollowOf(g, p1, p2, fl))
      ensures NOINST <= tt2 < |code| && GuardAt(code, tt2) == GuardOfSecond(g, p1, GuardAt(old(code), tt))
      decreases p1, 2
    {
      hide Gen, FirstOf;
      if Needfollow(p1) {
        Codegen(g, p1, false, tt, FirstOf(g, p2, fl).cs);
      } else {
        Codegen(g, p1, false, tt, FULLSET);
      }
      if Fixedlen(g, p1) != 0 {
        tt2 := NOINST;
      } else {
        tt2 := tt;
      }
    }

    /** Dispatch on the kind of tree; the second pattern of a sequence is coded in place. */
    method Codegen(g: Rules, t: Tree, opt: bool, tt: int, fl: Charset)
      requires WellFormed(g, t) && GrammarsLoaded(t) && NOINST <= tt < |code|
      modifies this
      ensures code == old(code) + Gen(g, t, opt, GuardAt(old(code), tt), fl)
      decreases t, 1
    {
      hide Gen, WellFormed, GrammarsLoaded, FirstOf, GenTest, Needfollow, Headfail, Fixedlenx, HasCaptures;
      ghost var was, guard := code, GuardAt(code, tt);
      PartsOf(g, t);
      GenUnfold(g, t, opt, guard, fl);
      match t
      case TSeq(p1, p2) =>
        var tt2 := CodeSeq1(g, p1, p2, tt, fl);
        Codegen(g, p2, opt, tt2, fl);
        assert code == was + SeqCode(Gen(g, p1, false, guard, FollowOf(g, p1, p2, fl)),
                                     Gen(g, p2, opt, GuardOfSecond(g, p1, guard), fl));
      case TTrue =>
      case TChoice(p1, p2) => GenNeedsNoGuard(g, t, opt, guard, fl); CodeChoice(g, p1, p2, opt, fl);
      case TRep(p) => GenNeedsNoGuard(g, t, opt, guard, fl); CodeRep(g, p, opt, fl);
      case TNot(p) => GenNeedsNoGuard(g, t, opt, guard, fl); CodeNot(g, p);
      case TAnd(p) => GenNeedsNoGuard(g, t, opt, guard, fl); CodeAnd(g, p, tt);
      case TBehind(n, p) =>
        if n > 0 {
          var _ := AddInstruction(IBehind(n));
        }
        Codegen(g, p, false, NOINST, FULLSET);
      case TCapture(_, _, p) => GenNeedsNoGuard(g, t, opt, guard, fl); CodeCapture(g, t, tt, fl);
      case TGrammar(rules) => CodeGrammar(g, t, opt, guard, fl);
      case TChar(c) => GenLeaf(g, t, opt, guard, fl); CodeChar(c, tt);
      case TAny => GenLeaf(g, t, opt, guard, fl); var _ := AddInstruction(IAny);
      case TSet(cs) => GenLeaf(g, t, opt, guard, fl); CodeCharset(cs, tt);
      case TFalse => GenLeaf(g, t, opt, guard, fl); var _ := AddInstruction(IFail);
      case TCall(k) => GenLeaf(g, t, opt, guard, fl); var _ := AddInstruction(IOpenCall(0, k));
    }

    /** The call of the first rule, the jump over the rules, and the rules with their returns. */
    method CodeGrammar(g: Rules, t: Tree, ghost opt: bool, ghost guard: Guard, ghost fl: Charset)
      requires t.TGrammar? && WellFormed(g, t) && GrammarsLoaded(t)
      modifies this
      ensures code == old(code) + Gen(g, t, opt, guard, fl)
      decreases t, 0
    {
      hide Gen, WellFormed, GrammarsLoaded, GenRules, CorrectCalls;
      ghost var was := code;
      GenUnfold(g, t, opt, guard, fl);
      GrammarFacts(g, t);
      RuleStarts(t);
      var positions: seq<nat> := [];
      var firstcall := AddInstruction(ICall(0));
      var jumptoend := AddInstruction(IJmp(0));
      var start := |code|;
      JumpToHere(firstcall);
      assert code == was + [ICall(2)] + [IJmp(0)];
      NoRules(t);
      for i := 0 to |t.rules|
        invariant code == was + [ICall(2)] + [IJmp(0)] + GenRules(t, i)
        invariant |positions| == i && forall k :: 0 <= k < i ==> positions[k] == start + |GenRules(t, k)|
      {
        positions := positions + [|code|];
        RuleFacts(t, i);
        Codegen(t.rules, t.rules[i], false, NOINST, FULLSET);
        var _ := AddInstruction(IRet);
        NextRule(t, i);
      }
      JumpToHere(jumptoend);
      ghost var raw := GenRules(t, |t.rules|);
      assert code == was + [ICall(2)] + [IJmp(|raw| + 1)] + raw;
      CloseCalls(positions, start, t);
    }

    /** Turn open calls into calls, or into jumps where only a return follows. */
    method CloseCalls(positions: seq<nat>, from: nat, ghost t: Tree)
      requires t.TGrammar? && WellFormed([], t) && GrammarsLoaded(t)
      requires from <= |code| && code[from..] == GenRules(t, |t.rules|)
      requires |positions| == |t.rules| && forall k :: 0 <= k < |positions| ==> positions[k] == from + RulePositions(t)[k]
      modifies this
      ensures code == old(code)[..from] + CorrectCalls(old(code)[from..], RulePositions(t), 0)
    {
      hide Gen, WellFormed, GrammarsLoaded, GenRules, CorrectCalls, Settles, FinalTarget;
      ghost var pre, rel := code[..from], RulePositions(t);
      ghost var raw := GenRules(t, |t.rules|);
      ghost var r := CorrectCalls(raw, rel, 0);
      ghost var inter := raw;
      RulesCallsBelow(t, |t.rules|);
      var i := from;
      while i < |code|
        invariant from <= i <= |code| && |inter| == |raw| && code == pre + inter
        invariant CorrectCalls(inter, rel, i - from) == r
        invariant forall j :: i - from <= j < |inter| ==> inter[j] == raw[j]
        decreases |code| - i
      {
        UnfoldCorrect(inter, rel, i - from);
        if code[i].IOpenCall? {
          var rule := positions[code[i].rule];
          BehindCallSettles(t, inter, i - from);
          ShiftFinal(pre, inter, i + 1 - from);
          var ft := FinalTargetOf(i + 1);
          if code[ft].IRet? {
            code := code[i := IJmp(0)];
            inter := inter[i - from := IJmp(rule - i)];
          } else {
            code := code[i := ICall(0)];
            inter := inter[i - from := ICall(rule - i)];
          }
          JumpToThere(i, rule);
          assert code == pre + inter;
        }
        i := i + 1;
      }
      DoneCorrect(inter, rel, i - from);
    }

    /** Optimize jumps and jump-like instructions in place. */
    method Peephole()
      requires Tidy(code)
      modifies this
      ensures SameBehaviour(old(code), code) && SameDepth(old(code), code)
      ensures |code| == |old(code)| && forall j :: 0 <= j < |code| ==> Threaded(code, j)
    {
      hide Tidy, SameBehaviour, SameDepth, Settles, FinalTarget, Threaded;
      SameRefl(code);
      var i := 0;
      while i < |code|
        invariant 0 <= i <= |code| && Tidy(code) && SameBehaviour(old(code), code) && SameDepth(old(code), code)
        invariant |code| == |old(code)| && forall j :: 0 <= j < i ==> Threaded(code, j)
        decreases |code| - i, if i < |code| && code[i].IJmp? then 1 else 0
      {
        ghost var was := code;
        RewritePreserves(code, i);
        RewriteKeepsDepth(code, i);
        RewriteTidy(code, i);
        VisitThreads(code, i);
        forall j | 0 <= j < i ensures Threaded(Rewritten(code, i), j) {
          ThreadedKept(code, i, j);
        }
        SameBehaviourTrans(old(code), code, Rewritten(code, i));
        SameDepthTrans(old(code), code, Rewritten(code, i));
        var again := false;
        var ins := code[i];
        if ins.IChoice? || ins.ICall? || ins.ICommit? || ins.IPartialCommit? || ins.IBackCommit? || ins.ITestChar? ||
           ins.ITestSet? || ins.ITestAny? {
          RelabelAt(i);
        } else if ins.IJmp? {
          again := JumpAt(i);
        } else {
          NotRewritten(code, i);
        }
        assert code == Rewritten(was, i) && |code| == |was|;
        if !again {
          i := i + 1;
        }
      }
    }

    /** A jump becomes what it leads to; the result says whether it has a label to optimize once more. */
    method JumpAt(i: nat) returns (again: bool)
      requires i < |code| && code[i].IJmp? && Tidy(code)
      modifies this
      ensures code == Rewritten(old(code), i) && |code| == |old(code)| && (again <==> CopyableLabel(code[i]))
    {
      hide Settles, FinalTarget, Tidy;
      again := false;
      LabelSettles(code, i);
      SettlesBack(code, i);
      var ft := FinalTargetOf(i);
      var target := code[ft];
      if target.IRet? || target.IFail? || target.IFailTwice? || target.IEnd? {
        code := code[i := target];
      } else if target.ICommit? || target.IPartialCommit? || target.IBackCommit? {
        CopyCommit(i, ft);
        again := true;
      } else {
        JumpToThere(i, ft);
      }
    }

    /** Let the label of instruction `i` lead to its final destination. */
    method RelabelAt(i: nat)
      requires i < |code| && HasLabel(code[i]) && !code[i].IJmp? && !code[i].IOpenCall? && Tidy(code)
      modifies this
      ensures code == Rewritten(old(code), i)
    {
      hide Settles, FinalTarget;
      SettlesSoon(code, i + code[i].off);
      var ft := FinalTargetOf(i + code[i].off);
      JumpToThere(i, ft);
    }

    /** A jump to a commit becomes that commit. */
    method CopyCommit(i: nat, ft: nat)
      requires i < |code| && code[i].IJmp? && ft < |code| && CopyableLabel(code[ft]) && ft == Final(code, i) && Tidy(code)
      modifies this
      ensures code == Rewritten(old(code), i)
    {
      hide Settles, FinalTarget;
      SettlesSoon(code, ft + code[ft].off);
      var fft := FinalTargetOf(ft + code[ft].off);
      code := code[i := code[ft]];
      JumpToThere(i, fft);
    }
  }

  // ---------- Lemmas for the methods ----------

  /** Filling in the label of an instruction that is followed by `rest`. */
  lemma Patched(was: seq<Instr>, i: Instr, rest: seq<Instr>, off: int)
    requires HasLabel(i)
    ensures (was + [i] + rest)[|was| := WithOff(i, off)] == was + [WithOff(i, off)] + rest
    ensures |was + [i] + rest| == |was| + 1 + |rest| && (was + [i] + rest)[|was|] == i
  {
  }

  lemma NoGuardAt(code: seq<Instr>)
    ensures GuardAt(code, NOINST) == NoGuard
  {
  }

  lemma GuardKept(was: seq<Instr>, more: seq<Instr>, tt: int)
    requires tt < |was|
    ensures GuardAt(was + more, tt) == GuardAt(was, tt)
  {
  }

  lemma GenAnd(g: Rules, p: Tree, tt: Guard)
    ensures var c := Gen(g, p, false, tt, FULLSET);
            Gen(g, TAnd(p), false, tt, FULLSET) ==
            if AndByBehind(g, p) then AndBehindCode(c, Fixedlen(g, p)) else AndCode(c)
  {
    hide Gen;
    GenUnfold(g, TAnd(p), false, tt, FULLSET);
  }

  lemma GenCapture(g: Rules, t: Tree, tt: Guard, fl: Charset)
    requires t.TCapture?
    ensures var c := Gen(g, t.body, false, tt, fl);
            Gen(g, t, false, tt, fl) ==
            if CaptureFull(g, t.body) then CaptureFullCode(t.kind, t.key, Fixedlen(g, t.body), c)
            else CaptureCode(t.kind, t.key, c)
  {
    hide Gen;
    GenUnfold(g, t, false, tt, fl);
  }

  lemma GenNeedsNoGuard(g: Rules, t: Tree, opt: bool, tt: Guard, fl: Charset)
    ensures t.TChoice? || t.TRep? ==> Gen(g, t, opt, tt, fl) == Gen(g, t, opt, NoGuard, fl)
    ensures t.TNot? ==> Gen(g, t, opt, tt, fl) == Gen(g, t, false, NoGuard, FULLSET)
    ensures t.TAnd? ==> Gen(g, t, opt, tt, fl) == Gen(g, t, false, tt, FULLSET)
    ensures t.TCapture? ==> Gen(g, t, opt, tt, fl) == Gen(g, t, false, tt, fl)
  {
    hide FirstOf, ChoiceByTest, LoopByTest, GenTest, Headfail, Fixedlenx, HasCaptures;
  }

  lemma GenLeaf(g: Rules, t: Tree, opt: bool, tt: Guard, fl: Charset)
    ensures t.TChar? ==> Gen(g, t, opt, tt, fl) == [GenChar(t.c, tt)]
    ensures t.TAny? ==> Gen(g, t, opt, tt, fl) == [IAny]
    ensures t.TSet? ==> Gen(g, t, opt, tt, fl) == [GenCharset(t.cs, tt)]
    ensures t.TFalse? ==> Gen(g, t, opt, tt, fl) == [IFail]
    ensures t.TCall? ==> Gen(g, t, opt, tt, fl) == [IOpenCall(0, t.rule)]
  {
    hide CharsetType;
  }

  lemma NoRules(t: Tree)
    requires t.TGrammar?
    ensures GenRules(t, 0) == []
  {
  }

  lemma NextRule(t: Tree, i: nat)
    requires t.TGrammar? && i < |t.rules|
    ensures GenRules(t, i + 1) == GenRules(t, i) + (Gen(t.rules, t.rules[i], false, NoGuard, FULLSET) + [IRet])
  {
    hide Gen;
  }

  lemma RuleFacts(t: Tree, i: nat)
    requires t.TGrammar? && i < |t.rules| && RulesWellFormed(t.rules) && RulesLoaded(t.rules)
    ensures WellFormed(t.rules, t.rules[i]) && GrammarsLoaded(t.rules[i])
  {
  }

  lemma UnfoldCorrect(code: seq<Instr>, pos: seq<nat>, i: nat)
    requires i < |code|
    ensures CorrectCalls(code, pos, i) ==
            if code[i].IOpenCall? && code[i].rule < |pos| then
              var off := pos[code[i].rule] - i;
              CorrectCalls(code[i := if Returns(code, i + 1) then IJmp(off) else ICall(off)], pos, i + 1)
            else CorrectCalls(code, pos, i + 1)
  {
    hide FinalTarget;
  }

  lemma DoneCorrect(code: seq<Instr>, pos: seq<nat>, i: nat)
    requires i >= |code|
    ensures CorrectCalls(code, pos, i) == code
  {
  }

  /** While calls are being closed, the jumps behind an open call end. */
  lemma BehindCallSettles(t: Tree, inter: seq<Instr>, i: nat)
    requires t.TGrammar? && WellFormed([], t) && GrammarsLoaded(t)
    requires i < |inter| == |GenRules(t, |t.rules|)|
    requires CorrectCalls(inter, RulePositions(t), i) == CorrectCalls(GenRules(t, |t.rules|), RulePositions(t), 0)
    requires inter[i].IOpenCall? && inter[i] == GenRules(t, |t.rules|)[i]
    ensures Settles(inter, i + 1)
  {
    hide Gen, WellFormed, GrammarsLoaded, GenRules, CorrectCalls, Settles, FinalTarget, RulesPlaced, RangeTidy, RulePositions;
    var raw, rel := GenRules(t, |t.rules|), RulePositions(t);
    var r := CorrectCalls(raw, rel, 0);
    var y := RawPlaced(t);
    GrammarFacts([], t);
    RulesDoSettle(y);
    RulesTidy(y, t, 0, |t.rules|);
    RawEndsInRet(t);
    assert i + 1 < |raw|;
    InRange(r, 0, |raw|, i + 1);
    CorrectCallsDone(inter, rel, i);
    forall j | 0 <= j < |r| ensures inter[j] == r[j] || inter[j].IOpenCall? {
      assert Closed(inter, rel, i, r, j);
    }
    PartlyClosedSettles(r, inter, i + 1);
  }

  lemma InRange(code: seq<Instr>, a: nat, b: nat, i: nat)
    requires RangeTidy(code, a, b) && a <= i < b && i < |code|
    ensures Settles(code, i)
  {
  }

  lemma RawEndsInRet(t: Tree)
    requires t.TGrammar? && t.rules != []
    ensures var raw := GenRules(t, |t.rules|); raw != [] && raw[|raw| - 1].IRet?
  {
    hide Gen;
  }

  /** Calls that are still open only cut chains short. */
  lemma PartlyClosedSettles(r: seq<Instr>, inter: seq<Instr>, i: nat)
    requires |r| == |inter| && forall j :: 0 <= j < |r| ==> inter[j] == r[j] || inter[j].IOpenCall?
    requires Settles(r, i)
    ensures Settles(inter, i)
  {
    hide FinalTarget;
    var n: nat :| NoJump(r, FinalTarget(r, i, n));
    PartlyClosedChain(r, inter, i, n);
  }

  lemma {:induction false} PartlyClosedChain(r: seq<Instr>, inter: seq<Instr>, i: int, n: nat)
    requires |r| == |inter| && forall j :: 0 <= j < |r| ==> inter[j] == r[j] || inter[j].IOpenCall?
    requires NoJump(r, FinalTarget(r, i, n))
    ensures Settles(inter, i)
    decreases n
  {
    hide Settles;
    if 0 <= i < |r| && inter[i].IJmp? && n > 0 {
      PartlyClosedChain(r, inter, i + r[i].off, n - 1);
      SettlesBack(inter, i);
    } else {
      FinalFixed(inter, i);
    }
  }

  /** The chain looked up in the whole code is the chain in the rules alone. */
  lemma ShiftFinal(pre: seq<Instr>, inter: seq<Instr>, i: nat)
    requires Settles(inter, i)
    ensures Settles(pre + inter, |pre| + i)
    ensures Final(pre + inter, |pre| + i) == |pre| + Final(inter, i) && NoJump(inter, Final(inter, i))
  {
    hide FinalTarget;
    SettlesSoon(inter, i);
    ShiftChain(pre, inter, i, |inter|);
    ChainExact(pre + inter, |pre| + i, |inter|, |pre + inter|);
  }

  lemma {:induction false} ShiftChain(pre: seq<Instr>, inter: seq<Instr>, i: int, n: nat)
    requires NoJump(inter, FinalTarget(inter, i, n))
    ensures FinalTarget(pre + inter, |pre| + i, n) == |pre| + FinalTarget(inter, i, n)
    ensures NoJump(pre + inter, FinalTarget(pre + inter, |pre| + i, n))
    decreases n
  {
    if 0 <= i < |inter| {
      assert (pre + inter)[|pre| + i] == inter[i];
    }
    if 0 <= i < |inter| && inter[i].IJmp? && n > 0 {
      ShiftChain(pre, inter, i + inter[i].off, n - 1);
    } else {
      assert (pre + inter)[|pre| + i] == inter[i];
    }
  }

  lemma FiveJoined(a: seq<Instr>, b: seq<Instr>, c: seq<Instr>, d: seq<Instr>, e: seq<Instr>)
    ensures a + b + c + d + e == a + (b + (c + (d + e)))
  {
  }

  lemma SameRefl(code: seq<Instr>)
    ensures SameBehaviour(code, code) && SameDepth(code, code)
  {
    hide Ends, Exceeds;
  }

  lemma LabelSettles(code: seq<Instr>, i: nat)
    requires Tidy(code) && i < |code| && HasLabel(code[i])
    ensures Settles(code, i + code[i].off)
  {
  }

  lemma NotRewritten(code: seq<Instr>, i: nat)
    requires i < |code| && (!HasLabel(code[i]) || code[i].IOpenCall?)
    ensures Rewritten(code, i) == code
  {
  }

  /** Compile a pattern: generate, end, and optimize. */
  method Compile(t: Tree) returns (code: seq<Instr>)
    requires WellFormed([], t) && GrammarsLoaded(t)
    ensures SameBehaviour(Program(t), code) && SameDepth(Program(t), code)
    ensures |code| == |Program(t)| && forall j :: 0 <= j < |code| ==> Threaded(code, j)
  {
    hide Threaded, Gen, WellFormed, GrammarsLoaded, SameBehaviour, SameDepth;
    var state := new CompileState();
    state.Codegen([], t, false, NOINST, FULLSET);
    var _ := state.AddInstruction(IEnd);
    assert state.code == Program(t);
    ProgramTidy(t);
    state.Peephole();
    code := state.code;
  }
}
