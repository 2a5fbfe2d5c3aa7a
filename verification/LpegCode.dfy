/** The code of a pattern, as a function of the tree: what CompileState.Codegen appends. */
module LpegCode {
  import opened LpegTree
  import opened LpegAnalysis
  import opened LpegMachine

  /** The test instruction that dominates a piece of code, if any. */
  datatype Guard = NoGuard | Guarded(test: Instr)

  function Least(cs: Charset, from: nat): (c: Byte)
    requires from < 256 && exists c :: c in cs && from <= c
    ensures c in cs && from <= c && forall d :: d in cs && from <= d ==> c <= d
    decreases 256 - from
  {
    if from in cs then from else Least(cs, from + 1)
  }

  /** IFail for the empty set, IChar for a singleton, IAny for the full set, else ISet. */
  function CharsetType(cs: Charset): (i: Instr)
    ensures i == IFail || i.IChar? || i == IAny || i == ISet(cs)
    ensures i == IFail <==> cs == {}
    ensures i.IChar? <==> exists c :: cs == {c}
    ensures i.IChar? ==> cs == {i.c}
    ensures i == IAny <==> cs == FULLSET
  {
    assert (0 as Byte) in FULLSET;
    if cs == {} then IFail
    else
      var c := LeastOf(cs);
      if cs == {c} then
        assert FULLSET != {c} by { assert 0 in FULLSET && 1 in FULLSET; }
        IChar(c)
      else if cs == FULLSET then
        assert !exists d :: cs == {d} by { assert 0 in FULLSET && 1 in FULLSET; }
        IAny
      else ISet(cs)
  }

  function LeastOf(cs: Charset): (c: Byte)
    requires cs != {}
    ensures c in cs
  {
    assert exists c :: c in cs && 0 <= c;
    Least(cs, 0)
  }

  /** IAny stands in for a character test that a dominating test has already made. */
  function GenChar(c: Byte, tt: Guard): Instr
  {
    if tt.Guarded? && tt.test.ITestChar? && tt.test.c == c then IAny else IChar(c)
  }

  function GenCharset(cs: Charset, tt: Guard): Instr
  {
    match CharsetType(cs)
    case IChar(c) => GenChar(c, tt)
    case ISet(_) => if tt.Guarded? && tt.test.ITestSet? && tt.test.cs == cs then IAny else ISet(cs)
    case other => other
  }

  /** The test of a first set, to be given its label later; none if the empty subject may pass. */
  function GenTest(cs: Charset, e: bool): (g: Guard)
    ensures e <==> g.NoGuard?
    ensures g.Guarded? ==> HasLabel(g.test)
  {
    if e then NoGuard
    else
      match CharsetType(cs)
      case IFail => Guarded(IJmp(0))
      case IAny => Guarded(ITestAny(0))
      case IChar(c) => Guarded(ITestChar(0, c))
      case _ => Guarded(ITestSet(0, cs))
  }

  /** Give a label its offset. */
  function WithOff(i: Instr, off: int): Instr
    requires HasLabel(i)
  {
    i.(off := off)
  }

  /** The test, if there is one, jumping `off` instructions ahead. */
  function TestCode(tt: Guard, off: int): seq<Instr>
    requires tt.Guarded? ==> HasLabel(tt.test)
  {
    if tt.NoGuard? then [] else [WithOff(tt.test, off)]
  }

  predicate Disjoint(a: Charset, b: Charset) { a * b == {} }

  /** Does `p1 / p2` need no choice? */
  predicate ChoiceByTest(g: Rules, p1: Tree, p2: Tree, fl: Charset)
  {
    Headfail(g, p1) ||
    (!FirstOf(g, p1, FULLSET).e && Disjoint(FirstOf(g, p1, FULLSET).cs, FirstOf(g, p2, fl).cs))
  }

  /** Does a repetition of `p` need no choice? */
  predicate LoopByTest(g: Rules, p: Tree, fl: Charset)
  {
    Headfail(g, p) || (!FirstOf(g, p, FULLSET).e && Disjoint(FirstOf(g, p, FULLSET).cs, fl))
  }

  predicate AndByBehind(g: Rules, p: Tree)
  {
    0 <= Fixedlen(g, p) <= MAXBEHIND && !HasCaptures(p)
  }

  predicate CaptureFull(g: Rules, p: Tree)
  {
    0 <= Fixedlen(g, p) <= MAXOFF && !HasCaptures(p)
  }

  /** The follow set handed to the first pattern of a sequence. */
  function FollowOf(g: Rules, p1: Tree, p2: Tree, fl: Charset): Charset
  {
    if Needfollow(p1) then FirstOf(g, p2, fl).cs else FULLSET
  }

  function GuardOfSecond(g: Rules, p1: Tree, tt: Guard): Guard
  {
    if Fixedlen(g, p1) != 0 then NoGuard else tt
  }

  // ---------- Code layouts ----------

  /** p1 p2 */
  function SeqCode(c1: seq<Instr>, c2: seq<Instr>): seq<Instr> { c1 + c2 }

  /** The test leads past p1 and its jump to p2; the jump leads behind p2 and is left out if p2 is empty. */
  function ChoiceTestCode(test: Guard, c1: seq<Instr>, c2: seq<Instr>, emptyp2: bool): seq<Instr>
    requires test.Guarded? && HasLabel(test.test)
  {
    var jmp := if emptyp2 then [] else [IJmp(|c2| + 1)];
    TestCode(test, |c1| + |jmp| + 1) + (c1 + (jmp + c2))
  }

  /** The choice already on top is moved here. */
  function ChoiceOptCode(c1: seq<Instr>): seq<Instr> { [IPartialCommit(1)] + c1 }

  /** The test, if any, and the choice lead to p2; the commit after p1 leads behind it. */
  function ChoiceFullCode(test: Guard, c1: seq<Instr>, c2: seq<Instr>): seq<Instr>
    requires test.Guarded? ==> HasLabel(test.test)
  {
    TestCode(test, |c1| + 3) + ([IChoice(|c1| + 2)] + (c1 + ([ICommit(|c2| + 1)] + c2)))
  }

  /** The test leads out of the loop, the jump back to the test. */
  function LoopTestCode(test: Guard, c: seq<Instr>): seq<Instr>
    requires test.Guarded? && HasLabel(test.test)
  {
    TestCode(test, |c| + 2) + (c + [IJmp(-(|c| + 1))])
  }

  /** The test, if any, and the choice lead out; each round ends by moving the choice, which may be the outer one. */
  function LoopCode(test: Guard, c: seq<Instr>, opt: bool): seq<Instr>
    requires test.Guarded? ==> HasLabel(test.test)
  {
    TestCode(test, |c| + 3) + ([if opt then IPartialCommit(1) else IChoice(|c| + 2)] + (c + [IPartialCommit(-|c|)]))
  }

  /** The test, if any, and the choice lead out; a match fails past the choice. For a head-fail p the test decides. */
  function NotCode(test: Guard, headfail: bool, c: seq<Instr>): seq<Instr>
    requires test.Guarded? ==> HasLabel(test.test)
  {
    if headfail then TestCode(test, 2) + [IFail]
    else TestCode(test, |c| + 3) + ([IChoice(|c| + 2)] + (c + [IFailTwice]))
  }

  /** p; behind n: for a pattern of fixed length n */
  function AndBehindCode(c: seq<Instr>, n: nat): seq<Instr> { c + (if n > 0 then [IBehind(n)] else []) }

  /** A match goes back to where it started, behind the IFail to which the choice leads. */
  function AndCode(c: seq<Instr>): seq<Instr>
  {
    [IChoice(|c| + 2)] + (c + ([IBackCommit(2)] + [IFail]))
  }

  function BehindCode(n: nat, c: seq<Instr>): seq<Instr> { (if n > 0 then [IBehind(n)] else []) + c }

  function CaptureFullCode(kind: nat, key: int, len: nat, c: seq<Instr>): seq<Instr>
  {
    c + [IFullCapture(kind, key, len)]
  }

  function CaptureCode(kind: nat, key: int, c: seq<Instr>): seq<Instr>
  {
    [IOpenCapture(kind, key)] + (c + [ICloseCapture])
  }

  /** A call of the first rule and a jump over all of them; `raw` holds the rules, each ended by a return. */
  function GrammarCode(raw: seq<Instr>, positions: seq<nat>): seq<Instr>
  {
    [ICall(2), IJmp(|raw| + 1)] + CorrectCalls(raw, positions, 0)
  }

  /**
   * The code of `t`. `opt` says that the code stands under a choice that jumps to its end, `tt` is
   * the test that dominates it and `fl` is its follow set.
   */
  function Gen(g: Rules, t: Tree, opt: bool, tt: Guard, fl: Charset): seq<Instr>
    decreases t, 1, 0
  {
    match t
    case TChar(c) => [GenChar(c, tt)]
    case TAny => [IAny]
    case TSet(cs) => [GenCharset(cs, tt)]
    case TTrue => []
    case TFalse => [IFail]
    case TSeq(p1, p2) =>
      SeqCode(Gen(g, p1, false, tt, FollowOf(g, p1, p2, fl)), Gen(g, p2, opt, GuardOfSecond(g, p1, tt), fl))
    case TChoice(p1, p2) =>
      var f1 := FirstOf(g, p1, FULLSET);
      if ChoiceByTest(g, p1, p2, fl) then
        var test := GenTest(f1.cs, false);
        ChoiceTestCode(test, Gen(g, p1, false, test, fl), Gen(g, p2, opt, NoGuard, fl), p2.TTrue?)
      else if opt && p2.TTrue? then
        ChoiceOptCode(Gen(g, p1, true, NoGuard, FULLSET))
      else
        var test := GenTest(f1.cs, f1.e);
        ChoiceFullCode(test, Gen(g, p1, p2.TTrue?, test, FULLSET), Gen(g, p2, opt, NoGuard, fl))
    case TRep(p) =>
      if IsCharset(p) then [ISpan(ToCharset(p))]
      else
        var f := FirstOf(g, p, FULLSET);
        if LoopByTest(g, p, fl) then
          var test := GenTest(f.cs, false);
          LoopTestCode(test, Gen(g, p, opt, test, FULLSET))
        else
          LoopCode(GenTest(f.cs, f.e), Gen(g, p, false, NoGuard, FULLSET), opt)
    case TNot(p) =>
      var f := FirstOf(g, p, FULLSET);
      NotCode(GenTest(f.cs, f.e), Headfail(g, p), Gen(g, p, false, NoGuard, FULLSET))
    case TAnd(p) =>
      var c := Gen(g, p, false, tt, FULLSET);
      if AndByBehind(g, p) then AndBehindCode(c, Fixedlen(g, p)) else AndCode(c)
    case TBehind(n, p) => BehindCode(n, Gen(g, p, false, NoGuard, FULLSET))
    case TCapture(kind, key, p) =>
      var c := Gen(g, p, false, tt, fl);
      if CaptureFull(g, p) then CaptureFullCode(kind, key, Fixedlen(g, p), c) else CaptureCode(kind, key, c)
    case TCall(k) => [IOpenCall(0, k)]
    case TGrammar(rules) => GrammarCode(GenRules(t, |rules|), RulePositions(t))
  }

  /** The code of a rule, with its return. */
  function RuleCode(c: seq<Instr>): seq<Instr> { c + [IRet] }

  /** The code of the first `k` rules of a grammar, each ended by a return. */
  function GenRules(t: Tree, k: nat): seq<Instr>
    requires t.TGrammar? && k <= |t.rules|
    decreases t, 0, k
  {
    if k == 0 then []
    else GenRules(t, k - 1) + RuleCode(Gen(t.rules, t.rules[k - 1], false, NoGuard, FULLSET))
  }

  /** Where each rule starts, counted from the start of the first rule. */
  function RulePositions(t: Tree): (r: seq<nat>)
    requires t.TGrammar?
    ensures |r| == |t.rules|
    decreases t, 0, |t.rules| + 1
  {
    seq(|t.rules|, k requires 0 <= k < |t.rules| => |GenRules(t, k)|)
  }

  /** The destination of a chain of at most `n` jumps. */
  function FinalTarget(code: seq<Instr>, i: int, n: nat): int
    decreases n
  {
    if 0 <= i < |code| && code[i].IJmp? && n > 0 then FinalTarget(code, i + code[i].off, n - 1) else i
  }

  /** Does control that reaches `i` only jump until it returns? */
  predicate Returns(code: seq<Instr>, i: int)
  {
    var ft := FinalTarget(code, i, |code|);
    0 <= ft < |code| && code[ft].IRet?
  }

  /** Close the open calls from `i` on: a call that is only followed by a return becomes a jump. */
  function CorrectCalls(code: seq<Instr>, positions: seq<nat>, i: nat): (r: seq<Instr>)
    ensures |r| == |code|
    decreases |code| - i
  {
    if i >= |code| then code
    else if code[i].IOpenCall? && code[i].rule < |positions| then
      var off := positions[code[i].rule] - i;
      var call := if Returns(code, i + 1) then IJmp(off) else ICall(off);
      CorrectCalls(code[i := call], positions, i + 1)
    else CorrectCalls(code, positions, i + 1)
  }
}
