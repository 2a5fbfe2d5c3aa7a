/** The interpreter loop: matching with an explicit, growing stack of pending calls and choices. */
module LpegMatch {
  import opened LpegTree
  import opened LpegMachine
  import opened LpegCode
  import opened LpegPeephole
  import opened LpegTheorem
  import opened LpegPremise
  import opened LpegVerify
  import opened LpegHalts
  import opened LpegTidy
  import opened LpegCompiler
  import opened LpegCaptures
  import opened LpegCoded
  import opened LpegActual
  import opened LpegAnalysis

  /** Initial size of the stack, and of the list of captures. */
  const INITBACK := 100
  const INITCAPSIZE := 32

  datatype MatchResult = Matched(end: nat, caps: seq<CapEntry>) | Failed | TooManyPending

  /** The stack an array of frames stands for, top last. */
  function StackOf(a: seq<Frame>): Stack
  {
    if a == [] then Bottom else Push(a[|a| - 1], StackOf(a[..|a| - 1]))
  }

  lemma {:induction false} DepthOf(a: seq<Frame>)
    ensures Depth(StackOf(a)) == |a|
  {
    if a != [] {
      DepthOf(a[..|a| - 1]);
    }
  }

  lemma StackPush(a: seq<Frame>, f: Frame)
    ensures StackOf(a + [f]) == Push(f, StackOf(a))
  {
    assert (a + [f])[..|a|] == a;
  }

  /** A bigger stack with the same frames, or none if it may not grow. */
  method DoubleStack(stack: array<Frame>, max: nat) returns (bigger: array?<Frame>)
    requires stack.Length > 0
    ensures bigger == null <==> stack.Length >= max
    ensures bigger != null ==>
              && fresh(bigger)
              && bigger.Length == (if 2 * stack.Length > max then max else 2 * stack.Length)
              && bigger[..stack.Length] == stack[..]
  {
    var n := stack.Length;
    if n >= max {
      return null;
    }
    var newn := 2 * n;
    if newn > max {
      newn := max;
    }
    var copy := new Frame[newn];
    for i := 0 to n
      invariant copy[..i] == stack[..i]
    {
      copy[i] := stack[i];
    }
    assert copy[..n] == stack[..n] == stack[..];
    bigger := copy;
  }

  method DoubleCap(capture: array<CapEntry>, captop: nat) returns (bigger: array<CapEntry>)
    requires 0 < captop <= capture.Length
    ensures fresh(bigger) && bigger.Length == 2 * captop && bigger[..captop] == capture[..captop]
  {
    bigger := new CapEntry[2 * captop];
    for i := 0 to captop
      invariant bigger[..i] == capture[..i]
    {
      bigger[i] := capture[i];
    }
  }

  /** Nothing is stuck on the way to a proper end. */
  lemma NeverStuck(m: Machine, x: Conf, n: nat, bound: nat)
    requires n <= bound && !Steps(m, x, bound).Run? && Steps(m, x, bound) != Stuck
    ensures Steps(m, x, n) != Stuck
    ensures Steps(m, x, n).Run? ==> n < bound && Steps(m, x, n + 1) == Step(m, Steps(m, x, n))
  {
    StepsAdd(m, x, n, bound - n);
    if Steps(m, x, n) == Stuck {
      StepsHalted(m, Stuck, bound - n);
    }
    StepsAdd(m, x, n, 1);
    assert Steps(m, Steps(m, x, n), 1) == Steps(m, Step(m, Steps(m, x, n)), 0);
  }

  /** The configuration reported by a result. */
  function ConfOf(r: MatchResult): Conf
    requires !r.TooManyPending?
  {
    match r
    case Matched(end, caps) => Done(end, caps)
    case Failed => GaveUp
  }

  /** The frames the interpreter grants: the stack starts with INITBACK and grows up to `max`. */
  function Granted(max: nat): nat { if max < INITBACK then INITBACK else max }

  /** Some configuration of the run needs a deeper stack than the interpreter grants. */
  ghost predicate Overflows(m: Machine, x: Conf, max: nat) { Exceeds(m, x, Granted(max)) }

  /** The variables of the interpreter. The arrays have room beyond `top` and `captop`. */
  class Interpreter {
    const code: seq<Instr>
    const subj: Subject
    const max: nat
    var stack: array<Frame>
    var top: nat
    var capture: array<CapEntry>
    var captop: nat
    var p: int
    var s: nat

    ghost predicate Valid()
      reads this
    {
      INITBACK <= stack.Length <= Granted(max) && top <= stack.Length && captop < capture.Length
    }

    ghost function Here(): Conf
      reads this, stack, capture
      requires Valid()
    {
      Run(p, s, StackOf(stack[..top]), capture[..captop])
    }

    constructor (code: seq<Instr>, subj: Subject, start: nat, max: nat)
      ensures Valid() && fresh(stack) && fresh(capture)
      ensures this.code == code && this.subj == subj && this.max == max && Here() == Start(start)
    {
      this.code, this.subj, this.max := code, subj, max;
      stack := new Frame[INITBACK];
      capture := new CapEntry[INITCAPSIZE];
      top, captop, p, s := 1, 0, 0, start;
      new;
      stack[0] := Choice(GIVEUP, start, 0);
      StackPush([], Choice(GIVEUP, start, 0));
      assert stack[..1] == [] + [Choice(GIVEUP, start, 0)];
    }

    /** Take the top frame off. */
    method Pop() returns (f: Frame)
      requires Valid() && StackOf(stack[..top]).Push?
      modifies this`top
      ensures Valid() && top == old(top) - 1
      ensures Push(f, StackOf(stack[..top])) == old(StackOf(stack[..top]))
    {
      assert stack[..top][..top - 1] == stack[..top - 1];
      top := top - 1;
      f := stack[top];
    }

    /** Put a frame on top, growing the stack if need be; fails if it may not grow. */
    method PushFrame(f: Frame) returns (ok: bool)
      requires Valid()
      modifies this`stack, this`top, stack
      ensures Valid() && (stack == old(stack) || fresh(stack))
      ensures ok ==> StackOf(stack[..top]) == Push(f, old(StackOf(stack[..top])))
      ensures !ok ==> old(top) >= INITBACK && old(top) >= max
    {
      if top == stack.Length {
        var bigger := DoubleStack(stack, max);
        if bigger == null {
          return false;
        }
        stack := bigger;
      }
      assert stack[..top] == old(stack[..top]);
      ghost var was := stack[..top];
      stack[top] := f;
      top := top + 1;
      assert stack[..top] == was + [f];
      StackPush(was, f);
      ok := true;
    }

    /** Drop pending calls and resume at the last choice. */
    method Fail()
      requires Valid() && FailTo(StackOf(stack[..top]), capture[..captop]) != Stuck
      requires captop >= 0
      modifies this`top, this`captop, this`p, this`s
      ensures Valid() && Here() == old(FailTo(StackOf(stack[..top]), capture[..captop]))
    {
      ghost var goal := FailTo(StackOf(stack[..top]), capture[..captop]);
      ghost var caps := capture[..captop];
      var f := Pop();
      while f.Call?
        invariant Valid() && captop == old(captop) && caps == capture[..captop]
        invariant FailTo(Push(f, StackOf(stack[..top])), caps) == goal
        decreases top
      {
        f := Pop();
      }
      if f.level <= captop {
        assert caps[..f.level] == capture[..f.level];
        captop := f.level;
      }
      p, s := f.p, f.s;
    }

    /** Move over one character if `ok`, else fail. */
    method Consume(ok: bool)
      requires Valid() && (ok || FailTo(StackOf(stack[..top]), capture[..captop]) != Stuck)
      modifies this
      ensures Valid() && stack == old(stack) && capture == old(capture)
      ensures Here() == if ok then old(Run(p + 1, s + 1, StackOf(stack[..top]), capture[..captop]))
                        else old(FailTo(StackOf(stack[..top]), capture[..captop]))
    {
      if ok {
        p, s := p + 1, s + 1;
      } else {
        Fail();
      }
    }

    method Span(cs: Charset)
      requires Valid()
      modifies this`s
      ensures s == old(SpanEnd(subj, s, cs))
    {
      while s < |subj| && subj[s] in cs
        invariant SpanEnd(subj, s, cs) == old(SpanEnd(subj, s, cs))
        decreases |subj| - s
      {
        s := s + 1;
      }
    }

    /** Add an entry, growing the list when it becomes full. */
    method PushCapture(e: CapEntry)
      requires Valid()
      modifies this`capture, this`captop, capture
      ensures Valid() && (capture == old(capture) || fresh(capture))
      ensures capture[..captop] == old(capture[..captop]) + [e]
    {
      capture[captop] := e;
      captop := captop + 1;
      if captop >= capture.Length {
        var bigger := DoubleCap(capture, captop);
        capture := bigger;
      }
    }

    method CloseCapture()
      requires Valid() && captop > 0
      modifies this`capture, this`captop, capture
      ensures Valid() && (capture == old(capture) || fresh(capture))
      ensures capture[..captop] == CloseCap(old(capture[..captop]), s)
    {
      var last := capture[captop - 1];
      assert capture[..captop][captop - 1] == last;
      if last.siz == 0 && s - last.pos < 255 && last.pos <= s {
        ghost var was := capture[..captop];
        capture[captop - 1] := last.(siz := s - last.pos + 1);
        assert capture[..captop] == was[captop - 1 := last.(siz := s - last.pos + 1)];
      } else {
        PushCapture(CapEntry(s, 0, CCLOSE, 1));
      }
    }

    ghost predicate Moves()
      reads this, stack, capture
      requires Valid()
    {
      0 <= p < |code| && !code[p].IEnd? && Step(Machine(code, subj), Here()) != Stuck
    }

    /** Characters, sets and looking back. */
    method ExecChars(i: Instr)
      requires Valid() && Moves() && i == code[p]
      requires i.IAny? || i.IChar? || i.ISet? || i.ISpan? || i.IBehind? || i.IFail?
      modifies this
      ensures Valid() && stack == old(stack) && capture == old(capture)
      ensures Here() == old(Step(Machine(code, subj), Here()))
    {
      hide FailTo, CloseCap, SpanEnd;
      match i
      case IAny => Consume(s < |subj|);
      case IChar(c) => Consume(s < |subj| && subj[s] == c);
      case ISet(cs) => Consume(s < |subj| && subj[s] in cs);
      case ISpan(cs) =>
        Span(cs);
        p := p + 1;
      case IBehind(n) =>
        if n > s {
          Fail();
        } else {
          p, s := p + 1, s - n;
        }
      case IFail => Fail();
    }

    /** Tests and jumps. */
    method ExecJumps(i: Instr)
      requires Valid() && Moves() && i == code[p]
      requires i.ITestAny? || i.ITestChar? || i.ITestSet? || i.IJmp?
      modifies this`p
      ensures Valid()
      ensures Here() == old(Step(Machine(code, subj), Here()))
    {
      hide FailTo, CloseCap, SpanEnd;
      match i
      case ITestAny(off) => p := if s < |subj| then p + 1 else p + off;
      case ITestChar(off, c) => p := if s < |subj| && subj[s] == c then p + 1 else p + off;
      case ITestSet(off, cs) => p := if s < |subj| && subj[s] in cs then p + 1 else p + off;
      case IJmp(off) => p := p + off;
    }

    /** Put back a choice that was on top, for the current position. */
    method Renew(target: int)
      requires Valid() && top < stack.Length
      modifies this`top, stack
      ensures Valid() && StackOf(stack[..top]) == Push(Choice(target, s, captop), old(StackOf(stack[..top])))
    {
      ghost var was := stack[..top];
      stack[top] := Choice(target, s, captop);
      top := top + 1;
      assert stack[..top] == was + [Choice(target, s, captop)];
      StackPush(was, Choice(target, s, captop));
    }

    /** Returns and commits. */
    method ExecPops(i: Instr)
      requires Valid() && Moves() && i == code[p]
      requires i.IRet? || i.ICommit? || i.IPartialCommit? || i.IBackCommit? || i.IFailTwice?
      modifies this, stack
      ensures Valid() && stack == old(stack) && capture == old(capture)
      ensures Here() == old(Step(Machine(code, subj), Here()))
    {
      hide FailTo, CloseCap, SpanEnd, StackOf;
      ghost var caps := capture[..captop];
      var f := Pop();
      match i
      case IRet => p := f.p;
      case ICommit(off) => p := p + off;
      case IPartialCommit(off) =>
        Renew(f.p);
        p := p + off;
      case IBackCommit(off) =>
        if f.level <= captop {
          assert caps[..f.level] == capture[..f.level];
          captop := f.level;
        }
        p, s := p + off, f.s;
      case IFailTwice => Fail();
    }

    /** Choices and calls. */
    method ExecPushes(i: Instr) returns (ok: bool)
      requires Valid() && Moves() && i == code[p]
      requires i.IChoice? || i.ICall?
      modifies this, stack
      ensures Valid() && (stack == old(stack) || fresh(stack)) && capture == old(capture)
      ensures ok ==> Here() == old(Step(Machine(code, subj), Here()))
      ensures !ok ==> old(Step(Machine(code, subj), Here())).Run? &&
                      Depth(old(Step(Machine(code, subj), Here())).stack) > Granted(max)
    {
      hide FailTo, CloseCap, SpanEnd;
      DepthOf(stack[..top]);
      if i.IChoice? {
        ok := PushFrame(Choice(p + i.off, s, captop));
        if ok { p := p + 1; }
      } else {
        ok := PushFrame(Call(p + 1));
        if ok { p := p + i.off; }
      }
    }

    method ExecCaptures(i: Instr)
      requires Valid() && Moves() && i == code[p]
      requires i.IFullCapture? || i.IOpenCapture? || i.ICloseCapture?
      modifies this, capture
      ensures Valid() && stack == old(stack) && (capture == old(capture) || fresh(capture))
      ensures Here() == old(Step(Machine(code, subj), Here()))
    {
      hide FailTo, CloseCap, SpanEnd;
      ghost var k := StackOf(stack[..top]);
      match i
      case IFullCapture(kind, key, len) => PushCapture(CapEntry(s - len, key, kind, len + 1)); p := p + 1;
      case IOpenCapture(kind, key) => PushCapture(CapEntry(s, key, kind, 0)); p := p + 1;
      case ICloseCapture => CloseCapture(); p := p + 1;
    }

    /** One instruction. */
    method Exec1() returns (ok: bool)
      requires Valid() && Moves()
      modifies this, stack, capture
      ensures Valid() && (stack == old(stack) || fresh(stack)) && (capture == old(capture) || fresh(capture))
      ensures ok ==> Here() == old(Step(Machine(code, subj), Here()))
      ensures !ok ==> old(Step(Machine(code, subj), Here())).Run? &&
                      Depth(old(Step(Machine(code, subj), Here())).stack) > Granted(max)
    {
      ok := true;
      var i := code[p];
      if i.IOpenCall? {
        OpenCallsStick(Machine(code, subj), Here());
      }
      hide Step, StackOf;
      if i.IAny? || i.IChar? || i.ISet? || i.ISpan? || i.IBehind? || i.IFail? {
        ExecChars(i);
      } else if i.ITestAny? || i.ITestChar? || i.ITestSet? || i.IJmp? {
        ExecJumps(i);
      } else if i.IRet? || i.ICommit? || i.IPartialCommit? || i.IBackCommit? || i.IFailTwice? {
        ExecPops(i);
      } else if i.IChoice? || i.ICall? {
        ok := ExecPushes(i);
      } else {
        ExecCaptures(i);
      }
    }
  }

  lemma OpenCallsStick(m: Machine, x: Conf)
    requires x.Run? && 0 <= x.pc < |m.code| && m.code[x.pc].IOpenCall?
    ensures Step(m, x) == Stuck
  {
  }

  /**
   * Match `subj` from `start`. `bound` is a number of steps after which the machine has ended
   * without a failed assertion, as it does for compiled patterns.
   */
  method RunMachine(code: seq<Instr>, subj: Subject, start: nat, max: nat, ghost bound: nat) returns (r: MatchResult)
    requires !Steps(Machine(code, subj), Start(start), bound).Run? && Steps(Machine(code, subj), Start(start), bound) != Stuck
    ensures !r.TooManyPending? ==> ConfOf(r) == Steps(Machine(code, subj), Start(start), bound)
    ensures r.TooManyPending? <==> Overflows(Machine(code, subj), Start(start), max)
  {
    hide Step, Steps, StackOf, DeepAt;
    ghost var m, x0, n := Machine(code, subj), Start(start), 0;
    var v := new Interpreter(code, subj, start, max);
    StepsNone(m, x0);
    HereShallow(m, x0, 0, v);
    while true
      invariant v.Valid() && fresh(v) && fresh(v.stack) && fresh(v.capture)
      invariant v.code == code && v.subj == subj && v.max == max
      invariant n <= bound && Steps(m, x0, n) == v.Here()
      invariant forall j: nat :: j <= n ==> !DeepAt(m, x0, j, Granted(max))
      decreases bound - n
    {
      NeverStuck(m, x0, n, bound);
      NeverStuck(m, x0, n + 1, bound);
      StepFacts(m, v.Here());
      if v.p == GIVEUP {
        HaltedEarly(m, x0, n + 1, bound);
        ShallowTill(m, x0, n, Granted(max));
        return Failed;
      }
      if code[v.p].IEnd? {
        HaltedEarly(m, x0, n + 1, bound);
        ShallowTill(m, x0, n, Granted(max));
        return Matched(v.s, v.capture[..v.captop]);
      }
      var ok := v.Exec1();
      if !ok {
        assert DeepAt(m, x0, n + 1, Granted(max)) by { DeepHere(m, x0, n + 1, Granted(max)); }
        return TooManyPending;
      }
      n := n + 1;
      HereShallow(m, x0, n, v);
    }
  }

  lemma DeepHere(m: Machine, x: Conf, n: nat, depth: nat)
    requires Steps(m, x, n).Run?
    ensures DeepAt(m, x, n, depth) <==> Depth(Steps(m, x, n).stack) > depth
  {
  }

  lemma HereShallow(m: Machine, x: Conf, n: nat, v: Interpreter)
    requires v.Valid() && Steps(m, x, n) == v.Here()
    ensures !DeepAt(m, x, n, Granted(v.max))
  {
    DepthOf(v.stack[..v.top]);
    DeepHere(m, x, n, Granted(v.max));
  }

  /** A run that has ended is as shallow as it was before. */
  lemma ShallowTill(m: Machine, x: Conf, n: nat, depth: nat)
    requires forall j: nat :: j <= n ==> !DeepAt(m, x, j, depth)
    requires !Steps(m, x, n + 1).Run?
    ensures !Exceeds(m, x, depth)
  {
    hide DeepAt;
    forall j: nat ensures !DeepAt(m, x, j, depth) {
      if j > n {
        HaltedEarly(m, x, n + 1, j);
        HaltedNotDeep(m, x, j, depth);
      }
    }
  }

  lemma HaltedNotDeep(m: Machine, x: Conf, n: nat, depth: nat)
    requires !Steps(m, x, n).Run?
    ensures !DeepAt(m, x, n, depth)
  {
  }

  lemma StepsNone(m: Machine, x: Conf)
    ensures Steps(m, x, 0) == x
  {
  }

  /** Where the machine can go on or end. */
  lemma StepFacts(m: Machine, x: Conf)
    requires x.Run? && Step(m, x) != Stuck
    ensures x.pc == GIVEUP ==> Step(m, x) == GaveUp
    ensures x.pc != GIVEUP ==> 0 <= x.pc < |m.code|
    ensures x.pc != GIVEUP && m.code[x.pc].IEnd? ==> Step(m, x) == Done(x.s, x.caps)
  {
  }

  lemma HaltedEarly(m: Machine, x: Conf, n: nat, bound: nat)
    requires n <= bound && !Steps(m, x, n).Run?
    ensures Steps(m, x, bound) == Steps(m, x, n)
  {
    StepsAdd(m, x, n, bound - n);
    StepsHalted(m, Steps(m, x, n), bound - n);
  }

  // ---------- Compile and match ----------

  /**
   * The result is what the code of the pattern does at `s`. If no loop is left too early, as for
   * patterns with TailsSafe, it is what the pattern means: the end, and a list that reads as its captures
   * in the order in which the code records them. They are the captures of the pattern if and only if
   * the match is honest, as it is for patterns with CapsSafe.
   */
  ghost predicate Means(t: Tree, subj: Subject, s: nat, r: MatchResult)
    requires s <= |subj|
  {
    exists fuel: nat ::
      && !Eval(fuel, [], t, subj, s).Running?
      && ReportsAt(t, subj, s, fuel, r)
      && (Stays(fuel, [], t, false, FULLSET, subj, s) ==> MeansAt(t, subj, s, fuel, r))
      && (TailsSafe([], t, false, FULLSET) ==> Stays(fuel, [], t, false, FULLSET, subj, s))
  }

  ghost predicate ReportsAt(t: Tree, subj: Subject, s: nat, fuel: nat, r: MatchResult)
    requires s <= |subj|
  {
    var a := Act(fuel, [], t, false, FULLSET, subj, s);
    !a.Going? && !r.TooManyPending? && ConfOf(r) == Report(a)
  }

  ghost predicate MeansAt(t: Tree, subj: Subject, s: nat, fuel: nat, r: MatchResult)
    requires s <= |subj|
  {
    match Eval(fuel, [], t, subj, s)
    case Match(e, cs) =>
      && r.Matched? && r.end == e
      && (CapsSafe([], t) ==> r.caps == Encode(cs))
      && (KindsOk(t) ==>
            && Coded(fuel, [], t, subj, s).Match?
            && Read(r.caps, 0) == (Coded(fuel, [], t, subj, s).caps, |r.caps|)
            && (Read(r.caps, 0) == (cs, |r.caps|) <==> Honest(fuel, [], t, subj, s)))
    case NoMatch => r == Failed
    case Running => false
  }

  lemma {:induction false} LoadedGrammars(t: Tree)
    requires Loaded(t)
    ensures GrammarsLoaded(t)
  {
    match t
    case TRep(p) => LoadedGrammars(p);
    case TSeq(p1, p2) => LoadedGrammars(p1); LoadedGrammars(p2);
    case TChoice(p1, p2) => LoadedGrammars(p1); LoadedGrammars(p2);
    case TNot(p) => LoadedGrammars(p);
    case TAnd(p) => LoadedGrammars(p);
    case TBehind(_, p) => LoadedGrammars(p);
    case TCapture(_, _, p) => LoadedGrammars(p);
    case _ =>
  }

  lemma AnswerMeans(t: Tree, subj: Subject, s: nat, fuel: nat, r: MatchResult)
    requires s <= |subj| && !Eval(fuel, [], t, subj, s).Running? && WellFormed([], t) && ReportsAt(t, subj, s, fuel, r)
    ensures Means(t, subj, s, r)
  {
    hide Eval, Coded, Act, Stays, Encode, Read, KindsOk, Honest, CapsSafe, WellFormed, TailsSafe;
    AnswerExact(t, subj, s, fuel);
    if Stays(fuel, [], t, false, FULLSET, subj, s) {
      if Eval(fuel, [], t, subj, s).Match? && KindsOk(t) {
        SameEnd(fuel, [], t, subj, s);
        StaysAgree(fuel, [], t, false, FULLSET, subj, s);
        CodedProper(fuel, [], t, subj, s);
        HonestExact(fuel, [], t, subj, s);
        ListFaithful(Coded(fuel, [], t, subj, s).caps);
      }
      assert MeansAt(t, subj, s, fuel, r);
    }
  }

  /**
   * Compile a loaded pattern and match it. Unless the stack limit is hit, the result is what the code
   * of the pattern does, and what the pattern means as far as Means says; the limit is hit if and only
   * if the run of the pattern's code needs a deeper stack.
   */
  method CompileAndMatch(t: Tree, subj: Subject, start: nat, max: nat) returns (r: MatchResult)
    requires Loaded(t) && BehindsEnd(t) && WellFormed([], t) && start <= |subj|
    ensures !r.TooManyPending? ==> Means(t, subj, start, r)
    ensures r.TooManyPending? <==> Overflows(Machine(Program(t), subj), Start(start), max)
  {
    hide Eval, Act, Gen, Steps, Loaded, BehindsEnd, WellFormed, SameBehaviour, Means, Exceeds, Ends;
    LoadedGrammars(t);
    var code := Compile(t);
    ghost var fuel := CompilerCorrect(t, code, subj, start);
    ghost var o := Report(Act(fuel, [], t, false, FULLSET, subj, start));
    assert Ends(code, subj, Start(start), o);
    ghost var bound := EndAt(code, subj, Start(start), o);
    r := RunMachine(code, subj, start, max, bound);
    if !r.TooManyPending? {
      AnswerMeans(t, subj, start, fuel, r);
    }
  }

  lemma EndAt(code: seq<Instr>, subj: Subject, x: Conf, o: Conf) returns (n: nat)
    requires Ends(code, subj, x, o)
    ensures Steps(Machine(code, subj), x, n) == o && !o.Run?
  {
    n :| Steps(Machine(code, subj), x, n) == o;
  }
}
