/** Rewriting one instruction by following its jumps does not change what a program does. */
module LpegPeephole {
  import opened LpegTree
  import opened LpegMachine
  import opened LpegCode
  import opened Pigeons

  // ---------- Chains of jumps ----------

  predicate NoJump(code: seq<Instr>, i: int) { 0 <= i < |code| && !code[i].IJmp? }

  /** The jumps from `i` come to an end at some other instruction. */
  ghost predicate Settles(code: seq<Instr>, i: int)
  {
    exists n: nat :: NoJump(code, FinalTarget(code, i, n))
  }

  /** Where the jumps from `i` end. */
  function Final(code: seq<Instr>, i: int): int { FinalTarget(code, i, |code|) }

  /** How many jumps lead from `i` to the end of its chain, given that `n` are enough. */
  function ChainLength(code: seq<Instr>, i: int, n: nat): nat
    requires NoJump(code, FinalTarget(code, i, n))
    ensures ChainLength(code, i, n) <= n
    decreases n
  {
    if NoJump(code, i) then 0 else 1 + ChainLength(code, i + code[i].off, n - 1)
  }

  lemma {:induction false} ChainExact(code: seq<Instr>, i: int, n: nat, k: nat)
    requires NoJump(code, FinalTarget(code, i, n))
    ensures k >= ChainLength(code, i, n) ==> FinalTarget(code, i, k) == FinalTarget(code, i, n)
    ensures k < ChainLength(code, i, n) ==> !NoJump(code, FinalTarget(code, i, k))
    decreases n
  {
    if !NoJump(code, i) && k > 0 {
      ChainExact(code, i + code[i].off, n - 1, k - 1);
    }
  }

  /** The positions on the chain from `i`, each nearer to the end than the one before. */
  lemma {:induction false} ChainPath(code: seq<Instr>, i: int, n: nat) returns (path: seq<nat>)
    requires NoJump(code, FinalTarget(code, i, n))
    ensures |path| == ChainLength(code, i, n) + 1
    ensures forall j :: 0 <= j < |path| ==>
              path[j] < |code| && NoJump(code, FinalTarget(code, path[j], n)) &&
              ChainLength(code, path[j], n) == |path| - 1 - j
    decreases n
  {
    if NoJump(code, i) {
      path := [i];
      assert FinalTarget(code, i, n) == i;
    } else {
      var rest := ChainPath(code, i + code[i].off, n - 1);
      forall j | 0 <= j < |rest|
        ensures NoJump(code, FinalTarget(code, rest[j], n))
        ensures ChainLength(code, rest[j], n) == |rest| - 1 - j
      {
        ChainExact(code, rest[j], n - 1, n);
        ChainLengthSame(code, rest[j], n - 1, n);
      }
      path := [i] + rest;
    }
  }

  lemma {:induction false} ChainLengthSame(code: seq<Instr>, i: int, n: nat, k: nat)
    requires NoJump(code, FinalTarget(code, i, n)) && NoJump(code, FinalTarget(code, i, k))
    ensures ChainLength(code, i, n) == ChainLength(code, i, k)
    decreases n
  {
    if !NoJump(code, i) {
      ChainLengthSame(code, i + code[i].off, n - 1, k - 1);
    }
  }

  /** A chain that ends does so within as many jumps as there are instructions. */
  lemma SettlesSoon(code: seq<Instr>, i: int)
    requires Settles(code, i)
    ensures NoJump(code, Final(code, i)) && 0 <= i < |code|
  {
    var n: nat :| NoJump(code, FinalTarget(code, i, n));
    var path := ChainPath(code, i, n);
    if |path| > |code| {
      var j, k := Pigeonhole(path, |code|);
    }
    ChainExact(code, i, n, |code|);
  }

  lemma FinalFixed(code: seq<Instr>, i: int)
    requires NoJump(code, i)
    ensures Settles(code, i) && Final(code, i) == i
  {
    assert FinalTarget(code, i, 0) == i;
    assert FinalTarget(code, i, |code|) == i;
  }

  lemma FinalNext(code: seq<Instr>, i: int)
    requires 0 <= i < |code| && code[i].IJmp? && Settles(code, i)
    ensures Settles(code, i + code[i].off) && Final(code, i + code[i].off) == Final(code, i)
  {
    SettlesSoon(code, i);
    assert NoJump(code, FinalTarget(code, i + code[i].off, |code| - 1));
    ChainExact(code, i + code[i].off, |code| - 1, |code|);
  }

  lemma SettlesBack(code: seq<Instr>, i: int)
    requires 0 <= i < |code| && code[i].IJmp? && Settles(code, i + code[i].off)
    ensures Settles(code, i)
  {
    var n: nat :| NoJump(code, FinalTarget(code, i + code[i].off, n));
    assert FinalTarget(code, i, n + 1) == FinalTarget(code, i + code[i].off, n);
  }

  /** Every label leads, after some jumps, to an instruction that is not a jump. */
  ghost predicate Tidy(code: seq<Instr>)
  {
    forall i :: 0 <= i < |code| && HasLabel(code[i]) ==> Settles(code, i + code[i].off)
  }

  // ---------- One rewriting ----------

  predicate CopyableEnd(i: Instr) { i.IRet? || i.IFail? || i.IFailTwice? || i.IEnd? }

  predicate CopyableLabel(i: Instr) { i.ICommit? || i.IPartialCommit? || i.IBackCommit? }

  /** What the peephole pass makes of instruction `i` in one visit. */
  function Rewrite(code: seq<Instr>, i: nat): Instr
    requires i < |code|
  {
    var ins := code[i];
    if ins.IJmp? then
      var ft := Final(code, i);
      if !(0 <= ft < |code|) then ins
      else if CopyableEnd(code[ft]) then code[ft]
      else if CopyableLabel(code[ft]) then WithOff(code[ft], Final(code, ft + code[ft].off) - i)
      else IJmp(ft - i)
    else if HasLabel(ins) && !ins.IOpenCall? then WithOff(ins, Final(code, i + ins.off) - i)
    else ins
  }

  /** Two addresses at which `code` does the same after jumping. */
  ghost predicate SamePlace(code: seq<Instr>, p: int, q: int)
  {
    p == q || (Settles(code, p) && Settles(code, q) && Final(code, p) == Final(code, q))
  }

  ghost predicate SameStack(code: seq<Instr>, k: Stack, l: Stack)
  {
    match k
    case Bottom => l.Bottom?
    case Push(Choice(p, s, level), rest) =>
      l.Push? && l.top.Choice? && l.top.s == s && l.top.level == level && SamePlace(code, p, l.top.p) &&
      SameStack(code, rest, l.rest)
    case Push(Call(p), rest) =>
      l.Push? && l.top.Call? && SamePlace(code, p, l.top.p) && SameStack(code, rest, l.rest)
  }

  ghost predicate SameConf(code: seq<Instr>, x: Conf, y: Conf)
  {
    if x.Run? then
      y.Run? && SamePlace(code, x.pc, y.pc) && x.s == y.s && x.caps == y.caps && SameStack(code, x.stack, y.stack)
    else x == y
  }

  lemma {:induction false} SameStackRefl(code: seq<Instr>, k: Stack)
    ensures SameStack(code, k, k)
  {
    if k.Push? {
      SameStackRefl(code, k.rest);
    }
  }

  lemma {:induction false} SameFail(code: seq<Instr>, k: Stack, l: Stack, caps: seq<CapEntry>)
    requires SameStack(code, k, l)
    ensures SameConf(code, FailTo(k, caps), FailTo(l, caps))
  {
    match k
    case Push(Call(_), rest) => SameFail(code, rest, l.rest, caps);
    case _ =>
  }

  lemma ExecSamePlain(code: seq<Instr>, i: Instr, subj: Subject, p: int, q: int, s: nat, k: Stack, l: Stack,
                      caps: seq<CapEntry>)
    requires SameStack(code, k, l) && !HasLabel(i) && !CopyableEnd(i) && p == q
    ensures SameConf(code, Exec(i, subj, p, s, k, caps), Exec(i, subj, q, s, l, caps))
  {
    hide Settles, FinalTarget, SpanEnd, CloseCap, FailTo, SameStack;
    SameFail(code, k, l, caps);
  }

  lemma ExecSameEnd(code: seq<Instr>, i: Instr, subj: Subject, p: int, q: int, s: nat, k: Stack, l: Stack,
                    caps: seq<CapEntry>)
    requires SameStack(code, k, l) && CopyableEnd(i) && !Settles(code, GIVEUP)
    ensures SameConf(code, Exec(i, subj, p, s, k, caps), Exec(i, subj, q, s, l, caps))
  {
    hide Settles, FinalTarget, SpanEnd, CloseCap, FailTo;
    SameFail(code, k, l, caps);
    if k.Push? {
      SameFail(code, k.rest, l.rest, caps);
    }
  }

  /** Labels that lead to the same place, on an instruction that stays where it is or commits. */
  lemma ExecSameLabel(code: seq<Instr>, i: Instr, j: Instr, subj: Subject, p: int, q: int, s: nat, k: Stack, l: Stack,
                      caps: seq<CapEntry>)
    requires SameStack(code, k, l) && HasLabel(i) && !i.IOpenCall? && HasLabel(j) && j == WithOff(i, j.off)
    requires SamePlace(code, p + i.off, q + j.off)
    requires p == q || CopyableLabel(i)
    ensures SameConf(code, Exec(i, subj, p, s, k, caps), Exec(j, subj, q, s, l, caps))
  {
    hide Settles, FinalTarget, SpanEnd, CloseCap, FailTo;
  }

  lemma OpenCallStuck(code: seq<Instr>, i: Instr, subj: Subject, q: int, s: nat, k: Stack, l: Stack, caps: seq<CapEntry>)
    requires i.IOpenCall?
    ensures SameConf(code, Exec(i, subj, q, s, k, caps), Exec(i, subj, q, s, l, caps))
  {
  }

  lemma GiveupUnsettled(code: seq<Instr>)
    ensures !Settles(code, GIVEUP)
  {
  }

  // ---------- Runs before and after ----------

  /** The run of `code` on `subj` from `x` ends in `o`. */
  ghost predicate Ends(code: seq<Instr>, subj: Subject, x: Conf, o: Conf)
  {
    !o.Run? && exists n: nat :: Steps(Machine(code, subj), x, n) == o
  }

  /** Programs of equal length whose runs end alike, from any configuration, on any subject. */
  ghost predicate SameBehaviour(c: seq<Instr>, d: seq<Instr>)
  {
    |c| == |d| && forall subj, x, o :: Ends(c, subj, x, o) <==> Ends(d, subj, x, o)
  }

  /** Programs whose runs need stacks of the same depth. */
  ghost predicate SameDepth(c: seq<Instr>, d: seq<Instr>)
  {
    forall subj, x, depth :: Exceeds(Machine(c, subj), x, depth) <==> Exceeds(Machine(d, subj), x, depth)
  }

  function Rewritten(code: seq<Instr>, i: nat): seq<Instr>
    requires i < |code|
  {
    code[i := Rewrite(code, i)]
  }

  predicate JumpsAt(code: seq<Instr>, i: int) { 0 <= i < |code| && code[i].IJmp? }

  lemma {:induction false} JumpsRun(code: seq<Instr>, subj: Subject, p: int, s: nat, k: Stack, caps: seq<CapEntry>, n: nat)
    requires NoJump(code, FinalTarget(code, p, n))
    ensures Steps(Machine(code, subj), Run(p, s, k, caps), ChainLength(code, p, n)) ==
            Run(FinalTarget(code, p, n), s, k, caps)
    decreases n
  {
    if !NoJump(code, p) {
      JumpsRun(code, subj, p + code[p].off, s, k, caps, n - 1);
    }
  }

  lemma {:induction false} JumpsKeepStack(code: seq<Instr>, subj: Subject, p: int, s: nat, k: Stack, caps: seq<CapEntry>,
                                          n: nat, j: nat)
    requires NoJump(code, FinalTarget(code, p, n)) && j <= ChainLength(code, p, n)
    ensures var y := Steps(Machine(code, subj), Run(p, s, k, caps), j); y.Run? && y.stack == k
    decreases n
  {
    if j > 0 {
      JumpsKeepStack(code, subj, p + code[p].off, s, k, caps, n - 1, j - 1);
    }
  }

  lemma JumpSettles(code: seq<Instr>, q: int)
    requires Tidy(code) && 0 <= q < |code|
    ensures Settles(code, q)
  {
    if code[q].IJmp? {
      SettlesBack(code, q);
    } else {
      FinalFixed(code, q);
    }
  }

  /** A jump of the rewritten program is a jump of the original, with its next or its last address. */
  lemma JumpTarget(code: seq<Instr>, i: nat, q: int) returns (t: int)
    requires Tidy(code) && i < |code| && JumpsAt(Rewritten(code, i), q)
    ensures t == q + Rewritten(code, i)[q].off && code[q].IJmp?
    ensures Settles(code, q) && Settles(code, t) && Final(code, t) == Final(code, q)
    ensures t == q + code[q].off || NoJump(code, t)
  {
    hide Settles, FinalTarget;
    assert code[q].IJmp?;
    t := q + Rewritten(code, i)[q].off;
    JumpSettles(code, q);
    SettlesSoon(code, q);
    if q == i {
      FinalFixed(code, t);
    } else {
      FinalNext(code, q);
    }
  }

  lemma StepJumps(m: Machine, y: Conf)
    requires y.Run? && JumpsAt(m.code, y.pc)
    ensures Step(m, y) == y.(pc := y.pc + m.code[y.pc].off)
  {
  }

  /** When the rewritten program jumps, the original has nothing to do. */
  lemma JumpStep(code: seq<Instr>, i: nat, subj: Subject, x: Conf, y: Conf)
    requires Tidy(code) && i < |code| && SameConf(code, x, y) && y.Run? && JumpsAt(Rewritten(code, i), y.pc)
    ensures var y1 := Step(Machine(Rewritten(code, i), subj), y);
            && SameConf(code, x, y1) && y1.Run?
            && Settles(code, y.pc) && Settles(code, y1.pc)
            && NoJump(code, Final(code, y.pc)) && NoJump(code, Final(code, y1.pc))
            && ChainLength(code, y1.pc, |code|) < ChainLength(code, y.pc, |code|)
  {
    hide Settles, FinalTarget, SameStack, Step, Rewritten;
    var t := JumpTarget(code, i, y.pc);
    StepJumps(Machine(Rewritten(code, i), subj), y);
    SettlesSoon(code, y.pc);
    SettlesSoon(code, t);
    ChainShorter(code, y.pc, t);
  }

  lemma ChainShorter(code: seq<Instr>, q: int, t: int)
    requires 0 <= q < |code| && code[q].IJmp? && NoJump(code, Final(code, q)) && NoJump(code, Final(code, t))
    requires t == q + code[q].off || NoJump(code, t)
    ensures ChainLength(code, t, |code|) < ChainLength(code, q, |code|)
  {
    if t == q + code[q].off {
      ChainLengthSame(code, t, |code|, |code| - 1);
    }
  }

  /** The rewritten instruction does at once what the original does after its jumps. */
  lemma RewriteExec(code: seq<Instr>, i: nat, q: int, subj: Subject, s: nat, k: Stack, l: Stack, caps: seq<CapEntry>)
    requires Tidy(code) && i < |code| && 0 <= q < |code| && SameStack(code, k, l)
    requires !Rewritten(code, i)[q].IJmp?
    ensures var f := Final(code, q);
            NoJump(code, f) &&
            SameConf(code, Exec(code[f], subj, f, s, k, caps), Exec(Rewritten(code, i)[q], subj, q, s, l, caps))
  {
    hide Settles, FinalTarget, SameStack, SameConf, Exec;
    GiveupUnsettled(code);
    JumpSettles(code, q);
    SettlesSoon(code, q);
    var f := Final(code, q);
    if !code[q].IJmp? {
      FinalFixed(code, q);
    }
    if HasLabel(code[f]) {
      SettlesSoon(code, f + code[f].off);
      FinalFixed(code, Final(code, f + code[f].off));
    }
    var ins := Rewritten(code, i)[q];
    if CopyableEnd(ins) {
      ExecSameEnd(code, ins, subj, f, q, s, k, l, caps);
    } else if ins.IOpenCall? {
      OpenCallStuck(code, ins, subj, q, s, k, l, caps);
    } else if HasLabel(ins) {
      ExecSameLabel(code, code[f], ins, subj, f, q, s, k, l, caps);
    } else {
      ExecSamePlain(code, ins, subj, f, q, s, k, l, caps);
    }
  }

  /** Any other step of the rewritten program is matched by some jumps and a step of the original. */
  lemma WorkStep(code: seq<Instr>, i: nat, subj: Subject, x: Conf, y: Conf) returns (d: nat)
    requires Tidy(code) && i < |code| && SameConf(code, x, y) && y.Run? && !JumpsAt(Rewritten(code, i), y.pc)
    ensures var m := Machine(code, subj);
            && Steps(m, x, d).Run?
            && (forall j: nat :: j <= d ==> Steps(m, x, j).Run? && Steps(m, x, j).stack == x.stack)
            && SameConf(code, Steps(m, x, d + 1), Step(Machine(Rewritten(code, i), subj), y))
  {
    hide Settles, FinalTarget, Exec, Rewrite;
    var m := Machine(code, subj);
    var q := y.pc;
    if 0 <= q < |code| {
      JumpSettles(code, q);
      RewriteExec(code, i, q, subj, x.s, x.stack, y.stack, x.caps);
      SettlesSoon(code, x.pc);
      var f := Final(code, q);
      d := ChainLength(code, x.pc, |code|);
      JumpsRun(code, subj, x.pc, x.s, x.stack, x.caps, |code|);
      forall j: nat | j <= d ensures Steps(m, x, j).Run? && Steps(m, x, j).stack == x.stack {
        JumpsKeepStack(code, subj, x.pc, x.s, x.stack, x.caps, |code|, j);
      }
      StepsAdd(m, x, d, 1);
      assert Steps(m, x, d) == Run(f, x.s, x.stack, x.caps);
      assert Steps(m, Steps(m, x, d), 1) == Step(m, Steps(m, x, d)) by {
        assert Steps(m, Step(m, Steps(m, x, d)), 0) == Step(m, Steps(m, x, d));
      }
      assert q != GIVEUP && f != GIVEUP;
    } else {
      d := 0;
      if Settles(code, x.pc) && Settles(code, q) {
        SettlesSoon(code, q);
      }
      assert Steps(m, x, 1) == Steps(m, Step(m, x), 0);
    }
  }

  lemma {:induction false} Forward(code: seq<Instr>, i: nat, subj: Subject, x: Conf, y: Conf, n: nat) returns (k: nat)
    requires Tidy(code) && i < |code| && SameConf(code, x, y)
    requires !Steps(Machine(code, subj), x, n).Run?
    ensures Steps(Machine(Rewritten(code, i), subj), y, k) == Steps(Machine(code, subj), x, n)
    decreases n, if y.Run? && NoJump(code, Final(code, y.pc)) then ChainLength(code, y.pc, |code|) else 0
  {
    hide Settles, FinalTarget, Exec, SameStack, Rewrite, SamePlace;
    var m, m' := Machine(code, subj), Machine(Rewritten(code, i), subj);
    if !x.Run? {
      StepsHalted(m, x, n);
      k := 0;
    } else if JumpsAt(Rewritten(code, i), y.pc) {
      JumpStep(code, i, subj, x, y);
      k := Forward(code, i, subj, x, Step(m', y), n);
      k := k + 1;
    } else {
      var d := WorkStep(code, i, subj, x, y);
      StepsAdd(m, x, d + 1, n - d - 1);
      k := Forward(code, i, subj, Steps(m, x, d + 1), Step(m', y), n - d - 1);
      k := k + 1;
    }
  }

  lemma {:induction false} Backward(code: seq<Instr>, i: nat, subj: Subject, x: Conf, y: Conf, n: nat) returns (k: nat)
    requires Tidy(code) && i < |code| && SameConf(code, x, y)
    requires !Steps(Machine(Rewritten(code, i), subj), y, n).Run?
    ensures Steps(Machine(code, subj), x, k) == Steps(Machine(Rewritten(code, i), subj), y, n)
    decreases n
  {
    hide Settles, FinalTarget, Exec, SameStack, Rewrite, SamePlace;
    var m, m' := Machine(code, subj), Machine(Rewritten(code, i), subj);
    if !y.Run? {
      StepsHalted(m', y, n);
      k := 0;
    } else if JumpsAt(Rewritten(code, i), y.pc) {
      JumpStep(code, i, subj, x, y);
      k := Backward(code, i, subj, x, Step(m', y), n - 1);
    } else {
      var d := WorkStep(code, i, subj, x, y);
      k := Backward(code, i, subj, Steps(m, x, d + 1), Step(m', y), n - 1);
      StepsAdd(m, x, d + 1, k);
      k := d + 1 + k;
    }
  }

  lemma {:induction false} SameStackDepth(code: seq<Instr>, k: Stack, l: Stack)
    requires SameStack(code, k, l)
    ensures Depth(k) == Depth(l)
  {
    if k.Push? {
      SameStackDepth(code, k.rest, l.rest);
    }
  }

  lemma {:induction false} DeepForward(code: seq<Instr>, i: nat, subj: Subject, x: Conf, y: Conf, n: nat, depth: nat)
      returns (k: nat)
    requires Tidy(code) && i < |code| && SameConf(code, x, y)
    requires DeepAt(Machine(code, subj), x, n, depth)
    ensures DeepAt(Machine(Rewritten(code, i), subj), y, k, depth)
    decreases n, if y.Run? && NoJump(code, Final(code, y.pc)) then ChainLength(code, y.pc, |code|) else 0
  {
    hide Settles, FinalTarget, Exec, SameStack, Rewrite, SamePlace;
    var m, m' := Machine(code, subj), Machine(Rewritten(code, i), subj);
    if !x.Run? {
      StepsHalted(m, x, n);
      assert false;
    }
    SameStackDepth(code, x.stack, y.stack);
    if Depth(y.stack) > depth {
      k := 0;
    } else if JumpsAt(Rewritten(code, i), y.pc) {
      JumpStep(code, i, subj, x, y);
      k := DeepForward(code, i, subj, x, Step(m', y), n, depth);
      k := k + 1;
    } else {
      var d := WorkStep(code, i, subj, x, y);
      StepsAdd(m, x, d + 1, n - d - 1);
      k := DeepForward(code, i, subj, Steps(m, x, d + 1), Step(m', y), n - d - 1, depth);
      k := k + 1;
    }
  }

  lemma {:induction false} DeepBackward(code: seq<Instr>, i: nat, subj: Subject, x: Conf, y: Conf, n: nat, depth: nat)
      returns (k: nat)
    requires Tidy(code) && i < |code| && SameConf(code, x, y)
    requires DeepAt(Machine(Rewritten(code, i), subj), y, n, depth)
    ensures DeepAt(Machine(code, subj), x, k, depth)
    decreases n
  {
    hide Settles, FinalTarget, Exec, SameStack, Rewrite, SamePlace;
    var m, m' := Machine(code, subj), Machine(Rewritten(code, i), subj);
    if !y.Run? {
      StepsHalted(m', y, n);
      assert false;
    }
    SameStackDepth(code, x.stack, y.stack);
    if Depth(x.stack) > depth {
      k := 0;
    } else if JumpsAt(Rewritten(code, i), y.pc) {
      JumpStep(code, i, subj, x, y);
      k := DeepBackward(code, i, subj, x, Step(m', y), n - 1, depth);
    } else {
      var d := WorkStep(code, i, subj, x, y);
      k := DeepBackward(code, i, subj, Steps(m, x, d + 1), Step(m', y), n - 1, depth);
      StepsAdd(m, x, d + 1, k);
      k := d + 1 + k;
    }
  }

  /** One visit of the pass keeps the depth of the stack that any run needs. */
  lemma RewriteKeepsDepth(code: seq<Instr>, i: nat)
    requires Tidy(code) && i < |code|
    ensures SameDepth(code, Rewritten(code, i))
  {
    hide Steps, Rewrite, Tidy, DeepAt;
    forall subj, x, depth
      ensures Exceeds(Machine(code, subj), x, depth) <==> Exceeds(Machine(Rewritten(code, i), subj), x, depth)
    {
      ConfRefl(code, x);
      if Exceeds(Machine(code, subj), x, depth) {
        var n: nat :| DeepAt(Machine(code, subj), x, n, depth);
        var k := DeepForward(code, i, subj, x, x, n, depth);
      }
      if Exceeds(Machine(Rewritten(code, i), subj), x, depth) {
        var n: nat :| DeepAt(Machine(Rewritten(code, i), subj), x, n, depth);
        var k := DeepBackward(code, i, subj, x, x, n, depth);
      }
    }
  }

  /** One visit of the pass keeps every outcome of the program. */
  lemma RewritePreserves(code: seq<Instr>, i: nat)
    requires Tidy(code) && i < |code|
    ensures SameBehaviour(code, Rewritten(code, i))
  {
    hide Steps, Rewrite, Tidy;
    forall subj, x, o ensures Ends(code, subj, x, o) <==> Ends(Rewritten(code, i), subj, x, o) {
      ConfRefl(code, x);
      if Ends(code, subj, x, o) {
        var n: nat :| Steps(Machine(code, subj), x, n) == o;
        var k := Forward(code, i, subj, x, x, n);
      }
      if Ends(Rewritten(code, i), subj, x, o) {
        var n: nat :| Steps(Machine(Rewritten(code, i), subj), x, n) == o;
        var k := Backward(code, i, subj, x, x, n);
      }
    }
  }

  lemma ConfRefl(code: seq<Instr>, x: Conf)
    ensures SameConf(code, x, x)
  {
    if x.Run? {
      SameStackRefl(code, x.stack);
    }
  }

  // ---------- The pass keeps labels in order ----------

  lemma {:induction false} SettlesStill(code: seq<Instr>, i: nat, p: int, n: nat)
    requires Tidy(code) && i < |code| && NoJump(code, FinalTarget(code, p, n))
    ensures Settles(Rewritten(code, i), p)
    decreases n
  {
    hide Tidy, Settles;
    var d := Rewritten(code, i);
    if p == i {
      TargetSettled(code, i);
    } else if NoJump(code, p) {
      FinalFixed(d, p);
    } else {
      SettlesStill(code, i, p + code[p].off, n - 1);
      SettlesBack(d, p);
    }
  }

  lemma TargetSettled(code: seq<Instr>, i: nat)
    requires Tidy(code) && i < |code|
    ensures Settles(Rewritten(code, i), i)
  {
    hide Settles, FinalTarget;
    var d := Rewritten(code, i);
    JumpSettles(code, i);
    SettlesSoon(code, i);
    if d[i].IJmp? {
      var ft := Final(code, i);
      FinalFixed(d, ft);
      SettlesBack(d, i);
    } else {
      FinalFixed(d, i);
    }
  }

  lemma RewriteTidy(code: seq<Instr>, i: nat)
    requires Tidy(code) && i < |code|
    ensures Tidy(Rewritten(code, i))
  {
    hide Settles, FinalTarget;
    var d := Rewritten(code, i);
    forall p | 0 <= p < |d| && HasLabel(d[p]) ensures Settles(d, p + d[p].off) {
      if p != i {
        SettlesKept(code, i, p + code[p].off);
      } else {
        JumpSettles(code, i);
        SettlesSoon(code, i);
        var f := Final(code, i);
        if code[i].IJmp? && d[i].IJmp? {
          FinalFixed(code, f);
          SettlesKept(code, i, f);
        } else if code[i].IJmp? {
          SettlesSoon(code, f + code[f].off);
          FinalFixed(code, Final(code, f + code[f].off));
          SettlesKept(code, i, Final(code, f + code[f].off));
        } else if code[i].IOpenCall? {
          SettlesKept(code, i, i + code[i].off);
        } else {
          SettlesSoon(code, i + code[i].off);
          FinalFixed(code, Final(code, i + code[i].off));
          SettlesKept(code, i, Final(code, i + code[i].off));
        }
      }
    }
  }

  lemma SettlesKept(code: seq<Instr>, i: nat, p: int)
    requires Tidy(code) && i < |code| && Settles(code, p)
    ensures Settles(Rewritten(code, i), p)
  {
    hide FinalTarget, Tidy;
    var n: nat :| NoJump(code, FinalTarget(code, p, n));
    SettlesStill(code, i, p, n);
  }

  lemma SameBehaviourTrans(a: seq<Instr>, b: seq<Instr>, c: seq<Instr>)
    requires SameBehaviour(a, b) && SameBehaviour(b, c)
    ensures SameBehaviour(a, c)
  {
    hide Ends;
    forall subj, x, o ensures Ends(a, subj, x, o) <==> Ends(c, subj, x, o) {
      assert Ends(a, subj, x, o) <==> Ends(b, subj, x, o);
    }
  }

  lemma SameDepthTrans(a: seq<Instr>, b: seq<Instr>, c: seq<Instr>)
    requires SameDepth(a, b) && SameDepth(b, c)
    ensures SameDepth(a, c)
  {
    hide Exceeds;
    forall subj, x, depth ensures Exceeds(Machine(a, subj), x, depth) <==> Exceeds(Machine(c, subj), x, depth) {
      assert Exceeds(Machine(a, subj), x, depth) <==> Exceeds(Machine(b, subj), x, depth);
    }
  }

  // ---------- What the pass achieves ----------

  /** The label at `j` leads to no jump, and a jump to nothing that could stand in its place. */
  predicate Threaded(code: seq<Instr>, j: nat)
    requires j < |code|
  {
    HasLabel(code[j]) && !code[j].IOpenCall? ==>
      var t := j + code[j].off;
      && NoJump(code, t)
      && (code[j].IJmp? ==> !CopyableEnd(code[t]) && !CopyableLabel(code[t]))
  }

  /** A visit settles the label it visits, but that of a copied commit only at the next one. */
  lemma VisitThreads(code: seq<Instr>, i: nat)
    requires i < |code| && Tidy(code)
    ensures Threaded(Rewritten(code, i), i) || (code[i].IJmp? && CopyableLabel(Rewritten(code, i)[i]))
  {
    hide Final, Settles;
    if HasLabel(code[i]) {
      SettlesSoon(code, i + code[i].off);
      if code[i].IJmp? {
        SettlesBack(code, i);
        SettlesSoon(code, i);
      }
    }
  }

  /** A visit leaves settled what is settled. */
  lemma ThreadedKept(code: seq<Instr>, i: nat, j: nat)
    requires i < |code| && j < |code| && j != i && Threaded(code, j)
    ensures Threaded(Rewritten(code, i), j)
  {
    hide Final;
  }
}
