/** The matching machine: its instructions, one step of it, and runs. */
module LpegMachine {
  import opened LpegTree

  /**
   * One element per instruction. An offset counts instructions, from the instruction that holds it.
   * A call that still names its rule by number is an IOpenCall.
   */
  datatype Instr =
    | IAny
    | IChar(c: Byte)
    | ISet(cs: Charset)
    | ITestAny(off: int)
    | ITestChar(off: int, c: Byte)
    | ITestSet(off: int, cs: Charset)
    | ISpan(cs: Charset)
    | IBehind(n: nat)
    | IRet
    | IEnd
    | IChoice(off: int)
    | IJmp(off: int)
    | ICall(off: int)
    | IOpenCall(off: int, rule: nat)
    | ICommit(off: int)
    | IPartialCommit(off: int)
    | IBackCommit(off: int)
    | IFailTwice
    | IFail
    | IFullCapture(kind: nat, key: int, len: nat)
    | IOpenCapture(kind: nat, key: int)
    | ICloseCapture

  /** Instructions whose second slot is a label. */
  predicate HasLabel(i: Instr)
  {
    i.ITestAny? || i.ITestChar? || i.ITestSet? || i.IChoice? || i.IJmp? || i.ICall? || i.IOpenCall? ||
    i.ICommit? || i.IPartialCommit? || i.IBackCommit?
  }

  /** The instruction under the bottom of the stack, which ends a failed match. */
  const GIVEUP := -1

  /** The kind of a capture entry that closes another one. */
  const CCLOSE := 0

  /** An entry of the capture list: siz is 0 for an open entry, else the length plus one. */
  datatype CapEntry = CapEntry(pos: nat, idx: int, kind: nat, siz: nat)

  datatype Frame = Choice(p: int, s: nat, level: nat) | Call(p: int)

  datatype Stack = Bottom | Push(top: Frame, rest: Stack)

  datatype Machine = Machine(code: seq<Instr>, subj: Subject)

  /** Stuck stands for a failed assertion of the interpreter. */
  datatype Conf =
    | Run(pc: int, s: nat, stack: Stack, caps: seq<CapEntry>)
    | Done(end: nat, caps: seq<CapEntry>)
    | GaveUp
    | Stuck

  /** Backtrack: drop pending calls and resume at the last choice. */
  function FailTo(k: Stack, caps: seq<CapEntry>): Conf
  {
    match k
    case Bottom => Stuck
    case Push(Call(_), rest) => FailTo(rest, caps)
    case Push(Choice(p, s, level), rest) => Run(p, s, rest, Undo(caps, level))
  }

  function Undo(caps: seq<CapEntry>, level: nat): seq<CapEntry>
  {
    if level <= |caps| then caps[..level] else caps
  }

  predicate AtChar(subj: Subject, s: nat, cs: Charset) { s < |subj| && subj[s] in cs }

  /** The position after the longest run of characters of `cs`. */
  function SpanEnd(subj: Subject, s: nat, cs: Charset): nat
    decreases |subj| - s
  {
    if AtChar(subj, s, cs) then SpanEnd(subj, s + 1, cs) else s
  }

  /** Close the open capture on top as a full one if nothing is inside it and it is short. */
  function CloseCap(caps: seq<CapEntry>, s: nat): seq<CapEntry>
    requires caps != []
  {
    var last := caps[|caps| - 1];
    if last.siz == 0 && s - last.pos < 255 && last.pos <= s then
      caps[|caps| - 1 := last.(siz := s - last.pos + 1)]
    else
      caps + [CapEntry(s, 0, CCLOSE, 1)]
  }

  function Exec(i: Instr, subj: Subject, pc: int, s: nat, k: Stack, caps: seq<CapEntry>): Conf
  {
    match i
    case IEnd =>
      if k.Push? && k.top.Choice? && k.top.p == GIVEUP && k.rest.Bottom? then Done(s, caps) else Stuck
    case IRet => if k.Push? && k.top.Call? then Run(k.top.p, s, k.rest, caps) else Stuck
    case IAny => if s < |subj| then Run(pc + 1, s + 1, k, caps) else FailTo(k, caps)
    case IChar(c) => if AtChar(subj, s, {c}) then Run(pc + 1, s + 1, k, caps) else FailTo(k, caps)
    case ISet(cs) => if AtChar(subj, s, cs) then Run(pc + 1, s + 1, k, caps) else FailTo(k, caps)
    case ITestAny(off) => if s < |subj| then Run(pc + 1, s, k, caps) else Run(pc + off, s, k, caps)
    case ITestChar(off, c) =>
      if AtChar(subj, s, {c}) then Run(pc + 1, s, k, caps) else Run(pc + off, s, k, caps)
    case ITestSet(off, cs) =>
      if AtChar(subj, s, cs) then Run(pc + 1, s, k, caps) else Run(pc + off, s, k, caps)
    case ISpan(cs) => Run(pc + 1, SpanEnd(subj, s, cs), k, caps)
    case IBehind(n) => if n > s then FailTo(k, caps) else Run(pc + 1, s - n, k, caps)
    case IJmp(off) => Run(pc + off, s, k, caps)
    case IChoice(off) => Run(pc + 1, s, Push(Choice(pc + off, s, |caps|), k), caps)
    case ICall(off) => Run(pc + off, s, Push(Call(pc + 1), k), caps)
    case ICommit(off) => if k.Push? && k.top.Choice? then Run(pc + off, s, k.rest, caps) else Stuck
    case IPartialCommit(off) =>
      if k.Push? && k.top.Choice? then Run(pc + off, s, Push(Choice(k.top.p, s, |caps|), k.rest), caps)
      else Stuck
    case IBackCommit(off) =>
      if k.Push? && k.top.Choice? then Run(pc + off, k.top.s, k.rest, Undo(caps, k.top.level)) else Stuck
    case IFailTwice => if k.Push? then FailTo(k.rest, caps) else Stuck
    case IFail => FailTo(k, caps)
    case IFullCapture(kind, key, len) =>
      if len <= s then Run(pc + 1, s, k, caps + [CapEntry(s - len, key, kind, len + 1)]) else Stuck
    case IOpenCapture(kind, key) => Run(pc + 1, s, k, caps + [CapEntry(s, key, kind, 0)])
    case ICloseCapture => if caps == [] then Stuck else Run(pc + 1, s, k, CloseCap(caps, s))
    case IOpenCall(_, _) => Stuck
  }

  function Step(m: Machine, x: Conf): Conf
  {
    match x
    case Run(pc, s, k, caps) =>
      if pc == GIVEUP then (if k.Bottom? then GaveUp else Stuck)
      else if 0 <= pc < |m.code| then Exec(m.code[pc], m.subj, pc, s, k, caps)
      else Stuck
    case _ => x
  }

  function Steps(m: Machine, x: Conf, n: nat): Conf
    decreases n
  {
    if n == 0 then x else Steps(m, Step(m, x), n - 1)
  }

  /** The configuration in which a match starts. */
  function Start(s: nat): Conf { Run(0, s, Push(Choice(GIVEUP, s, 0), Bottom), []) }

  lemma {:induction false} StepsAdd(m: Machine, x: Conf, n: nat, k: nat)
    ensures Steps(m, x, n + k) == Steps(m, Steps(m, x, n), k)
    decreases n
  {
    if n > 0 {
      StepsAdd(m, Step(m, x), n - 1, k);
    }
  }

  lemma {:induction false} StepsHalted(m: Machine, x: Conf, n: nat)
    requires !x.Run?
    ensures Steps(m, x, n) == x
    decreases n
  {
    if n > 0 {
      StepsHalted(m, x, n - 1);
    }
  }

  function Depth(k: Stack): nat { if k.Bottom? then 0 else 1 + Depth(k.rest) }

  /** After `n` steps more than `depth` frames are on the stack. */
  predicate DeepAt(m: Machine, x: Conf, n: nat, depth: nat)
  {
    var y := Steps(m, x, n);
    y.Run? && Depth(y.stack) > depth
  }

  /** Some configuration of the run has more than `depth` frames on its stack. */
  ghost predicate Exceeds(m: Machine, x: Conf, depth: nat)
  {
    exists n: nat :: DeepAt(m, x, n, depth)
  }

  /** Two configurations whose runs meet, and so have the same outcome. */
  ghost predicate Joins(m: Machine, x: Conf, y: Conf)
  {
    exists i: nat, j: nat :: Steps(m, x, i) == Steps(m, y, j)
  }

  lemma JoinsMeet(m: Machine, x: Conf, y: Conf, i: nat, j: nat)
    requires Steps(m, x, i) == Steps(m, y, j)
    ensures Joins(m, x, y)
  {
  }

  lemma JoinsRefl(m: Machine, x: Conf)
    ensures Joins(m, x, x)
  {
    JoinsMeet(m, x, x, 0, 0);
  }

  lemma JoinsSym(m: Machine, x: Conf, y: Conf)
    requires Joins(m, x, y)
    ensures Joins(m, y, x)
  {
    var i: nat, j: nat :| Steps(m, x, i) == Steps(m, y, j);
    JoinsMeet(m, y, x, j, i);
  }

  lemma JoinsTrans(m: Machine, x: Conf, y: Conf, z: Conf)
    requires Joins(m, x, y) && Joins(m, y, z)
    ensures Joins(m, x, z)
  {
    var i: nat, j: nat :| Steps(m, x, i) == Steps(m, y, j);
    var k: nat, l: nat :| Steps(m, y, k) == Steps(m, z, l);
    StepsAdd(m, x, i, k);
    StepsAdd(m, y, j, k);
    StepsAdd(m, y, k, j);
    StepsAdd(m, z, l, j);
    JoinsMeet(m, x, z, i + k, l + j);
  }

  lemma JoinsStep(m: Machine, x: Conf)
    ensures Joins(m, x, Step(m, x))
  {
    assert Steps(m, x, 1) == Steps(m, Step(m, x), 0);
    JoinsMeet(m, x, Step(m, x), 1, 0);
  }

  /** Step first, then join. */
  lemma JoinsNext(m: Machine, x: Conf, y: Conf)
    requires Joins(m, Step(m, x), y)
    ensures Joins(m, x, y)
  {
    JoinsStep(m, x);
    JoinsTrans(m, x, Step(m, x), y);
  }

  /** Whoever joins a halted configuration reaches it. */
  lemma JoinsHalted(m: Machine, x: Conf, y: Conf) returns (n: nat)
    requires Joins(m, x, y) && !y.Run?
    ensures Steps(m, x, n) == y
  {
    var i: nat, j: nat :| Steps(m, x, i) == Steps(m, y, j);
    StepsHalted(m, y, j);
    n := i;
  }

  /** Every choice on the stack was made when at most `n` capture entries existed. */
  predicate LevelsAtMost(k: Stack, n: nat)
  {
    match k
    case Bottom => true
    case Push(Choice(_, _, level), rest) => level <= n && LevelsAtMost(rest, level)
    case Push(Call(_), rest) => LevelsAtMost(rest, n)
  }

  lemma {:induction false} LevelsWeaken(k: Stack, n: nat, n': nat)
    requires LevelsAtMost(k, n) && n <= n'
    ensures LevelsAtMost(k, n')
  {
    match k
    case Push(Call(_), rest) => LevelsWeaken(rest, n, n');
    case _ =>
  }

  /** Entries added above the last choice do not survive backtracking to it. */
  lemma {:induction false} FailForgets(k: Stack, caps: seq<CapEntry>, extra: seq<CapEntry>)
    requires LevelsAtMost(k, |caps|)
    ensures FailTo(k, caps + extra) == FailTo(k, caps)
  {
    match k
    case Bottom =>
    case Push(Call(_), rest) => FailForgets(rest, caps, extra);
    case Push(Choice(_, _, level), _) =>
      assert (caps + extra)[..level] == caps[..level];
  }

  /** The entries the machine leaves for a list of captures. */
  function Encode(cs: seq<CapTree>): seq<CapEntry>
  {
    if cs == [] then [] else EncodeOne(cs[0]) + Encode(cs[1..])
  }

  /** A capture with nothing inside and fewer than 255 characters takes one full entry. */
  function EncodeOne(c: CapTree): seq<CapEntry>
  {
    if c.inner == [] && c.start <= c.end && c.end - c.start < 255 then
      [CapEntry(c.start, c.key, c.kind, c.end - c.start + 1)]
    else
      [CapEntry(c.start, c.key, c.kind, 0)] + Encode(c.inner) + [CapEntry(c.end, 0, CCLOSE, 1)]
  }

  lemma {:induction false} EncodeAppend(a: seq<CapTree>, b: seq<CapTree>)
    ensures Encode(a + b) == Encode(a) + Encode(b)
  {
    if a == [] {
      assert a + b == b;
    } else {
      assert (a + b)[0] == a[0] && (a + b)[1..] == a[1..] + b;
      EncodeAppend(a[1..], b);
    }
  }

  /** What is left by captures ends in a full or a closing entry, never in an open one. */
  lemma {:induction false} EncodeLast(cs: seq<CapTree>)
    requires cs != []
    ensures Encode(cs) != [] && Encode(cs)[|Encode(cs)| - 1].siz != 0
  {
    if |cs| > 1 {
      EncodeLast(cs[1..]);
    } else {
      assert Encode(cs[1..]) == [];
    }
  }
}
