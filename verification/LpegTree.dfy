/** PEG patterns as trees, and what a pattern means on a subject. */
module LpegTree {

  type Byte = b: int | 0 <= b < 256

  type Charset = set<Byte>

  /** All 256 characters: the follow set of a pattern that nothing follows. */
  const FULLSET: Charset := set b: Byte | 0 <= b < 256

  /** The most rules a grammar may have. */
  const MAXRULES := 200

  /** The largest number of characters a pattern can look behind. */
  const MAXBEHIND := 255

  /** The largest length a one-instruction capture can record. */
  const MAXOFF := 15

  /** A TRule list is the `rules` sequence of its grammar and a call names its rule by number. */
  datatype Tree =
    | TChar(c: Byte)
    | TSet(cs: Charset)
    | TAny
    | TTrue
    | TFalse
    | TRep(body: Tree)
    | TSeq(first: Tree, second: Tree)
    | TChoice(first: Tree, second: Tree)
    | TNot(body: Tree)
    | TAnd(body: Tree)
    | TCall(rule: nat)
    | TGrammar(rules: seq<Tree>)
    | TBehind(back: nat, body: Tree)
    | TCapture(kind: nat, key: int, body: Tree)

  type Rules = seq<Tree>

  type Subject = seq<Byte>

  /** What a capture pattern records: the matched slice and the captures made inside it. */
  datatype CapTree = CapTree(kind: nat, key: int, start: nat, end: nat, inner: seq<CapTree>)

  /** `Running` means that the allowance of rule calls and loop rounds ran out. */
  datatype Outcome = Match(end: nat, caps: seq<CapTree>) | NoMatch | Running

  function ToCharset(t: Tree): (r: Charset)
    requires t.TChar? || t.TSet? || t.TAny?
  {
    match t
    case TChar(c) => {c}
    case TSet(cs) => cs
    case TAny => FULLSET
  }

  predicate IsCharset(t: Tree) { t.TChar? || t.TSet? || t.TAny? }

  /**
   * The meaning of pattern `t` under the rules `g` at position `s`. Each rule call and each further
   * round of a repetition takes one unit of `fuel`, so a pattern that has an answer has the same
   * answer for every larger fuel (EvalMoreFuel).
   */
  function Eval(fuel: nat, g: Rules, t: Tree, subj: Subject, s: nat): (r: Outcome)
    requires s <= |subj|
    ensures r.Match? ==> s <= r.end <= |subj|
    decreases fuel, t
  {
    match t
    case TChar(_) => EvalSet(ToCharset(t), subj, s)
    case TSet(_) => EvalSet(ToCharset(t), subj, s)
    case TAny => EvalSet(ToCharset(t), subj, s)
    case TTrue => Match(s, [])
    case TFalse => NoMatch
    case TRep(p) =>
      (match Eval(fuel, g, p, subj, s)
       case Running => Running
       case NoMatch => Match(s, [])
       case Match(s1, c1) =>
         if fuel == 0 then Running
         else
           match Eval(fuel - 1, g, t, subj, s1)
           case Match(s2, c2) => Match(s2, c1 + c2)
           case other => other)
    case TSeq(p1, p2) =>
      (match Eval(fuel, g, p1, subj, s)
       case Match(s1, c1) =>
         (match Eval(fuel, g, p2, subj, s1)
          case Match(s2, c2) => Match(s2, c1 + c2)
          case other => other)
       case other => other)
    case TChoice(p1, p2) =>
      (match Eval(fuel, g, p1, subj, s)
       case NoMatch => Eval(fuel, g, p2, subj, s)
       case other => other)
    case TNot(p) =>
      (match Eval(fuel, g, p, subj, s)
       case Match(_, _) => NoMatch
       case NoMatch => Match(s, [])
       case Running => Running)
    case TAnd(p) =>
      (match Eval(fuel, g, p, subj, s)
       case Match(_, _) => Match(s, [])
       case other => other)
    case TBehind(n, p) =>
      if n > s then NoMatch
      else
        (match Eval(fuel, g, p, subj, s - n)
         case Match(_, _) => Match(s, [])
         case other => other)
    case TCapture(kind, key, p) =>
      (match Eval(fuel, g, p, subj, s)
       case Match(s1, c1) => Match(s1, [CapTree(kind, key, s, s1, c1)])
       case other => other)
    case TCall(k) =>
      if k >= |g| then NoMatch
      else if fuel == 0 then Running
      else Eval(fuel - 1, g, g[k], subj, s)
    case TGrammar(rules) =>
      if rules == [] then NoMatch else Eval(fuel, rules, rules[0], subj, s)
  }

  function EvalSet(cs: Charset, subj: Subject, s: nat): (r: Outcome)
    requires s <= |subj|
    ensures r.Match? ==> s < r.end <= |subj|
  {
    if s < |subj| && subj[s] in cs then Match(s + 1, []) else NoMatch
  }

  lemma {:induction false} EvalMoreFuel(fuel: nat, more: nat, g: Rules, t: Tree, subj: Subject, s: nat)
    requires s <= |subj| && fuel <= more
    requires !Eval(fuel, g, t, subj, s).Running?
    ensures Eval(more, g, t, subj, s) == Eval(fuel, g, t, subj, s)
    decreases fuel, t
  {
    match t
    case TChar(_) =>
    case TSet(_) =>
    case TAny =>
    case TTrue =>
    case TFalse =>
    case TRep(p) =>
      EvalMoreFuel(fuel, more, g, p, subj, s);
      var r := Eval(fuel, g, p, subj, s);
      if r.Match? {
        EvalMoreFuel(fuel - 1, more - 1, g, t, subj, r.end);
      }
    case TSeq(p1, p2) =>
      EvalMoreFuel(fuel, more, g, p1, subj, s);
      var r := Eval(fuel, g, p1, subj, s);
      if r.Match? {
        EvalMoreFuel(fuel, more, g, p2, subj, r.end);
      }
    case TChoice(p1, p2) =>
      EvalMoreFuel(fuel, more, g, p1, subj, s);
      if Eval(fuel, g, p1, subj, s).NoMatch? {
        EvalMoreFuel(fuel, more, g, p2, subj, s);
      }
    case TNot(p) => EvalMoreFuel(fuel, more, g, p, subj, s);
    case TAnd(p) => EvalMoreFuel(fuel, more, g, p, subj, s);
    case TBehind(n, p) => if n <= s { EvalMoreFuel(fuel, more, g, p, subj, s - n); }
    case TCapture(_, _, p) => EvalMoreFuel(fuel, more, g, p, subj, s);
    case TCall(k) => if k < |g| { EvalMoreFuel(fuel - 1, more - 1, g, g[k], subj, s); }
    case TGrammar(rules) => if rules != [] { EvalMoreFuel(fuel, more, rules, rules[0], subj, s); }
  }
}
