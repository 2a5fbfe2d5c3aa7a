/**
 * The static analyses that steer code generation. They follow rule calls, which the original does
 * without a bound; here `chase` bounds the calls followed inside one grammar, and running out gives
 * the answer that permits no optimization. For grammars the loader accepts no bound of at least
 * CHASE is ever reached (CheckauxSaturates, FirstSaturates and HeadfailSaturates in LpegVerify).
 */
module LpegAnalysis {
  import opened LpegTree

  const CHASE := MAXRULES + 1

  /** How deep grammars are nested in a pattern. */
  function Nest(t: Tree): nat
    decreases t
  {
    match t
    case TRep(p) => Nest(p)
    case TSeq(p1, p2) => Most(Nest(p1), Nest(p2))
    case TChoice(p1, p2) => Most(Nest(p1), Nest(p2))
    case TNot(p) => Nest(p)
    case TAnd(p) => Nest(p)
    case TBehind(_, p) => Nest(p)
    case TCapture(_, _, p) => Nest(p)
    case TGrammar(rules) => 1 + NestRules(rules)
    case _ => 0
  }

  function NestRules(g: Rules): (n: nat)
    ensures forall k :: 0 <= k < |g| ==> Nest(g[k]) <= n
    decreases g
  {
    if g == [] then 0 else Most(Nest(g[0]), NestRules(g[1..]))
  }

  function Most(a: nat, b: nat): nat { if a < b then b else a }

  /** Following a call does not lead to deeper nesting, entering a grammar leads to less. */
  function Rank(g: Rules, t: Tree): nat { Most(NestRules(g), Nest(t)) }

  datatype Pred = PEnullable | PEnofail

  /** Does the pattern have captures? Rule calls are not followed. */
  predicate HasCaptures(t: Tree)
  {
    match t
    case TCapture(_, _, _) => true
    case TRep(p) => HasCaptures(p)
    case TSeq(p1, p2) => HasCaptures(p1) || HasCaptures(p2)
    case TChoice(p1, p2) => HasCaptures(p1) || HasCaptures(p2)
    case TNot(p) => HasCaptures(p)
    case TAnd(p) => HasCaptures(p)
    case TBehind(_, p) => HasCaptures(p)
    case TGrammar(rules) => exists k :: 0 <= k < |rules| && HasCaptures(rules[k])
    case _ => false
  }

  /** Conservative: a pattern that can match nothing is nullable, a nofail pattern cannot fail. */
  predicate Checkaux(g: Rules, t: Tree, pred: Pred, chase: nat)
    decreases Rank(g, t), chase, t
  {
    match t
    case TChar(_) => false
    case TSet(_) => false
    case TAny => false
    case TFalse => false
    case TRep(_) => true
    case TTrue => true
    case TNot(_) => pred.PEnullable?
    case TBehind(_, _) => pred.PEnullable?
    case TAnd(p) => pred.PEnullable? || Checkaux(g, p, pred, chase)
    case TSeq(p1, p2) => Checkaux(g, p1, pred, chase) && Checkaux(g, p2, pred, chase)
    case TChoice(p1, p2) => Checkaux(g, p2, pred, chase) || Checkaux(g, p1, pred, chase)
    case TCapture(_, _, p) => Checkaux(g, p, pred, chase)
    case TGrammar(rules) => rules != [] && Checkaux(rules, rules[0], pred, CHASE)
    case TCall(k) =>
      if k >= |g| then false
      else if chase == 0 then pred.PEnullable?
      else Checkaux(g, g[k], pred, chase - 1)
  }

  predicate Nullable(g: Rules, t: Tree) { Checkaux(g, t, PEnullable, CHASE) }

  predicate Nofail(g: Rules, t: Tree) { Checkaux(g, t, PEnofail, CHASE) }

  /** Number of characters every match takes, added to `len`, or -1 if it varies. */
  function Fixedlenx(g: Rules, t: Tree, count: nat, len: nat): (r: int)
    requires count <= MAXRULES
    ensures r >= -1
    decreases MAXRULES - count, t
  {
    match t
    case TChar(_) => len + 1
    case TSet(_) => len + 1
    case TAny => len + 1
    case TFalse => len
    case TTrue => len
    case TNot(_) => len
    case TAnd(_) => len
    case TBehind(_, _) => len
    case TRep(_) => -1
    case TCapture(_, _, p) => Fixedlenx(g, p, count, len)
    case TGrammar(rules) => if rules == [] then -1 else Fixedlenx(rules, rules[0], count, len)
    case TCall(k) =>
      if count >= MAXRULES || k >= |g| then -1
      else Fixedlenx(g, g[k], count + 1, len)
    case TSeq(p1, p2) =>
      var n := Fixedlenx(g, p1, count, len);
      if n < 0 then -1 else Fixedlenx(g, p2, count, n)
    case TChoice(p1, p2) =>
      var n1 := Fixedlenx(g, p1, count, len);
      if n1 < 0 then -1
      else if n1 == Fixedlenx(g, p2, count, len) then n1 else -1
  }

  function Fixedlen(g: Rules, t: Tree): (r: int)
    ensures r >= -1
  {
    Fixedlenx(g, t, 0, 0)
  }

  /** A first set, and whether the pattern may accept the empty subject. */
  datatype First = First(cs: Charset, e: bool)

  /** The characters with which `t` can start, if it is followed by `follow`. */
  function Getfirst(g: Rules, t: Tree, follow: Charset, chase: nat): (r: First)
    decreases Rank(g, t), chase, t
  {
    match t
    case TChar(_) => First(ToCharset(t), false)
    case TSet(_) => First(ToCharset(t), false)
    case TAny => First(ToCharset(t), false)
    case TTrue => First(follow, true)
    case TFalse => First({}, false)
    case TChoice(p1, p2) =>
      var f1 := Getfirst(g, p1, follow, chase);
      var f2 := Getfirst(g, p2, follow, chase);
      First(f1.cs + f2.cs, f1.e || f2.e)
    case TSeq(p1, p2) =>
      if !Checkaux(g, p1, PEnullable, chase) then Getfirst(g, p1, FULLSET, chase)
      else
        var f2 := Getfirst(g, p2, follow, chase);
        var f1 := Getfirst(g, p1, f2.cs, chase);
        First(f1.cs, f1.e && f2.e)
    case TRep(p) => First(Getfirst(g, p, follow, chase).cs + follow, true)
    case TCapture(_, _, p) => Getfirst(g, p, follow, chase)
    case TGrammar(rules) =>
      if rules == [] then First({}, false) else Getfirst(rules, rules[0], follow, CHASE)
    case TCall(k) =>
      if k >= |g| then First({}, false)
      else if chase == 0 then First(FULLSET, true)
      else Getfirst(g, g[k], follow, chase - 1)
    case TAnd(p) =>
      var f := Getfirst(g, p, follow, chase);
      First(f.cs * follow, f.e)
    case TNot(p) =>
      if IsCharset(p) then First(FULLSET - ToCharset(p), true) else First(follow, true)
    case TBehind(_, _) => First(follow, true)
  }

  function FirstOf(g: Rules, t: Tree, follow: Charset): First { Getfirst(g, t, follow, CHASE) }

  /** Does one character decide whether `t` matches? */
  predicate Headfailx(g: Rules, t: Tree, chase: nat)
    decreases Rank(g, t), chase, t
  {
    match t
    case TChar(_) => true
    case TSet(_) => true
    case TAny => true
    case TFalse => true
    case TTrue => false
    case TRep(_) => false
    case TNot(_) => false
    case TBehind(_, _) => false
    case TCapture(_, _, p) => Headfailx(g, p, chase)
    case TGrammar(rules) => rules != [] && Headfailx(rules, rules[0], CHASE)
    case TAnd(p) => Headfailx(g, p, chase)
    case TCall(k) => k < |g| && chase > 0 && Headfailx(g, g[k], chase - 1)
    case TSeq(p1, p2) => Checkaux(g, p2, PEnofail, CHASE) && Headfailx(g, p1, chase)
    case TChoice(p1, p2) => Headfailx(g, p1, chase) && Headfailx(g, p2, chase)
  }

  predicate Headfail(g: Rules, t: Tree) { Headfailx(g, t, CHASE) }

  /** Can the code for `t` make use of a follow set? */
  predicate Needfollow(t: Tree)
  {
    match t
    case TChoice(_, _) => true
    case TRep(_) => true
    case TCapture(_, _, p) => Needfollow(p)
    case TSeq(_, p2) => Needfollow(p2)
    case _ => false
  }
}
