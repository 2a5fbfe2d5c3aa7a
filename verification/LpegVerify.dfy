/** The checks a grammar must pass when it is built, and exactly what they find. */
module LpegVerify {
  import opened LpegTree
  import opened LpegAnalysis
  import opened LpegAnalysisSound
  import opened LpegPremise
  import opened Pigeons

  // ---------- The checks ----------

  datatype Verdict = Accepts(nullable: bool) | LeftRecursive(rule: nat) | TooManyLeftCalls

  /** The rule repeated latest in a list of rules, if any. */
  function VerifyError(passed: seq<nat>): Verdict
  {
    if passed == [] then TooManyLeftCalls
    else
      var last, rest := passed[|passed| - 1], passed[..|passed| - 1];
      if last in rest then LeftRecursive(last) else VerifyError(rest)
  }

  /**
   * Walk everything that can run before the pattern consumes. `passed` holds the rules entered so
   * far; the verdict says whether control can get through without consuming (or `nullable` already).
   */
  function VerifyRule(g: Rules, t: Tree, passed: seq<nat>, nullable: bool): Verdict
    requires |passed| <= MAXRULES
    decreases MAXRULES - |passed|, t
  {
    match t
    case TChar(_) => Accepts(nullable)
    case TSet(_) => Accepts(nullable)
    case TAny => Accepts(nullable)
    case TFalse => Accepts(nullable)
    case TTrue => Accepts(true)
    case TBehind(_, _) => Accepts(true)
    case TNot(p) => VerifyRule(g, p, passed, true)
    case TAnd(p) => VerifyRule(g, p, passed, true)
    case TRep(p) => VerifyRule(g, p, passed, true)
    case TCapture(_, _, p) => VerifyRule(g, p, passed, nullable)
    case TSeq(p1, p2) =>
      (match VerifyRule(g, p1, passed, false)
       case Accepts(n1) => if n1 then VerifyRule(g, p2, passed, nullable) else Accepts(nullable)
       case error => error)
    case TChoice(p1, p2) =>
      (match VerifyRule(g, p1, passed, nullable)
       case Accepts(n1) => VerifyRule(g, p2, passed, n1)
       case error => error)
    case TCall(k) =>
      if k >= |g| then Accepts(nullable)
      else if |passed| >= MAXRULES then VerifyError(passed)
      else VerifyRule(g, g[k], passed + [k], nullable)
    case TGrammar(_) => Accepts(Nullable(g, t))
  }

  /** Does a repetition in `t` have a body that may match nothing? Nested grammars were checked before. */
  predicate CheckLoops(g: Rules, t: Tree)
  {
    match t
    case TRep(p) => Nullable(g, p) || CheckLoops(g, p)
    case TSeq(p1, p2) => CheckLoops(g, p1) || CheckLoops(g, p2)
    case TChoice(p1, p2) => CheckLoops(g, p1) || CheckLoops(g, p2)
    case TNot(p) => CheckLoops(g, p)
    case TAnd(p) => CheckLoops(g, p)
    case TBehind(_, p) => CheckLoops(g, p)
    case TCapture(_, _, p) => CheckLoops(g, p)
    case _ => false
  }

  /** Does `t` call rule `k` of its own grammar? */
  predicate Calls(t: Tree, k: nat)
  {
    match t
    case TCall(r) => r == k
    case TRep(p) => Calls(p, k)
    case TSeq(p1, p2) => Calls(p1, k) || Calls(p2, k)
    case TChoice(p1, p2) => Calls(p1, k) || Calls(p2, k)
    case TNot(p) => Calls(p, k)
    case TAnd(p) => Calls(p, k)
    case TBehind(_, p) => Calls(p, k)
    case TCapture(_, _, p) => Calls(p, k)
    case _ => false
  }

  /** The initial rule and every rule that is called; only these are verified. */
  predicate Used(g: Rules, k: nat) { k == 0 || exists j :: 0 <= j < |g| && Calls(g[j], k) }

  /** Does the loader accept a grammar with these rules? */
  predicate VerifyGrammar(g: Rules)
  {
    && (forall k :: 0 <= k < |g| && Used(g, k) ==> VerifyRule(g, g[k], [], false).Accepts?)
    && (forall k :: 0 <= k < |g| && Used(g, k) ==> !CheckLoops(g, g[k]))
  }

  // ---------- What acceptance means ----------

  /**
   * Along what can run before `t` consumes, at most `left` rule calls are nested, and at most
   * MAXRULES inside each grammar entered there.
   */
  predicate LeftBounded(g: Rules, t: Tree, left: nat)
    decreases Rank(g, t), left, t
  {
    match t
    case TRep(p) => LeftBounded(g, p, left)
    case TNot(p) => LeftBounded(g, p, left)
    case TAnd(p) => LeftBounded(g, p, left)
    case TCapture(_, _, p) => LeftBounded(g, p, left)
    case TSeq(p1, p2) => LeftBounded(g, p1, left) && (Nullable(g, p1) ==> LeftBounded(g, p2, left))
    case TChoice(p1, p2) => LeftBounded(g, p1, left) && LeftBounded(g, p2, left)
    case TCall(k) => k < |g| ==> left > 0 && LeftBounded(g, g[k], left - 1)
    case TGrammar(rules) => rules != [] ==> LeftBounded(rules, rules[0], MAXRULES)
    case _ => true
  }

  lemma {:induction false} BoundedMore(g: Rules, t: Tree, left: nat, more: nat)
    requires LeftBounded(g, t, left) && left <= more
    ensures LeftBounded(g, t, more)
    decreases left, t
  {
    match t
    case TRep(p) => BoundedMore(g, p, left, more);
    case TNot(p) => BoundedMore(g, p, left, more);
    case TAnd(p) => BoundedMore(g, p, left, more);
    case TCapture(_, _, p) => BoundedMore(g, p, left, more);
    case TSeq(p1, p2) =>
      BoundedMore(g, p1, left, more);
      if Nullable(g, p1) {
        BoundedMore(g, p2, left, more);
      }
    case TChoice(p1, p2) => BoundedMore(g, p1, left, more); BoundedMore(g, p2, left, more);
    case TCall(k) => if k < |g| { BoundedMore(g, g[k], left - 1, more - 1); }
    case _ =>
  }

  /** No analysis of a left-bounded pattern depends on how far calls are followed. */
  lemma {:induction false} CheckauxSaturates(g: Rules, t: Tree, pred: Pred, left: nat, chase: nat)
    requires LeftBounded(g, t, left) && left <= chase && left <= CHASE
    ensures Checkaux(g, t, pred, chase) == Checkaux(g, t, pred, CHASE)
    decreases left, t
  {
    match t
    case TAnd(p) => CheckauxSaturates(g, p, pred, left, chase);
    case TSeq(p1, p2) =>
      CheckauxSaturates(g, p1, pred, left, chase);
      if Nullable(g, p1) {
        CheckauxSaturates(g, p2, pred, left, chase);
      } else if Checkaux(g, p1, PEnofail, CHASE) {
        NofailIsNullable(g, p1, CHASE, CHASE);
      }
    case TChoice(p1, p2) =>
      CheckauxSaturates(g, p1, pred, left, chase);
      CheckauxSaturates(g, p2, pred, left, chase);
    case TCapture(_, _, p) => CheckauxSaturates(g, p, pred, left, chase);
    case TCall(k) =>
      if k < |g| {
        CheckauxSaturates(g, g[k], pred, left - 1, chase - 1);
        CheckauxSaturates(g, g[k], pred, left - 1, CHASE - 1);
      }
    case _ =>
  }

  lemma {:induction false} FirstSaturates(g: Rules, t: Tree, follow: Charset, left: nat, chase: nat)
    requires LeftBounded(g, t, left) && left <= chase && left <= CHASE
    ensures Getfirst(g, t, follow, chase) == Getfirst(g, t, follow, CHASE)
    decreases left, t
  {
    match t
    case TRep(p) => FirstSaturates(g, p, follow, left, chase);
    case TAnd(p) => FirstSaturates(g, p, follow, left, chase);
    case TSeq(p1, p2) =>
      CheckauxSaturates(g, p1, PEnullable, left, chase);
      if Nullable(g, p1) {
        FirstSaturates(g, p2, follow, left, chase);
        FirstSaturates(g, p1, Getfirst(g, p2, follow, CHASE).cs, left, chase);
      } else {
        FirstSaturates(g, p1, FULLSET, left, chase);
      }
    case TChoice(p1, p2) =>
      FirstSaturates(g, p1, follow, left, chase);
      FirstSaturates(g, p2, follow, left, chase);
    case TCapture(_, _, p) => FirstSaturates(g, p, follow, left, chase);
    case TCall(k) =>
      if k < |g| {
        FirstSaturates(g, g[k], follow, left - 1, chase - 1);
        FirstSaturates(g, g[k], follow, left - 1, CHASE - 1);
      }
    case _ =>
  }

  lemma {:induction false} HeadfailSaturates(g: Rules, t: Tree, left: nat, chase: nat)
    requires LeftBounded(g, t, left) && left <= chase && left <= CHASE
    ensures Headfailx(g, t, chase) == Headfailx(g, t, CHASE)
    decreases left, t
  {
    match t
    case TAnd(p) => HeadfailSaturates(g, p, left, chase);
    case TCapture(_, _, p) => HeadfailSaturates(g, p, left, chase);
    case TSeq(p1, p2) => HeadfailSaturates(g, p1, left, chase);
    case TChoice(p1, p2) => HeadfailSaturates(g, p1, left, chase); HeadfailSaturates(g, p2, left, chase);
    case TCall(k) =>
      if k < |g| {
        HeadfailSaturates(g, g[k], left - 1, chase - 1);
        HeadfailSaturates(g, g[k], left - 1, CHASE - 1);
      }
    case _ =>
  }

  // ---------- Accepted patterns halt ----------

  /** A pattern without empty loops whose grammars are left-bounded. */
  predicate Accepted(g: Rules, t: Tree)
    decreases t
  {
    match t
    case TRep(p) => !Nullable(g, p) && Accepted(g, p)
    case TSeq(p1, p2) => Accepted(g, p1) && Accepted(g, p2)
    case TChoice(p1, p2) => Accepted(g, p1) && Accepted(g, p2)
    case TNot(p) => Accepted(g, p)
    case TAnd(p) => Accepted(g, p)
    case TBehind(_, p) => Accepted(g, p)
    case TCapture(_, _, p) => Accepted(g, p)
    case TGrammar(rules) =>
      forall k :: 0 <= k < |rules| && Used(rules, k) ==>
        LeftBounded(rules, rules[k], MAXRULES) && Accepted(rules, rules[k])
    case _ => true
  }

  ghost predicate CallsUsed(g: Rules, t: Tree) { forall k :: Calls(t, k) ==> Used(g, k) }

  /** Any part of an accepted grammar is left-bounded by one call more than its rules. */
  lemma {:induction false} PartBounded(g: Rules, t: Tree)
    requires Accepted([], TGrammar(g)) && Accepted(g, t) && CallsUsed(g, t)
    ensures LeftBounded(g, t, CHASE)
    decreases t
  {
    match t
    case TRep(p) => PartUsed(g, t, p); PartBounded(g, p);
    case TNot(p) => PartUsed(g, t, p); PartBounded(g, p);
    case TAnd(p) => PartUsed(g, t, p); PartBounded(g, p);
    case TCapture(_, _, p) => PartUsed(g, t, p); PartBounded(g, p);
    case TSeq(p1, p2) => PartUsed(g, t, p1); PartUsed(g, t, p2); PartBounded(g, p1); PartBounded(g, p2);
    case TChoice(p1, p2) => PartUsed(g, t, p1); PartUsed(g, t, p2); PartBounded(g, p1); PartBounded(g, p2);
    case TCall(k) => assert Calls(t, k);
    case TGrammar(rules) =>
      if rules != [] {
        assert Used(rules, 0);
        BoundedMore(rules, rules[0], MAXRULES, CHASE);
      }
    case _ =>
  }

  lemma PartUsed(g: Rules, t: Tree, p: Tree)
    requires CallsUsed(g, t)
    requires (t.TRep? || t.TNot? || t.TAnd? || t.TCapture? || t.TBehind?) ==> p == t.body
    requires (t.TSeq? || t.TChoice?) ==> p == t.first || p == t.second
    requires !t.TCall? && !t.TGrammar? && !t.TChar? && !t.TSet? && !t.TAny? && !t.TTrue? && !t.TFalse?
    ensures CallsUsed(g, p)
  {
    forall k | Calls(p, k) ensures Used(g, k) {
      assert Calls(t, k);
    }
  }

  lemma RuleUsed(g: Rules, k: nat)
    requires k < |g|
    ensures CallsUsed(g, g[k])
  {
  }

  // ---------- The checks decide acceptance ----------

  /** The grammars inside the pattern are accepted, as they were when they were built. */
  predicate NestedAccepted(t: Tree)
  {
    match t
    case TRep(p) => NestedAccepted(p)
    case TSeq(p1, p2) => NestedAccepted(p1) && NestedAccepted(p2)
    case TChoice(p1, p2) => NestedAccepted(p1) && NestedAccepted(p2)
    case TNot(p) => NestedAccepted(p)
    case TAnd(p) => NestedAccepted(p)
    case TBehind(_, p) => NestedAccepted(p)
    case TCapture(_, _, p) => NestedAccepted(p)
    case TGrammar(_) => Accepted([], t)
    case _ => true
  }

  predicate NestedRules(g: Rules) { forall k :: 0 <= k < |g| ==> NestedAccepted(g[k]) }

  /**
   * Does the walk forget that control can get through? A grammar that always consumes drops the
   * `nullable` it is given; a sequence or choice behind it may restore it or pass the loss on.
   */
  predicate Lost(g: Rules, t: Tree, left: nat, nullable: bool)
    decreases left, t
  {
    match t
    case TGrammar(_) => nullable && !Nullable(g, t)
    case TNot(p) => Lost(g, p, left, true)
    case TAnd(p) => Lost(g, p, left, true)
    case TRep(p) => Lost(g, p, left, true)
    case TCapture(_, _, p) => Lost(g, p, left, nullable)
    case TSeq(p1, p2) =>
      Nullable(g, p1) && (if Lost(g, p1, left, false) then !nullable && Nullable(g, p2) else Lost(g, p2, left, nullable))
    case TChoice(p1, p2) =>
      if Lost(g, p1, left, nullable) then !Nullable(g, p2) || Lost(g, p2, left, false)
      else Lost(g, p2, left, nullable || Nullable(g, p1))
    case TCall(k) => k < |g| && left > 0 && Lost(g, g[k], left - 1, nullable)
    case _ => false
  }

  /**
   * Wherever something is lost in front of the second pattern of a sequence, so that the walk does not
   * go on to it, that pattern is left-bounded.
   */
  predicate Covered(g: Rules, t: Tree, left: nat)
    decreases left, t
  {
    match t
    case TNot(p) => Covered(g, p, left)
    case TAnd(p) => Covered(g, p, left)
    case TRep(p) => Covered(g, p, left)
    case TCapture(_, _, p) => Covered(g, p, left)
    case TSeq(p1, p2) =>
      && Covered(g, p1, left)
      && (Nullable(g, p1) ==> if Lost(g, p1, left, false) then LeftBounded(g, p2, left) else Covered(g, p2, left))
    case TChoice(p1, p2) => Covered(g, p1, left) && Covered(g, p2, left)
    case TCall(k) => k < |g| && left > 0 ==> Covered(g, g[k], left - 1)
    case _ => true
  }

  /**
   * Left-bounded is exactly what the walk accepts and covers: it rejects only what has unbounded left
   * calls, and finds all of those but behind what it lost. What it says of getting through is right if
   * and only if that was not lost.
   */
  lemma {:induction false} VerifyRuleExact(g: Rules, t: Tree, passed: seq<nat>, nullable: bool)
    requires |passed| <= MAXRULES && NestedRules(g) && NestedAccepted(t)
    ensures var v, left := VerifyRule(g, t, passed, nullable), MAXRULES - |passed|;
            && (LeftBounded(g, t, left) ==>
                  && v.Accepts?
                  && (v.nullable ==> nullable || Nullable(g, t))
                  && (v.nullable == (nullable || Nullable(g, t)) <==> !Lost(g, t, left, nullable)))
            && (Covered(g, t, left) && v.Accepts? <==> LeftBounded(g, t, left))
    decreases MAXRULES - |passed|, t
  {
    match t
    case TNot(p) => VerifyRuleExact(g, p, passed, true);
    case TAnd(p) => VerifyRuleExact(g, p, passed, true);
    case TRep(p) => VerifyRuleExact(g, p, passed, true);
    case TCapture(_, _, p) => VerifyRuleExact(g, p, passed, nullable);
    case TSeq(p1, p2) =>
      VerifyRuleExact(g, p1, passed, false);
      VerifyRuleExact(g, p2, passed, nullable);
    case TChoice(p1, p2) =>
      VerifyRuleExact(g, p1, passed, nullable);
      VerifyRuleExact(g, p2, passed, nullable || Nullable(g, p1));
      VerifyRuleExact(g, p2, passed, false);
      VerifyRuleExact(g, p2, passed, true);
    case TCall(k) =>
      ErrorIsError(passed);
      if k < |g| && |passed| < MAXRULES {
        VerifyRuleExact(g, g[k], passed + [k], nullable);
        if LeftBounded(g, g[k], MAXRULES - |passed| - 1) {
          CheckauxSaturates(g, g[k], PEnullable, MAXRULES - |passed| - 1, CHASE - 1);
        }
      }
    case TGrammar(rules) => if rules != [] { assert Used(rules, 0); }
    case _ =>
  }

  lemma {:induction false} ErrorIsError(passed: seq<nat>)
    ensures !VerifyError(passed).Accepts?
  {
    if passed != [] {
      ErrorIsError(passed[..|passed| - 1]);
    }
  }

  lemma {:induction false} CheckLoopsExact(g: Rules, t: Tree)
    requires NestedAccepted(t) && WellFormed(g, t)
    ensures !CheckLoops(g, t) <==> Accepted(g, t)
  {
    match t
    case TRep(p) => CheckLoopsExact(g, p);
    case TSeq(p1, p2) => CheckLoopsExact(g, p1); CheckLoopsExact(g, p2);
    case TChoice(p1, p2) => CheckLoopsExact(g, p1); CheckLoopsExact(g, p2);
    case TNot(p) => CheckLoopsExact(g, p);
    case TAnd(p) => CheckLoopsExact(g, p);
    case TBehind(_, p) => CheckLoopsExact(g, p);
    case TCapture(_, _, p) => CheckLoopsExact(g, p);
    case _ =>
  }

  predicate CoveredRules(g: Rules)
  {
    forall k :: 0 <= k < |g| && Used(g, k) ==> Covered(g, g[k], MAXRULES)
  }

  /**
   * A grammar is without empty loops and unbounded left calls if and only if the loader accepts it and
   * its walks cover it; grammars inside its rules were accepted before.
   */
  lemma VerifyGrammarExact(g: Rules)
    requires NestedRules(g) && WellFormed([], TGrammar(g))
    ensures Accepted([], TGrammar(g)) <==> VerifyGrammar(g) && CoveredRules(g)
  {
    forall k | 0 <= k < |g| && Used(g, k)
      ensures Covered(g, g[k], MAXRULES) && VerifyRule(g, g[k], [], false).Accepts? <==> LeftBounded(g, g[k], MAXRULES)
      ensures !CheckLoops(g, g[k]) <==> Accepted(g, g[k])
    {
      VerifyRuleExact(g, g[k], [], false);
      CheckLoopsExact(g, g[k]);
    }
  }

  /** No grammar inside the pattern. */
  predicate Flat(t: Tree)
  {
    match t
    case TGrammar(_) => false
    case TRep(p) => Flat(p)
    case TSeq(p1, p2) => Flat(p1) && Flat(p2)
    case TChoice(p1, p2) => Flat(p1) && Flat(p2)
    case TNot(p) => Flat(p)
    case TAnd(p) => Flat(p)
    case TBehind(_, p) => Flat(p)
    case TCapture(_, _, p) => Flat(p)
    case _ => true
  }

  predicate FlatRules(g: Rules) { forall k :: 0 <= k < |g| ==> Flat(g[k]) }

  /** Without grammars inside rules nothing is lost. */
  lemma {:induction false} FlatCovered(g: Rules, t: Tree, left: nat)
    requires Flat(t) && FlatRules(g)
    ensures Covered(g, t, left) && NestedAccepted(t) && forall nullable :: !Lost(g, t, left, nullable)
    decreases left, t
  {
    match t
    case TRep(p) => FlatCovered(g, p, left);
    case TSeq(p1, p2) => FlatCovered(g, p1, left); FlatCovered(g, p2, left);
    case TChoice(p1, p2) => FlatCovered(g, p1, left); FlatCovered(g, p2, left);
    case TNot(p) => FlatCovered(g, p, left);
    case TAnd(p) => FlatCovered(g, p, left);
    case TBehind(_, p) => FlatCovered(g, p, left);
    case TCapture(_, _, p) => FlatCovered(g, p, left);
    case TCall(k) => if k < |g| && left > 0 { FlatCovered(g, g[k], left - 1); }
    case _ =>
  }

  /** The loader accepts a flat grammar exactly if it has no empty loop and no unbounded left call. */
  lemma FlatGrammarExact(g: Rules)
    requires FlatRules(g) && WellFormed([], TGrammar(g))
    ensures NestedRules(g) && CoveredRules(g)
    ensures VerifyGrammar(g) <==> Accepted([], TGrammar(g))
  {
    forall k | 0 <= k < |g| ensures Covered(g, g[k], MAXRULES) && NestedAccepted(g[k]) {
      FlatCovered(g, g[k], MAXRULES);
    }
    VerifyGrammarExact(g);
  }

  // ---------- Left recursion ----------

  /** Can `t` call rule `k` before consuming anything? */
  predicate LeftCalls(g: Rules, t: Tree, k: nat)
  {
    match t
    case TRep(p) => LeftCalls(g, p, k)
    case TNot(p) => LeftCalls(g, p, k)
    case TAnd(p) => LeftCalls(g, p, k)
    case TCapture(_, _, p) => LeftCalls(g, p, k)
    case TSeq(p1, p2) => LeftCalls(g, p1, k) || (Nullable(g, p1) && LeftCalls(g, p2, k))
    case TChoice(p1, p2) => LeftCalls(g, p1, k) || LeftCalls(g, p2, k)
    case TCall(r) => r == k
    case _ => false
  }

  /** A list of rules each of which can call the next before consuming anything. */
  ghost predicate LeftPath(g: Rules, path: seq<nat>)
  {
    && path != []
    && (forall i :: 0 <= i < |path| ==> path[i] < |g|)
    && (forall i :: 0 <= i < |path| - 1 ==> LeftCalls(g, g[path[i]], path[i + 1]))
  }

  /** Some rule that `j` reaches by left calls reaches itself. */
  ghost predicate LeftRecursiveFrom(g: Rules, j: nat)
  {
    exists path: seq<nat>, i: nat, k: nat ::
      LeftPath(g, path) && path[0] == j && i < k < |path| && path[i] == path[k]
  }

  lemma {:induction false} EdgeBounded(g: Rules, t: Tree, k: nat, left: nat)
    requires LeftBounded(g, t, left) && LeftCalls(g, t, k) && k < |g|
    ensures left > 0 && LeftBounded(g, g[k], left - 1)
    decreases t
  {
    match t
    case TRep(p) => EdgeBounded(g, p, k, left);
    case TNot(p) => EdgeBounded(g, p, k, left);
    case TAnd(p) => EdgeBounded(g, p, k, left);
    case TCapture(_, _, p) => EdgeBounded(g, p, k, left);
    case TSeq(p1, p2) => if LeftCalls(g, p1, k) { EdgeBounded(g, p1, k, left); } else { EdgeBounded(g, p2, k, left); }
    case TChoice(p1, p2) => if LeftCalls(g, p1, k) { EdgeBounded(g, p1, k, left); } else { EdgeBounded(g, p2, k, left); }
    case _ =>
  }

  lemma {:induction false} PathBounded(g: Rules, path: seq<nat>, left: nat)
    requires LeftPath(g, path) && LeftBounded(g, g[path[0]], left)
    ensures |path| <= left + 1
    decreases |path|
  {
    if |path| > 1 {
      EdgeBounded(g, g[path[0]], path[1], left);
      PathBounded(g, path[1..], left - 1);
    }
  }

  lemma {:induction false} UnboundedEdge(g: Rules, t: Tree, left: nat) returns (k: nat)
    requires !LeftBounded(g, t, left) && NestedAccepted(t)
    ensures k < |g| && LeftCalls(g, t, k)
    ensures left > 0 ==> !LeftBounded(g, g[k], left - 1)
    decreases t
  {
    match t
    case TRep(p) => k := UnboundedEdge(g, p, left);
    case TNot(p) => k := UnboundedEdge(g, p, left);
    case TAnd(p) => k := UnboundedEdge(g, p, left);
    case TCapture(_, _, p) => k := UnboundedEdge(g, p, left);
    case TSeq(p1, p2) =>
      if LeftBounded(g, p1, left) {
        k := UnboundedEdge(g, p2, left);
      } else {
        k := UnboundedEdge(g, p1, left);
      }
    case TChoice(p1, p2) =>
      if LeftBounded(g, p1, left) {
        k := UnboundedEdge(g, p2, left);
      } else {
        k := UnboundedEdge(g, p1, left);
      }
    case TCall(r) => k := r;
  }

  lemma {:induction false} LongPath(g: Rules, j: nat, left: nat) returns (path: seq<nat>)
    requires NestedRules(g) && j < |g| && !LeftBounded(g, g[j], left)
    ensures LeftPath(g, path) && path[0] == j && |path| == left + 2
    decreases left
  {
    var k := UnboundedEdge(g, g[j], left);
    if left == 0 {
      path := [j, k];
    } else {
      var rest := LongPath(g, k, left - 1);
      path := [j] + rest;
    }
  }

  /** A cycle on the path makes it as long as one likes. */
  lemma {:induction false} Pump(g: Rules, path: seq<nat>, i: nat, k: nat, len: nat) returns (longer: seq<nat>)
    requires LeftPath(g, path) && i < k < |path| && path[i] == path[k]
    ensures LeftPath(g, longer) && longer[0] == path[0] && |longer| >= len
    decreases len - |path|
  {
    if |path| >= len {
      longer := path;
    } else {
      var next := path[..k] + path[i..];
      assert next[0] == path[0];
      forall n | 0 <= n < |next| - 1 ensures LeftCalls(g, g[next[n]], next[n + 1]) {
        if n < k - 1 {
          assert LeftCalls(g, g[path[n]], path[n + 1]);
        } else if n == k - 1 {
          assert LeftCalls(g, g[path[k - 1]], path[k]);
        } else {
          assert LeftCalls(g, g[path[n - k + i]], path[n - k + i + 1]);
        }
      }
      longer := Pump(g, next, i, k, len);
    }
  }

  /** Left calls are bounded exactly where there is no left recursion, although 200 are counted only. */
  lemma BoundedExact(g: Rules, j: nat)
    requires NestedRules(g) && |g| <= MAXRULES && j < |g|
    ensures LeftBounded(g, g[j], MAXRULES) <==> !LeftRecursiveFrom(g, j)
  {
    if LeftBounded(g, g[j], MAXRULES) {
      if LeftRecursiveFrom(g, j) {
        var path: seq<nat>, i: nat, k: nat :|
          LeftPath(g, path) && path[0] == j && i < k < |path| && path[i] == path[k];
        var longer := Pump(g, path, i, k, MAXRULES + 2);
        PathBounded(g, longer, MAXRULES);
      }
    } else {
      var path := LongPath(g, j, MAXRULES);
      var i, k := Pigeonhole(path, |g|);
      assert LeftPath(g, path) && path[0] == j && i < k < |path| && path[i] == path[k];
    }
  }

  /** Only left recursive rules are rejected as such, and all of them but those that are not covered. */
  lemma LeftRecursionExact(g: Rules, j: nat)
    requires NestedRules(g) && |g| <= MAXRULES && j < |g|
    ensures !VerifyRule(g, g[j], [], false).Accepts? ==> LeftRecursiveFrom(g, j)
    ensures VerifyRule(g, g[j], [], false).Accepts? && Covered(g, g[j], MAXRULES) <==> !LeftRecursiveFrom(g, j)
  {
    VerifyRuleExact(g, g[j], [], false);
    BoundedExact(g, j);
  }

  /** Only what is nullable is reported as such, however far calls are followed. */
  lemma {:induction false} FlagSound(g: Rules, t: Tree, passed: seq<nat>, nullable: bool, chase: nat)
    requires |passed| <= MAXRULES
    ensures var v := VerifyRule(g, t, passed, nullable);
            v.Accepts? && v.nullable ==> nullable || Checkaux(g, t, PEnullable, chase)
    decreases MAXRULES - |passed|, t
  {
    match t
    case TCapture(_, _, p) => FlagSound(g, p, passed, nullable, chase);
    case TSeq(p1, p2) => FlagSound(g, p1, passed, false, chase); FlagSound(g, p2, passed, nullable, chase);
    case TChoice(p1, p2) =>
      FlagSound(g, p1, passed, nullable, chase);
      FlagSound(g, p2, passed, nullable, chase);
      FlagSound(g, p2, passed, true, chase);
    case TCall(k) =>
      ErrorIsError(passed);
      if k < |g| && |passed| < MAXRULES && chase > 0 {
        FlagSound(g, g[k], passed + [k], nullable, chase - 1);
      }
    case _ =>
  }

  /** The rules that a rejecting walk has entered, each from the one before: the error is drawn from them. */
  lemma {:induction false} WalkPath(g: Rules, j: nat, t: Tree, passed: seq<nat>, nullable: bool) returns (full: seq<nat>)
    requires |passed| <= MAXRULES && LeftPath(g, [j] + passed) && !VerifyRule(g, t, passed, nullable).Accepts?
    requires forall k :: LeftCalls(g, t, k) ==> LeftCalls(g, g[([j] + passed)[|passed|]], k)
    ensures |full| == MAXRULES && LeftPath(g, [j] + full)
    ensures VerifyRule(g, t, passed, nullable) == VerifyError(full)
    decreases MAXRULES - |passed|, t
  {
    hide LeftPath;
    match t
    case TNot(p) => full := WalkPath(g, j, p, passed, true);
    case TAnd(p) => full := WalkPath(g, j, p, passed, true);
    case TRep(p) => full := WalkPath(g, j, p, passed, true);
    case TCapture(_, _, p) => full := WalkPath(g, j, p, passed, nullable);
    case TSeq(p1, p2) =>
      if VerifyRule(g, p1, passed, false).Accepts? {
        FlagSound(g, p1, passed, false, CHASE);
        full := WalkPath(g, j, p2, passed, nullable);
      } else {
        full := WalkPath(g, j, p1, passed, false);
      }
    case TChoice(p1, p2) =>
      var v := VerifyRule(g, p1, passed, nullable);
      if v.Accepts? {
        full := WalkPath(g, j, p2, passed, v.nullable);
      } else {
        full := WalkPath(g, j, p1, passed, nullable);
      }
    case TCall(k) =>
      if |passed| >= MAXRULES {
        full := passed;
      } else {
        assert LeftCalls(g, t, k);
        ExtendPath(g, [j] + passed, k);
        assert [j] + (passed + [k]) == [j] + passed + [k];
        full := WalkPath(g, j, g[k], passed + [k], nullable);
      }
  }

  lemma ExtendPath(g: Rules, path: seq<nat>, k: nat)
    requires LeftPath(g, path) && k < |g| && LeftCalls(g, g[path[|path| - 1]], k)
    ensures LeftPath(g, path + [k])
  {
  }

  /** The error names a rule that was entered twice, if there is one. */
  lemma {:induction false} ErrorExact(passed: seq<nat>)
    ensures var v := VerifyError(passed);
            && (v.LeftRecursive? ==> exists i: nat, k: nat :: i < k < |passed| && passed[i] == passed[k] == v.rule)
            && (v.TooManyLeftCalls? ==> forall i, k :: 0 <= i < k < |passed| ==> passed[i] != passed[k])
  {
    if passed != [] {
      var n := |passed| - 1;
      ErrorExact(passed[..n]);
      if passed[n] in passed[..n] {
        var i :| 0 <= i < n && passed[..n][i] == passed[n];
        assert passed[i] == passed[n];
      } else {
        forall i, k | 0 <= i < k < |passed| && VerifyError(passed).TooManyLeftCalls? ensures passed[i] != passed[k] {
          assert passed[i] == passed[..n][i];
          if k < n { assert passed[k] == passed[..n][k]; }
        }
      }
    }
  }

  /**
   * A rule reported as left recursive is: it can be entered again before anything is consumed. That
   * there are too many left calls is reported only for grammars with as many rules as are allowed.
   */
  lemma ReportedRecursive(g: Rules, j: nat)
    requires |g| <= MAXRULES && j < |g|
    ensures var v := VerifyRule(g, g[j], [], false);
            && (v.LeftRecursive? ==>
                  exists path: seq<nat>, i: nat, k: nat ::
                    LeftPath(g, path) && path[0] == j && i < k < |path| && path[i] == path[k] == v.rule)
            && (v.TooManyLeftCalls? ==> |g| == MAXRULES)
  {
    var v := VerifyRule(g, g[j], [], false);
    if !v.Accepts? {
      assert ([j] + [])[0] == j;
      var full := WalkPath(g, j, g[j], [], false);
      ErrorExact(full);
      var path := [j] + full;
      if v.LeftRecursive? {
        var i: nat, k: nat :| i < k < |full| && full[i] == full[k] == v.rule;
        assert path[i + 1] == path[k + 1] == v.rule;
      } else if |g| < MAXRULES {
        assert forall n :: 0 <= n < |full| ==> full[n] == path[n + 1];
        var i, k := Pigeonhole(full, |g|);
      }
    }
  }

  // ---------- Patterns as they reach the compiler ----------

  /** What the constructors check of a pattern outside any grammar. */
  predicate Loaded(t: Tree)
  {
    match t
    case TRep(p) => !Nullable([], p) && Loaded(p)
    case TSeq(p1, p2) => Loaded(p1) && Loaded(p2)
    case TChoice(p1, p2) => Loaded(p1) && Loaded(p2)
    case TNot(p) => Loaded(p)
    case TAnd(p) => Loaded(p)
    case TBehind(_, p) => Loaded(p)
    case TCapture(_, _, p) => Loaded(p)
    case TGrammar(_) => GrammarsLoaded(t)
    case _ => true
  }

  /** Every grammar in the pattern passed the checks when it was built, and they covered it. */
  predicate GrammarsLoaded(t: Tree)
  {
    match t
    case TRep(p) => GrammarsLoaded(p)
    case TSeq(p1, p2) => GrammarsLoaded(p1) && GrammarsLoaded(p2)
    case TChoice(p1, p2) => GrammarsLoaded(p1) && GrammarsLoaded(p2)
    case TNot(p) => GrammarsLoaded(p)
    case TAnd(p) => GrammarsLoaded(p)
    case TBehind(_, p) => GrammarsLoaded(p)
    case TCapture(_, _, p) => GrammarsLoaded(p)
    case TGrammar(rules) =>
      (forall k :: 0 <= k < |rules| ==> GrammarsLoaded(rules[k])) && VerifyGrammar(rules) && CoveredRules(rules)
    case _ => true
  }

  lemma {:induction false} LoadedNested(g: Rules, t: Tree)
    requires GrammarsLoaded(t) && WellFormed(g, t)
    ensures NestedAccepted(t)
    decreases t
  {
    match t
    case TRep(p) => LoadedNested(g, p);
    case TSeq(p1, p2) => LoadedNested(g, p1); LoadedNested(g, p2);
    case TChoice(p1, p2) => LoadedNested(g, p1); LoadedNested(g, p2);
    case TNot(p) => LoadedNested(g, p);
    case TAnd(p) => LoadedNested(g, p);
    case TBehind(_, p) => LoadedNested(g, p);
    case TCapture(_, _, p) => LoadedNested(g, p);
    case TGrammar(rules) =>
      forall k | 0 <= k < |rules| ensures NestedAccepted(rules[k]) {
        LoadedNested(rules, rules[k]);
      }
      VerifyGrammarExact(rules);
    case _ =>
  }

  lemma {:induction false} LoadedAccepted(t: Tree)
    requires Loaded(t) && WellFormed([], t)
    ensures Accepted([], t) && !HasCalls(t)
  {
    match t
    case TRep(p) => LoadedAccepted(p);
    case TSeq(p1, p2) => LoadedAccepted(p1); LoadedAccepted(p2);
    case TChoice(p1, p2) => LoadedAccepted(p1); LoadedAccepted(p2);
    case TNot(p) => LoadedAccepted(p);
    case TAnd(p) => LoadedAccepted(p);
    case TBehind(_, p) => LoadedAccepted(p);
    case TCapture(_, _, p) => LoadedAccepted(p);
    case TGrammar(_) => LoadedNested([], t);
    case _ =>
  }
}
