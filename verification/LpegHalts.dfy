/** Why patterns that pass the checks always halt, and the calls inside look-behinds that the checks do not see. */
module LpegHalts {
  import opened LpegTree
  import opened LpegAnalysis
  import opened LpegAnalysisSound
  import opened LpegPremise
  import opened LpegVerify

  // ---------- Calls inside look-behinds ----------

  /**
   * Do the calls in `t` lead to rules of rank at most `r`, and those inside look-behinds to lower ones?
   * The checks never enter a look-behind, which goes back in the subject.
   */
  predicate Ranked(rank: seq<nat>, t: Tree, r: nat)
    decreases t
  {
    match t
    case TCall(k) => k < |rank| ==> rank[k] <= r
    case TBehind(_, p) => HasCalls(p) ==> r > 0 && Ranked(rank, p, r - 1)
    case TRep(p) => Ranked(rank, p, r)
    case TSeq(p1, p2) => Ranked(rank, p1, r) && Ranked(rank, p2, r)
    case TChoice(p1, p2) => Ranked(rank, p1, r) && Ranked(rank, p2, r)
    case TNot(p) => Ranked(rank, p, r)
    case TAnd(p) => Ranked(rank, p, r)
    case TCapture(_, _, p) => Ranked(rank, p, r)
    case _ => true
  }

  ghost predicate RulesRanked(rank: seq<nat>, g: Rules)
  {
    |rank| == |g| && forall k :: 0 <= k < |g| ==> Ranked(rank, g[k], rank[k])
  }

  /** No rule can get back to itself by way of a call inside a look-behind, in any grammar of the pattern. */
  ghost predicate BehindsEnd(t: Tree)
  {
    match t
    case TRep(p) => BehindsEnd(p)
    case TSeq(p1, p2) => BehindsEnd(p1) && BehindsEnd(p2)
    case TChoice(p1, p2) => BehindsEnd(p1) && BehindsEnd(p2)
    case TNot(p) => BehindsEnd(p)
    case TAnd(p) => BehindsEnd(p)
    case TBehind(_, p) => BehindsEnd(p)
    case TCapture(_, _, p) => BehindsEnd(p)
    case TGrammar(rules) =>
      (exists rank :: RulesRanked(rank, rules)) && forall k :: 0 <= k < |rules| ==> BehindsEnd(rules[k])
    case _ => true
  }

  /** No look-behind in the pattern, its grammars included, holds a call. */
  predicate NoBehindCalls(t: Tree)
  {
    match t
    case TRep(p) => NoBehindCalls(p)
    case TSeq(p1, p2) => NoBehindCalls(p1) && NoBehindCalls(p2)
    case TChoice(p1, p2) => NoBehindCalls(p1) && NoBehindCalls(p2)
    case TNot(p) => NoBehindCalls(p)
    case TAnd(p) => NoBehindCalls(p)
    case TBehind(_, p) => !HasCalls(p) && NoBehindCalls(p)
    case TCapture(_, _, p) => NoBehindCalls(p)
    case TGrammar(rules) => forall k :: 0 <= k < |rules| ==> NoBehindCalls(rules[k])
    case _ => true
  }

  lemma {:induction false} NoBehindCallsEnd(t: Tree)
    requires NoBehindCalls(t)
    ensures BehindsEnd(t)
  {
    match t
    case TRep(p) => NoBehindCallsEnd(p);
    case TSeq(p1, p2) => NoBehindCallsEnd(p1); NoBehindCallsEnd(p2);
    case TChoice(p1, p2) => NoBehindCallsEnd(p1); NoBehindCallsEnd(p2);
    case TNot(p) => NoBehindCallsEnd(p);
    case TAnd(p) => NoBehindCallsEnd(p);
    case TBehind(_, p) => NoBehindCallsEnd(p);
    case TCapture(_, _, p) => NoBehindCallsEnd(p);
    case TGrammar(rules) =>
      var rank: seq<nat> := seq(|rules|, _ => 0);
      forall k | 0 <= k < |rules| ensures BehindsEnd(rules[k]) && Ranked(rank, rules[k], rank[k]) {
        NoBehindCallsEnd(rules[k]);
        AllZero(rank, rules[k]);
      }
      assert RulesRanked(rank, rules);
    case _ =>
  }

  lemma {:induction false} AllZero(rank: seq<nat>, t: Tree)
    requires NoBehindCalls(t) && forall k :: 0 <= k < |rank| ==> rank[k] == 0
    ensures Ranked(rank, t, 0)
    decreases t
  {
    match t
    case TRep(p) => AllZero(rank, p);
    case TSeq(p1, p2) => AllZero(rank, p1); AllZero(rank, p2);
    case TChoice(p1, p2) => AllZero(rank, p1); AllZero(rank, p2);
    case TNot(p) => AllZero(rank, p);
    case TAnd(p) => AllZero(rank, p);
    case TCapture(_, _, p) => AllZero(rank, p);
    case _ =>
  }

  /** A pattern without calls of its own halts. */
  lemma {:induction false} CallFreeHalts(g: Rules, t: Tree, subj: Subject, s: nat) returns (fuel: nat)
    requires s <= |subj| && !HasCalls(t) && Accepted(g, t) && BehindsEnd(t)
    ensures !Eval(fuel, g, t, subj, s).Running?
    decreases t, 1, |subj| - s, 0, t
  {
    fuel := 0;
    match t
    case TRep(p) =>
      fuel := CallFreeHalts(g, p, subj, s);
      var r := Eval(fuel, g, p, subj, s);
      if r.Match? {
        NullableSound(fuel, g, p, CHASE, subj, s);
        var f := CallFreeHalts(g, t, subj, r.end);
        fuel := RepFuel(g, t, subj, s, fuel, f);
      }
    case TSeq(p1, p2) =>
      fuel := CallFreeHalts(g, p1, subj, s);
      var r := Eval(fuel, g, p1, subj, s);
      if r.Match? {
        var f := CallFreeHalts(g, p2, subj, r.end);
        fuel := SeqFuel(g, t, subj, s, fuel, f);
      }
    case TChoice(p1, p2) =>
      var f1 := CallFreeHalts(g, p1, subj, s);
      var f2 := CallFreeHalts(g, p2, subj, s);
      fuel := ChoiceFuel(g, t, subj, s, f1, f2);
    case TNot(p) => fuel := CallFreeHalts(g, p, subj, s);
    case TAnd(p) => fuel := CallFreeHalts(g, p, subj, s);
    case TBehind(n, p) => if n <= s { fuel := CallFreeHalts(g, p, subj, s - n); }
    case TCapture(_, _, p) => fuel := CallFreeHalts(g, p, subj, s);
    case TGrammar(rules) =>
      if rules != [] {
        assert Used(rules, 0);
        RuleUsed(rules, 0);
        var rank :| RulesRanked(rank, rules);
        fuel := RuleHalts(t, rank, rank[0], MAXRULES, rules[0], subj, s);
      }
    case _ =>
  }

  /** Fuel for a further round of a repetition. */
  lemma RepFuel(g: Rules, t: Tree, subj: Subject, s: nat, f1: nat, f2: nat) returns (fuel: nat)
    requires s <= |subj| && t.TRep? && Eval(f1, g, t.body, subj, s).Match?
    requires !Eval(f2, g, t, subj, Eval(f1, g, t.body, subj, s).end).Running?
    ensures !Eval(fuel, g, t, subj, s).Running?
  {
    fuel := f1 + f2 + 1;
    EvalMoreFuel(f1, fuel, g, t.body, subj, s);
    EvalMoreFuel(f2, fuel - 1, g, t, subj, Eval(f1, g, t.body, subj, s).end);
  }

  lemma SeqFuel(g: Rules, t: Tree, subj: Subject, s: nat, f1: nat, f2: nat) returns (fuel: nat)
    requires s <= |subj| && t.TSeq? && Eval(f1, g, t.first, subj, s).Match?
    requires !Eval(f2, g, t.second, subj, Eval(f1, g, t.first, subj, s).end).Running?
    ensures !Eval(fuel, g, t, subj, s).Running?
  {
    fuel := f1 + f2;
    EvalMoreFuel(f1, fuel, g, t.first, subj, s);
    EvalMoreFuel(f2, fuel, g, t.second, subj, Eval(f1, g, t.first, subj, s).end);
  }

  lemma ChoiceFuel(g: Rules, t: Tree, subj: Subject, s: nat, f1: nat, f2: nat) returns (fuel: nat)
    requires s <= |subj| && t.TChoice?
    requires !Eval(f1, g, t.first, subj, s).Running? && !Eval(f2, g, t.second, subj, s).Running?
    ensures !Eval(fuel, g, t, subj, s).Running?
  {
    fuel := f1 + f2;
    EvalMoreFuel(f1, fuel, g, t.first, subj, s);
    EvalMoreFuel(f2, fuel, g, t.second, subj, s);
  }

  /** `t` is part of an accepted grammar whose look-behinds end. */
  ghost predicate InGrammar(grammar: Tree, rank: seq<nat>, r: nat, left: nat, t: Tree)
  {
    && grammar.TGrammar? && Accepted([], grammar) && BehindsEnd(grammar) && RulesRanked(rank, grammar.rules)
    && t < grammar && Accepted(grammar.rules, t) && CallsUsed(grammar.rules, t) && BehindsEnd(t)
    && LeftBounded(grammar.rules, t, left) && Ranked(rank, t, r)
  }

  lemma PartsInGrammar(grammar: Tree, rank: seq<nat>, r: nat, left: nat, t: Tree)
    requires InGrammar(grammar, rank, r, left, t)
    ensures t.TRep? || t.TNot? || t.TAnd? || t.TCapture? ==> InGrammar(grammar, rank, r, left, t.body)
    ensures t.TRep? ==> !Nullable(grammar.rules, t.body)
    ensures t.TChoice? ==> InGrammar(grammar, rank, r, left, t.first) && InGrammar(grammar, rank, r, left, t.second)
    ensures t.TGrammar? ==> Accepted(grammar.rules, t) && BehindsEnd(t)
  {
    hide RulesRanked, Checkaux;
    if t.TRep? || t.TNot? || t.TAnd? || t.TCapture? {
      PartUsed(grammar.rules, t, t.body);
    } else if t.TChoice? {
      PartUsed(grammar.rules, t, t.first);
      PartUsed(grammar.rules, t, t.second);
    }
  }

  lemma SeqInGrammar(grammar: Tree, rank: seq<nat>, r: nat, left: nat, t: Tree)
    requires InGrammar(grammar, rank, r, left, t) && t.TSeq?
    ensures InGrammar(grammar, rank, r, left, t.first) && InGrammar(grammar, rank, r, CHASE, t.second)
    ensures Nullable(grammar.rules, t.first) ==> InGrammar(grammar, rank, r, left, t.second)
  {
    hide RulesRanked, Checkaux;
    PartUsed(grammar.rules, t, t.first);
    PartUsed(grammar.rules, t, t.second);
    PartBounded(grammar.rules, t.second);
  }

  lemma BehindInGrammar(grammar: Tree, rank: seq<nat>, r: nat, left: nat, t: Tree)
    requires InGrammar(grammar, rank, r, left, t) && t.TBehind?
    ensures Accepted(grammar.rules, t.body) && BehindsEnd(t.body)
    ensures HasCalls(t.body) ==> r > 0 && InGrammar(grammar, rank, r - 1, CHASE, t.body)
  {
    hide RulesRanked, Checkaux;
    PartUsed(grammar.rules, t, t.body);
    PartBounded(grammar.rules, t.body);
  }

  lemma RuleInGrammar(grammar: Tree, rank: seq<nat>, r: nat, left: nat, t: Tree)
    requires InGrammar(grammar, rank, r, left, t) && t.TCall? && t.rule < |grammar.rules|
    ensures left > 0 && |rank| == |grammar.rules| && rank[t.rule] <= r
    ensures InGrammar(grammar, rank, rank[t.rule], left - 1, grammar.rules[t.rule])
  {
    hide Checkaux;
    assert Calls(t, t.rule);
    RuleUsed(grammar.rules, t.rule);
  }

  lemma {:induction false} RepHalts(grammar: Tree, rank: seq<nat>, r: nat, left: nat, t: Tree, subj: Subject, s: nat)
      returns (fuel: nat)
    requires InGrammar(grammar, rank, r, left, t) && s <= |subj| && t.TRep?
    ensures !Eval(fuel, grammar.rules, t, subj, s).Running?
    decreases grammar, 0, r, |subj| - s, left, t, 0
  {
    assert grammar.TGrammar? && t < grammar;
    hide InGrammar, Checkaux;
    var g := grammar.rules;
    PartsInGrammar(grammar, rank, r, left, t);
    fuel := RuleHalts(grammar, rank, r, left, t.body, subj, s);
    var m := Eval(fuel, g, t.body, subj, s);
    if m.Match? {
      NullableSound(fuel, g, t.body, CHASE, subj, s);
      var f := RuleHalts(grammar, rank, r, left, t, subj, m.end);
      fuel := RepFuel(g, t, subj, s, fuel, f);
    }
  }

  lemma {:induction false} SeqHalts(grammar: Tree, rank: seq<nat>, r: nat, left: nat, t: Tree, subj: Subject, s: nat)
      returns (fuel: nat)
    requires InGrammar(grammar, rank, r, left, t) && s <= |subj| && t.TSeq?
    ensures !Eval(fuel, grammar.rules, t, subj, s).Running?
    decreases grammar, 0, r, |subj| - s, left, t, 0
  {
    assert grammar.TGrammar? && t < grammar;
    hide InGrammar, Checkaux;
    var g := grammar.rules;
    SeqInGrammar(grammar, rank, r, left, t);
    fuel := RuleHalts(grammar, rank, r, left, t.first, subj, s);
    var m := Eval(fuel, g, t.first, subj, s);
    if m.Match? {
      var f;
      if m.end > s {
        f := RuleHalts(grammar, rank, r, CHASE, t.second, subj, m.end);
      } else {
        if !Nullable(g, t.first) { NullableSound(fuel, g, t.first, CHASE, subj, s); }
        f := RuleHalts(grammar, rank, r, left, t.second, subj, s);
      }
      fuel := SeqFuel(g, t, subj, s, fuel, f);
    }
  }

  /** Inside an accepted grammar: by the rank, the remaining subject, the left calls, and the tree. */
  lemma {:induction false} RuleHalts(grammar: Tree, rank: seq<nat>, r: nat, left: nat, t: Tree, subj: Subject, s: nat)
      returns (fuel: nat)
    requires InGrammar(grammar, rank, r, left, t) && s <= |subj|
    ensures !Eval(fuel, grammar.rules, t, subj, s).Running?
    decreases grammar, 0, r, |subj| - s, left, t, 1
  {
    assert grammar.TGrammar? && t < grammar;
    hide InGrammar, Checkaux;
    var g := grammar.rules;
    PartsInGrammar(grammar, rank, r, left, t);
    fuel := 0;
    match t
    case TRep(_) => fuel := RepHalts(grammar, rank, r, left, t, subj, s);
    case TSeq(_, _) => fuel := SeqHalts(grammar, rank, r, left, t, subj, s);
    case TChoice(p1, p2) =>
      var f1 := RuleHalts(grammar, rank, r, left, p1, subj, s);
      var f2 := RuleHalts(grammar, rank, r, left, p2, subj, s);
      fuel := ChoiceFuel(g, t, subj, s, f1, f2);
    case TNot(p) => fuel := RuleHalts(grammar, rank, r, left, p, subj, s);
    case TAnd(p) => fuel := RuleHalts(grammar, rank, r, left, p, subj, s);
    case TCapture(_, _, p) => fuel := RuleHalts(grammar, rank, r, left, p, subj, s);
    case TBehind(n, p) =>
      BehindInGrammar(grammar, rank, r, left, t);
      if n <= s && HasCalls(p) {
        fuel := RuleHalts(grammar, rank, r - 1, CHASE, p, subj, s - n);
      } else if n <= s {
        fuel := CallFreeHalts(g, p, subj, s - n);
      }
    case TCall(k) =>
      if k < |g| {
        RuleInGrammar(grammar, rank, r, left, t);
        fuel := RuleHalts(grammar, rank, rank[k], left - 1, g[k], subj, s);
        fuel := fuel + 1;
      }
    case TGrammar(_) => fuel := CallFreeHalts(g, t, subj, s);
    case _ =>
  }

  // ---------- Patterns as they reach the compiler ----------

  /** Every loaded pattern whose look-behinds end has an answer on every subject, from every position. */
  lemma LoadedHalts(t: Tree, subj: Subject, s: nat) returns (fuel: nat)
    requires Loaded(t) && WellFormed([], t) && BehindsEnd(t) && s <= |subj|
    ensures !Eval(fuel, [], t, subj, s).Running?
  {
    LoadedAccepted(t);
    fuel := CallFreeHalts([], t, subj, s);
  }

  /** A <- !{'a'} A, whose inner grammar hides that the predicate passes on the empty string. */
  const NESTED: Rules := [TSeq(TNot(TGrammar([TChar(97)])), TCall(0))]

  lemma {:induction false} NestedUnbounded(left: nat)
    ensures !LeftBounded(NESTED, TCall(0), left)
    decreases left
  {
    var inner: Tree := TGrammar([TChar(97)]);
    assert NESTED[0] == TSeq(TNot(inner), TCall(0));
    assert Nullable(NESTED, TNot(inner));
    if left > 0 {
      NestedUnbounded(left - 1);
    }
  }

  /** With a nested grammar the walk can miss a left recursion: this one is accepted and never halts. */
  lemma {:induction false} NestedEscapes(fuel: nat)
    ensures VerifyGrammar(NESTED) && !Covered(NESTED, NESTED[0], MAXRULES)
    ensures Eval(fuel, NESTED, TCall(0), [98], 0).Running?
    decreases fuel
  {
    var inner: Tree := TGrammar([TChar(97)]);
    assert inner.rules[0] == TChar(97);
    assert !Checkaux(inner.rules, TChar(97), PEnullable, CHASE);
    assert !Nullable(NESTED, inner);
    assert VerifyRule(NESTED, TNot(inner), [], false) == Accepts(false);
    NestedUnbounded(MAXRULES);
    if fuel > 0 {
      NestedEscapes(fuel - 1);
      assert Eval(fuel - 1, [TChar(97)], [TChar(97)][0], [98], 0) == NoMatch;
      assert Eval(fuel - 1, NESTED, inner, [98], 0) == NoMatch;
      assert Eval(fuel - 1, NESTED, TNot(inner), [98], 0) == Match(0, []);
    }
  }

  /** S <- !{'a'} 'b': what is lost here does no harm, since nothing is called behind it. */
  const HARMLESS: Rules := [TSeq(TNot(TGrammar([TChar(97)])), TChar(98))]

  lemma HarmlessLoss()
    ensures Lost(HARMLESS, HARMLESS[0].first, MAXRULES, false)
    ensures Loaded(TGrammar(HARMLESS)) && NoBehindCalls(TGrammar(HARMLESS))
  {
    var inner: Tree := TGrammar([TChar(97)]);
    assert inner.rules[0] == TChar(97);
    assert !Checkaux(inner.rules, TChar(97), PEnullable, CHASE);
    assert !Nullable(HARMLESS, inner);
    assert HARMLESS[0] == TSeq(TNot(inner), TChar(98));
    assert VerifyRule(HARMLESS, TNot(inner), [], false) == Accepts(false);
    assert GrammarsLoaded(inner);
    assert NoBehindCalls(inner);
  }

  /** S <- B(. !S), where B looks one character behind. */
  const BEHIND: Rules := [TBehind(1, TSeq(TAny, TNot(TCall(0))))]

  /** A call inside a look-behind can be made again at the same position: this grammar is accepted and never halts. */
  lemma {:induction false} BehindEscapes(fuel: nat)
    ensures WellFormed([], TGrammar(BEHIND)) && FlatRules(BEHIND)
    ensures Loaded(TGrammar(BEHIND)) && !BehindsEnd(TGrammar(BEHIND))
    ensures Eval(fuel, [], TGrammar(BEHIND), [98], 1).Running?
  {
    BehindLoads();
    forall rank ensures !RulesRanked(rank, BEHIND) {
      if |rank| == 1 {
        BehindRank(rank, rank[0]);
      }
    }
    BehindRuns(fuel);
  }

  lemma BehindLoads()
    ensures WellFormed([], TGrammar(BEHIND)) && FlatRules(BEHIND) && Loaded(TGrammar(BEHIND))
  {
    hide Checkaux, Eval, Getfirst, LeftBounded;
    BehindWellFormed();
    assert BEHIND[0] == TBehind(1, TSeq(TAny, TNot(TCall(0))));
    assert VerifyRule(BEHIND, BEHIND[0], [], false) == Accepts(true);
    assert Covered(BEHIND, BEHIND[0], MAXRULES);
    assert !CheckLoops(BEHIND, BEHIND[0]);
  }

  lemma BehindWellFormed()
    ensures WellFormed([], TGrammar(BEHIND))
  {
    var body: Tree := TSeq(TAny, TNot(TCall(0)));
    assert Fixedlenx(BEHIND, TAny, 0, 0) == 1;
    assert Fixedlen(BEHIND, body) == 1;
    assert WellFormed(BEHIND, body);
    assert BEHIND[0] == TBehind(1, body);
  }

  /** The rule would have to be of a lower rank than itself. */
  lemma {:induction false} BehindRank(rank: seq<nat>, r: nat)
    requires |rank| == 1
    ensures Ranked(rank, BEHIND[0], r) <==> rank[0] < r
  {
    assert HasCalls(TSeq(TAny, TNot(TCall(0))));
    if r > 0 {
      assert Ranked(rank, TNot(TCall(0)), r - 1) <==> rank[0] <= r - 1;
    }
  }

  lemma {:induction false} BehindRuns(fuel: nat)
    ensures Eval(fuel, BEHIND, BEHIND[0], [98], 1).Running?
    decreases fuel
  {
    if fuel > 0 {
      BehindRuns(fuel - 1);
    }
    assert Eval(fuel, BEHIND, TCall(0), [98], 1).Running?;
    assert Eval(fuel, BEHIND, TNot(TCall(0)), [98], 1).Running?;
    assert Eval(fuel, BEHIND, TAny, [98], 0) == Match(1, []);
    assert Eval(fuel, BEHIND, TSeq(TAny, TNot(TCall(0))), [98], 0).Running?;
  }

  // ---------- The walk of the first sets ----------

  /**
   * At most `left` calls are nested on the walk that finds the first set. It enters look-behinds, where
   * it looks for captures at match time, as the walk of the check does not.
   */
  ghost predicate FirstBounded(g: Rules, t: Tree, left: nat)
    decreases Rank(g, t), left, t
  {
    match t
    case TRep(p) => FirstBounded(g, p, left)
    case TNot(p) => FirstBounded(g, p, left)
    case TAnd(p) => FirstBounded(g, p, left)
    case TBehind(_, p) => FirstBounded(g, p, left)
    case TCapture(_, _, p) => FirstBounded(g, p, left)
    case TSeq(p1, p2) => FirstBounded(g, p1, left) && (Nullable(g, p1) ==> FirstBounded(g, p2, left))
    case TChoice(p1, p2) => FirstBounded(g, p1, left) && FirstBounded(g, p2, left)
    case TCall(k) => k < |g| ==> left > 0 && FirstBounded(g, g[k], left - 1)
    case TGrammar(rules) => rules != [] ==> exists n :: FirstBounded(rules, rules[0], n)
    case _ => true
  }

  lemma {:induction false} FirstMore(g: Rules, t: Tree, left: nat, more: nat)
    requires FirstBounded(g, t, left) && left <= more
    ensures FirstBounded(g, t, more)
    decreases left, t
  {
    match t
    case TRep(p) => FirstMore(g, p, left, more);
    case TNot(p) => FirstMore(g, p, left, more);
    case TAnd(p) => FirstMore(g, p, left, more);
    case TBehind(_, p) => FirstMore(g, p, left, more);
    case TCapture(_, _, p) => FirstMore(g, p, left, more);
    case TSeq(p1, p2) =>
      FirstMore(g, p1, left, more);
      if Nullable(g, p1) {
        FirstMore(g, p2, left, more);
      }
    case TChoice(p1, p2) => FirstMore(g, p1, left, more); FirstMore(g, p2, left, more);
    case TCall(k) => if k < |g| { FirstMore(g, g[k], left - 1, more - 1); }
    case _ =>
  }

  lemma FirstBoth(g: Rules, p: Tree, q: Tree, m: nat, n: nat) returns (left: nat)
    requires FirstBounded(g, p, m) && FirstBounded(g, q, n)
    ensures FirstBounded(g, p, left) && FirstBounded(g, q, left)
  {
    left := m + n;
    FirstMore(g, p, m, left);
    FirstMore(g, q, n, left);
  }

  /** Where look-behinds end, the walk of the first sets ends too, on every part of an accepted grammar. */
  lemma {:induction false} FirstEnds(grammar: Tree, rank: seq<nat>, r: nat, left: nat, t: Tree) returns (n: nat)
    requires InGrammar(grammar, rank, r, left, t)
    ensures FirstBounded(grammar.rules, t, n)
    decreases grammar, 0, r, left, t
  {
    assert grammar.TGrammar? && t < grammar;
    hide InGrammar, Checkaux;
    var g := grammar.rules;
    PartsInGrammar(grammar, rank, r, left, t);
    n := 0;
    match t
    case TRep(p) => n := FirstEnds(grammar, rank, r, left, p);
    case TNot(p) => n := FirstEnds(grammar, rank, r, left, p);
    case TAnd(p) => n := FirstEnds(grammar, rank, r, left, p);
    case TCapture(_, _, p) => n := FirstEnds(grammar, rank, r, left, p);
    case TBehind(_, p) =>
      BehindInGrammar(grammar, rank, r, left, t);
      if HasCalls(p) {
        n := FirstEnds(grammar, rank, r - 1, CHASE, p);
      } else {
        n := CallFreeFirstEnds(g, p);
      }
    case TSeq(p1, p2) =>
      SeqInGrammar(grammar, rank, r, left, t);
      n := FirstEnds(grammar, rank, r, left, p1);
      if Nullable(g, p1) {
        var m := FirstEnds(grammar, rank, r, left, p2);
        n := FirstBoth(g, p1, p2, n, m);
      }
    case TChoice(p1, p2) =>
      n := FirstEnds(grammar, rank, r, left, p1);
      var m := FirstEnds(grammar, rank, r, left, p2);
      n := FirstBoth(g, p1, p2, n, m);
    case TCall(k) =>
      if k < |g| {
        RuleInGrammar(grammar, rank, r, left, t);
        n := FirstEnds(grammar, rank, rank[k], left - 1, g[k]);
        n := n + 1;
      }
    case TGrammar(_) => n := CallFreeFirstEnds(g, t);
    case _ =>
  }

  lemma {:induction false} CallFreeFirstEnds(g: Rules, t: Tree) returns (n: nat)
    requires !HasCalls(t) && Accepted(g, t) && BehindsEnd(t)
    ensures FirstBounded(g, t, n)
    decreases t, 1
  {
    n := 0;
    match t
    case TRep(p) => n := CallFreeFirstEnds(g, p);
    case TNot(p) => n := CallFreeFirstEnds(g, p);
    case TAnd(p) => n := CallFreeFirstEnds(g, p);
    case TBehind(_, p) => n := CallFreeFirstEnds(g, p);
    case TCapture(_, _, p) => n := CallFreeFirstEnds(g, p);
    case TSeq(p1, p2) =>
      n := CallFreeFirstEnds(g, p1);
      var m := CallFreeFirstEnds(g, p2);
      n := FirstBoth(g, p1, p2, n, m);
    case TChoice(p1, p2) =>
      n := CallFreeFirstEnds(g, p1);
      var m := CallFreeFirstEnds(g, p2);
      n := FirstBoth(g, p1, p2, n, m);
    case TGrammar(rules) =>
      if rules != [] {
        assert Used(rules, 0);
        RuleUsed(rules, 0);
        var rank :| RulesRanked(rank, rules);
        var m := FirstEnds(t, rank, rank[0], MAXRULES, rules[0]);
      }
    case _ =>
  }

  /** S <- B(!S .) */
  const ENDLESS: Rules := [TBehind(1, TSeq(TNot(TCall(0)), TAny))]

  /** The check accepts this grammar, and the walk that would find its first set does not end. */
  lemma {:induction false} FirstWalkEscapes(n: nat)
    ensures WellFormed([], TGrammar(ENDLESS)) && Loaded(TGrammar(ENDLESS))
    ensures !FirstBounded([], TGrammar(ENDLESS), n)
  {
    var body: Tree := TSeq(TNot(TCall(0)), TAny);
    assert Fixedlenx(ENDLESS, TNot(TCall(0)), 0, 0) == 0;
    assert Fixedlen(ENDLESS, body) == 1;
    assert WellFormed(ENDLESS, body);
    assert ENDLESS[0] == TBehind(1, body);
    forall m: nat ensures !FirstBounded(ENDLESS, ENDLESS[0], m) {
      EndlessUnbounded(m);
    }
  }

  lemma {:induction false} EndlessUnbounded(n: nat)
    ensures !FirstBounded(ENDLESS, ENDLESS[0], n)
    decreases n
  {
    var body: Tree := TSeq(TNot(TCall(0)), TAny);
    if n > 0 {
      EndlessUnbounded(n - 1);
    }
    assert !FirstBounded(ENDLESS, TCall(0), n);
    assert !FirstBounded(ENDLESS, TNot(TCall(0)), n);
    assert !FirstBounded(ENDLESS, body, n);
  }
}
