/** The code of accepted patterns ends too, also where it leaves loops too early. */
module LpegActHalts {
  import opened LpegTree
  import opened LpegAnalysis
  import opened LpegCode
  import opened LpegPremise
  import opened LpegActual
  import opened LpegVerify
  import opened LpegHalts

  /** Fuel for a further round of a repetition. */
  lemma RepFuel(g: Rules, t: Tree, opt: bool, fl: Charset, subj: Subject, s: nat, f1: nat, f2: nat) returns (fuel: nat)
    requires s <= |subj| && t.TRep?
    requires var r := Act(f1, g, t.body, PassesOn(g, t.body, opt, fl), FULLSET, subj, s);
             r.Passes? && !r.left && !Act(f2, g, t, opt, fl, subj, r.end).Going?
    ensures !Act(fuel, g, t, opt, fl, subj, s).Going?
  {
    hide PassesOn, Renews, Skips;
    fuel := f1 + f2 + 1;
    ActMoreFuel(f1, fuel, g, t.body, PassesOn(g, t.body, opt, fl), FULLSET, subj, s);
    ActMoreFuel(f2, fuel - 1, g, t, opt, fl, subj, Act(f1, g, t.body, PassesOn(g, t.body, opt, fl), FULLSET, subj, s).end);
  }

  lemma SeqFuel(g: Rules, t: Tree, opt: bool, fl: Charset, subj: Subject, s: nat, f1: nat, f2: nat) returns (fuel: nat)
    requires s <= |subj| && t.TSeq?
    requires var r := Act(f1, g, t.first, false, FollowOf(g, t.first, t.second, fl), subj, s);
             r.Passes? && !Act(f2, g, t.second, opt, fl, subj, r.end).Going?
    ensures !Act(fuel, g, t, opt, fl, subj, s).Going?
  {
    hide FollowOf;
    var fl1 := FollowOf(g, t.first, t.second, fl);
    fuel := f1 + f2;
    ActMoreFuel(f1, fuel, g, t.first, false, fl1, subj, s);
    ActMoreFuel(f2, fuel, g, t.second, opt, fl, subj, Act(f1, g, t.first, false, fl1, subj, s).end);
  }

  lemma ChoiceFuel(g: Rules, t: Tree, opt: bool, fl: Charset, subj: Subject, s: nat, f1: nat, f2: nat) returns (fuel: nat)
    requires s <= |subj| && t.TChoice?
    requires !Act(f1, g, t.first, OptOf(g, t.first, t.second, fl), FlOf(g, t.first, t.second, fl), subj, s).Going?
    requires !Act(f2, g, t.second, opt, fl, subj, s).Going?
    ensures !Act(fuel, g, t, opt, fl, subj, s).Going?
  {
    hide OptOf, FlOf;
    fuel := f1 + f2;
    ActMoreFuel(f1, fuel, g, t.first, OptOf(g, t.first, t.second, fl), FlOf(g, t.first, t.second, fl), subj, s);
    ActMoreFuel(f2, fuel, g, t.second, opt, fl, subj, s);
    ActChoice(fuel, g, t.first, t.second, opt, fl, subj, s);
  }

  lemma {:induction false} CallFreeRep(g: Rules, t: Tree, opt: bool, fl: Charset, subj: Subject, s: nat)
      returns (fuel: nat)
    requires s <= |subj| && !HasCalls(t) && Accepted(g, t) && BehindsEnd(t) && t.TRep?
    ensures !Act(fuel, g, t, opt, fl, subj, s).Going?
    decreases t, 1, |subj| - s, 0, t, 0
  {
    hide PassesOn, Renews, Skips, Checkaux;
    var inner := PassesOn(g, t.body, opt, fl);
    fuel := CallFreeActs(g, t.body, inner, FULLSET, subj, s);
    var r := Act(fuel, g, t.body, inner, FULLSET, subj, s);
    if r.Passes? && !r.left {
      ActNullable(fuel, g, t.body, inner, FULLSET, CHASE, subj, s);
      var f := CallFreeActs(g, t, opt, fl, subj, r.end);
      fuel := RepFuel(g, t, opt, fl, subj, s, fuel, f);
    }
  }

  lemma {:induction false} CallFreeSeq(g: Rules, t: Tree, opt: bool, fl: Charset, subj: Subject, s: nat)
      returns (fuel: nat)
    requires s <= |subj| && !HasCalls(t) && Accepted(g, t) && BehindsEnd(t) && t.TSeq?
    ensures !Act(fuel, g, t, opt, fl, subj, s).Going?
    decreases t, 1, |subj| - s, 0, t, 0
  {
    hide FollowOf, Checkaux;
    var fl1 := FollowOf(g, t.first, t.second, fl);
    fuel := CallFreeActs(g, t.first, false, fl1, subj, s);
    var r := Act(fuel, g, t.first, false, fl1, subj, s);
    if r.Passes? {
      var f := CallFreeActs(g, t.second, opt, fl, subj, r.end);
      fuel := SeqFuel(g, t, opt, fl, subj, s, fuel, f);
    }
  }

  /** The code of a pattern without calls of its own ends. */
  lemma {:induction false} CallFreeActs(g: Rules, t: Tree, opt: bool, fl: Charset, subj: Subject, s: nat)
      returns (fuel: nat)
    requires s <= |subj| && !HasCalls(t) && Accepted(g, t) && BehindsEnd(t)
    ensures !Act(fuel, g, t, opt, fl, subj, s).Going?
    decreases t, 1, |subj| - s, 0, t, 1
  {
    hide ChoiceByTest, LoopByTest, FollowOf, PassesOn, Renews, Skips, OptOf, FlOf, Checkaux, AndByBehind, CaptureFull;
    fuel := 0;
    match t
    case TRep(_) => fuel := CallFreeRep(g, t, opt, fl, subj, s);
    case TSeq(_, _) => fuel := CallFreeSeq(g, t, opt, fl, subj, s);
    case TChoice(p1, p2) =>
      var f1 := CallFreeActs(g, p1, OptOf(g, p1, p2, fl), FlOf(g, p1, p2, fl), subj, s);
      var f2 := CallFreeActs(g, p2, opt, fl, subj, s);
      fuel := ChoiceFuel(g, t, opt, fl, subj, s, f1, f2);
    case TNot(p) => fuel := CallFreeActs(g, p, false, FULLSET, subj, s);
    case TAnd(p) => fuel := CallFreeActs(g, p, false, FULLSET, subj, s);
    case TBehind(n, p) => if n <= s { fuel := CallFreeActs(g, p, false, FULLSET, subj, s - n); }
    case TCapture(_, _, p) => fuel := CallFreeActs(g, p, false, fl, subj, s);
    case TGrammar(rules) =>
      if rules != [] {
        var rank := StartInGrammar(t);
        fuel := RuleActs(t, rank, rank[0], MAXRULES, rules[0], false, FULLSET, subj, s);
      }
    case _ =>
  }

  lemma StartInGrammar(t: Tree) returns (rank: seq<nat>)
    requires t.TGrammar? && t.rules != [] && Accepted([], t) && BehindsEnd(t)
    ensures |rank| == |t.rules| && InGrammar(t, rank, rank[0], MAXRULES, t.rules[0])
  {
    hide Checkaux;
    assert Used(t.rules, 0);
    RuleUsed(t.rules, 0);
    rank :| RulesRanked(rank, t.rules);
  }

  lemma {:induction false} RepActs(grammar: Tree, rank: seq<nat>, r: nat, left: nat, t: Tree, opt: bool, fl: Charset,
                                   subj: Subject, s: nat) returns (fuel: nat)
    requires InGrammar(grammar, rank, r, left, t) && s <= |subj| && t.TRep?
    ensures !Act(fuel, grammar.rules, t, opt, fl, subj, s).Going?
    decreases grammar, 0, r, |subj| - s, left, t, 0
  {
    assert grammar.TGrammar? && t < grammar;
    hide InGrammar, Checkaux, PassesOn, Renews, Skips;
    var g := grammar.rules;
    var inner := PassesOn(g, t.body, opt, fl);
    PartsInGrammar(grammar, rank, r, left, t);
    fuel := RuleActs(grammar, rank, r, left, t.body, inner, FULLSET, subj, s);
    var m := Act(fuel, g, t.body, inner, FULLSET, subj, s);
    if m.Passes? && !m.left {
      ActNullable(fuel, g, t.body, inner, FULLSET, CHASE, subj, s);
      var f := RuleActs(grammar, rank, r, left, t, opt, fl, subj, m.end);
      fuel := RepFuel(g, t, opt, fl, subj, s, fuel, f);
    }
  }

  lemma {:induction false} SeqActs(grammar: Tree, rank: seq<nat>, r: nat, left: nat, t: Tree, opt: bool, fl: Charset,
                                   subj: Subject, s: nat) returns (fuel: nat)
    requires InGrammar(grammar, rank, r, left, t) && s <= |subj| && t.TSeq?
    ensures !Act(fuel, grammar.rules, t, opt, fl, subj, s).Going?
    decreases grammar, 0, r, |subj| - s, left, t, 0
  {
    assert grammar.TGrammar? && t < grammar;
    hide InGrammar, Checkaux, FollowOf;
    var g := grammar.rules;
    var fl1 := FollowOf(g, t.first, t.second, fl);
    SeqInGrammar(grammar, rank, r, left, t);
    fuel := RuleActs(grammar, rank, r, left, t.first, false, fl1, subj, s);
    var m := Act(fuel, g, t.first, false, fl1, subj, s);
    if m.Passes? {
      var f;
      if m.end > s {
        f := RuleActs(grammar, rank, r, CHASE, t.second, opt, fl, subj, m.end);
      } else {
        if !Nullable(g, t.first) { ActNullable(fuel, g, t.first, false, fl1, CHASE, subj, s); }
        f := RuleActs(grammar, rank, r, left, t.second, opt, fl, subj, s);
      }
      fuel := SeqFuel(g, t, opt, fl, subj, s, fuel, f);
    }
  }

  /** The code of every part of an accepted grammar ends, by the measure of RuleHalts. */
  lemma {:induction false} RuleActs(grammar: Tree, rank: seq<nat>, r: nat, left: nat, t: Tree, opt: bool, fl: Charset,
                                    subj: Subject, s: nat) returns (fuel: nat)
    requires InGrammar(grammar, rank, r, left, t) && s <= |subj|
    ensures !Act(fuel, grammar.rules, t, opt, fl, subj, s).Going?
    decreases grammar, 0, r, |subj| - s, left, t, 1
  {
    assert grammar.TGrammar? && t < grammar;
    hide InGrammar, Checkaux, ChoiceByTest, LoopByTest, FollowOf, PassesOn, Renews, Skips, OptOf, FlOf, AndByBehind,
      CaptureFull;
    var g := grammar.rules;
    PartsInGrammar(grammar, rank, r, left, t);
    fuel := 0;
    match t
    case TRep(_) => fuel := RepActs(grammar, rank, r, left, t, opt, fl, subj, s);
    case TSeq(_, _) => fuel := SeqActs(grammar, rank, r, left, t, opt, fl, subj, s);
    case TChoice(p1, p2) =>
      var f1 := RuleActs(grammar, rank, r, left, p1, OptOf(g, p1, p2, fl), FlOf(g, p1, p2, fl), subj, s);
      var f2 := RuleActs(grammar, rank, r, left, p2, opt, fl, subj, s);
      fuel := ChoiceFuel(g, t, opt, fl, subj, s, f1, f2);
    case TNot(p) => fuel := RuleActs(grammar, rank, r, left, p, false, FULLSET, subj, s);
    case TAnd(p) => fuel := RuleActs(grammar, rank, r, left, p, false, FULLSET, subj, s);
    case TCapture(_, _, p) => fuel := RuleActs(grammar, rank, r, left, p, false, fl, subj, s);
    case TBehind(n, p) =>
      BehindInGrammar(grammar, rank, r, left, t);
      if n <= s && HasCalls(p) {
        fuel := RuleActs(grammar, rank, r - 1, CHASE, p, false, FULLSET, subj, s - n);
      } else if n <= s {
        fuel := CallFreeActs(g, p, false, FULLSET, subj, s - n);
      }
    case TCall(k) =>
      if k < |g| {
        RuleInGrammar(grammar, rank, r, left, t);
        fuel := RuleActs(grammar, rank, rank[k], left - 1, g[k], false, FULLSET, subj, s);
        fuel := fuel + 1;
      }
    case TGrammar(_) => fuel := CallFreeActs(g, t, opt, fl, subj, s);
    case _ =>
  }

  /** The code of every loaded pattern whose look-behinds end, ends on every subject, from every position. */
  lemma LoadedActs(t: Tree, subj: Subject, s: nat) returns (fuel: nat)
    requires Loaded(t) && WellFormed([], t) && BehindsEnd(t) && s <= |subj|
    ensures !Act(fuel, [], t, false, FULLSET, subj, s).Going?
  {
    LoadedAccepted(t);
    fuel := CallFreeActs([], t, false, FULLSET, subj, s);
  }
}
