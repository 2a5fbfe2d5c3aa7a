/** Which patterns reach the compiler: what the constructors keep, and what exactly is asked of a loaded pattern. */
module LpegLoaded {
  import opened LpegTree
  import opened LpegAnalysis
  import opened LpegPremise
  import opened LpegVerify
  import opened LpegHalts
  import opened LpegExact
  import opened LpegBuild

  // ---------- Look-behinds ----------

  /** Does the pattern call rule `k` inside a look-behind? */
  predicate BehindCalls(t: Tree, k: nat)
  {
    match t
    case TBehind(_, p) => Calls(p, k)
    case TRep(p) => BehindCalls(p, k)
    case TSeq(p1, p2) => BehindCalls(p1, k) || BehindCalls(p2, k)
    case TChoice(p1, p2) => BehindCalls(p1, k) || BehindCalls(p2, k)
    case TNot(p) => BehindCalls(p, k)
    case TAnd(p) => BehindCalls(p, k)
    case TCapture(_, _, p) => BehindCalls(p, k)
    case _ => false
  }

  /** A list of rules each of which calls the next. */
  ghost predicate Leads(g: Rules, path: seq<nat>)
  {
    && path != []
    && (forall i :: 0 <= i < |path| ==> path[i] < |g|)
    && (forall i :: 0 <= i < |path| - 1 ==> Calls(g[path[i]], path[i + 1]))
  }

  ghost predicate Reaches(g: Rules, a: nat, b: nat)
  {
    exists path: seq<nat> :: Leads(g, path) && path[0] == a && path[|path| - 1] == b
  }

  /** Some rule gets back to itself by way of a call inside a look-behind. */
  ghost predicate BehindCycle(g: Rules)
  {
    exists r: nat, k: nat :: r < |g| && k < |g| && BehindCalls(g[r], k) && Reaches(g, k, r)
  }

  /** Ranks do not grow along calls, and fall along those inside look-behinds. */
  lemma {:induction false} RanksFall(rank: seq<nat>, t: Tree, r: nat, k: nat)
    requires Ranked(rank, t, r) && k < |rank|
    ensures Calls(t, k) ==> rank[k] <= r
    ensures BehindCalls(t, k) ==> rank[k] < r
    decreases t
  {
    match t
    case TBehind(_, p) => if Calls(p, k) { CallsHas(p, k); RanksFall(rank, p, r - 1, k); }
    case TRep(p) => RanksFall(rank, p, r, k);
    case TSeq(p1, p2) => RanksFall(rank, p1, r, k); RanksFall(rank, p2, r, k);
    case TChoice(p1, p2) => RanksFall(rank, p1, r, k); RanksFall(rank, p2, r, k);
    case TNot(p) => RanksFall(rank, p, r, k);
    case TAnd(p) => RanksFall(rank, p, r, k);
    case TCapture(_, _, p) => RanksFall(rank, p, r, k);
    case _ =>
  }

  lemma {:induction false} CallsHas(t: Tree, k: nat)
    requires Calls(t, k)
    ensures HasCalls(t)
    decreases t
  {
    match t
    case TBehind(_, p) => CallsHas(p, k);
    case TRep(p) => CallsHas(p, k);
    case TSeq(p1, p2) => if Calls(p1, k) { CallsHas(p1, k); } else { CallsHas(p2, k); }
    case TChoice(p1, p2) => if Calls(p1, k) { CallsHas(p1, k); } else { CallsHas(p2, k); }
    case TNot(p) => CallsHas(p, k);
    case TAnd(p) => CallsHas(p, k);
    case TCapture(_, _, p) => CallsHas(p, k);
    case TCall(_) =>
  }

  lemma {:induction false} PathFalls(rank: seq<nat>, g: Rules, path: seq<nat>)
    requires RulesRanked(rank, g) && Leads(g, path)
    ensures rank[path[|path| - 1]] <= rank[path[0]]
    decreases |path|
  {
    if |path| > 1 {
      var front := path[..|path| - 1];
      PathFalls(rank, g, front);
      var a := path[|path| - 2];
      assert Calls(g[a], path[|path| - 2 + 1]);
      RanksFall(rank, g[a], rank[a], path[|path| - 1]);
    }
  }

  /** How deep look-behinds are nested. */
  function BehindDepth(t: Tree): nat
  {
    match t
    case TBehind(_, p) => 1 + BehindDepth(p)
    case TRep(p) => BehindDepth(p)
    case TSeq(p1, p2) => Most(BehindDepth(p1), BehindDepth(p2))
    case TChoice(p1, p2) => Most(BehindDepth(p1), BehindDepth(p2))
    case TNot(p) => BehindDepth(p)
    case TAnd(p) => BehindDepth(p)
    case TCapture(_, _, p) => BehindDepth(p)
    case _ => 0
  }

  function DepthOf(g: Rules): (d: nat)
    ensures forall k :: 0 <= k < |g| ==> BehindDepth(g[k]) <= d
    decreases g
  {
    if g == [] then 0 else Most(BehindDepth(g[0]), DepthOf(g[1..]))
  }

  lemma {:induction false} RankedBy(rank: seq<nat>, t: Tree, r: nat)
    requires BehindDepth(t) <= r
    requires forall k: nat :: k < |rank| && Calls(t, k) ==> rank[k] <= r
    requires forall k: nat :: k < |rank| && BehindCalls(t, k) ==> rank[k] + BehindDepth(t) <= r
    ensures Ranked(rank, t, r)
    decreases t, 0
  {
    match t
    case TBehind(_, p) => BehindInside(rank, p, r);
    case TRep(p) => RankedBy(rank, p, r);
    case TSeq(p1, p2) => RankedBy(rank, p1, r); RankedBy(rank, p2, r);
    case TChoice(p1, p2) => RankedBy(rank, p1, r); RankedBy(rank, p2, r);
    case TNot(p) => RankedBy(rank, p, r);
    case TAnd(p) => RankedBy(rank, p, r);
    case TCapture(_, _, p) => RankedBy(rank, p, r);
    case _ =>
  }

  lemma {:induction false} BehindInside(rank: seq<nat>, p: Tree, r: nat)
    requires 1 + BehindDepth(p) <= r
    requires forall k: nat :: k < |rank| && Calls(p, k) ==> rank[k] + 1 + BehindDepth(p) <= r
    ensures Ranked(rank, p, r - 1)
    decreases p, 1
  {
    forall k: nat | k < |rank| && BehindCalls(p, k) ensures Calls(p, k) {
      BehindIsCall(p, k);
    }
    RankedBy(rank, p, r - 1);
  }

  lemma {:induction false} BehindIsCall(t: Tree, k: nat)
    requires BehindCalls(t, k)
    ensures Calls(t, k)
    decreases t
  {
    match t
    case TBehind(_, p) =>
    case TRep(p) => BehindIsCall(p, k);
    case TSeq(p1, p2) => if BehindCalls(p1, k) { BehindIsCall(p1, k); } else { BehindIsCall(p2, k); }
    case TChoice(p1, p2) => if BehindCalls(p1, k) { BehindIsCall(p1, k); } else { BehindIsCall(p2, k); }
    case TNot(p) => BehindIsCall(p, k);
    case TAnd(p) => BehindIsCall(p, k);
    case TCapture(_, _, p) => BehindIsCall(p, k);
  }

  /** The rules that a rule reaches, itself included. */
  ghost function Reach(g: Rules, r: nat): set<nat>
  {
    set k: nat | k < |g| && Reaches(g, r, k)
  }

  lemma ReachesOnward(g: Rules, r: nat, k: nat)
    requires r < |g| && k < |g| && Calls(g[r], k)
    ensures Reach(g, k) <= Reach(g, r)
  {
    forall b | b in Reach(g, k) ensures b in Reach(g, r) {
      var path: seq<nat> :| Leads(g, path) && path[0] == k && path[|path| - 1] == b;
      var longer := [r] + path;
      assert Leads(g, longer) by {
        forall i | 0 <= i < |longer| - 1 ensures Calls(g[longer[i]], longer[i + 1]) {
          if i > 0 {
            assert longer[i] == path[i - 1] && longer[i + 1] == path[i - 1 + 1];
          }
        }
      }
    }
  }

  lemma ReachesItself(g: Rules, r: nat)
    requires r < |g|
    ensures r in Reach(g, r)
  {
    assert Leads(g, [r]);
  }

  lemma {:induction false} SmallerSet(a: set<nat>, b: set<nat>)
    requires a <= b
    ensures |a| <= |b| && (a != b ==> |a| < |b|)
  {
    assert b == a + (b - a);
  }

  /** Rules can be ranked if and only if none gets back to itself through a call inside a look-behind. */
  lemma RanksExact(g: Rules)
    ensures (exists rank :: RulesRanked(rank, g)) <==> !BehindCycle(g)
  {
    hide Calls, BehindCalls, Ranked, Reaches;
    if exists rank :: RulesRanked(rank, g) {
      var rank :| RulesRanked(rank, g);
      if BehindCycle(g) {
        var r: nat, k: nat :| r < |g| && k < |g| && BehindCalls(g[r], k) && Reaches(g, k, r);
        CycleFalls(rank, g, r, k);
        assert false;
      }
    }
    if !BehindCycle(g) {
      var d := DepthOf(g) + 1;
      var rank: seq<nat> := seq(|g|, r requires 0 <= r < |g| => |Reach(g, r)| * d);
      forall r | 0 <= r < |g| ensures Ranked(rank, g[r], rank[r]) {
        RankOne(g, rank, d, r);
      }
      assert RulesRanked(rank, g);
    }
  }

  lemma CycleFalls(rank: seq<nat>, g: Rules, r: nat, k: nat)
    requires RulesRanked(rank, g) && r < |g| && k < |g| && BehindCalls(g[r], k)
    ensures !Reaches(g, k, r)
  {
    RanksFall(rank, g[r], rank[r], k);
    forall path: seq<nat> | Leads(g, path) && path[0] == k ensures path[|path| - 1] != r {
      PathFalls(rank, g, path);
    }
  }

  lemma RankOne(g: Rules, rank: seq<nat>, d: nat, r: nat)
    requires !BehindCycle(g) && d == DepthOf(g) + 1 && r < |g| == |rank|
    requires forall k :: 0 <= k < |g| ==> rank[k] == |Reach(g, k)| * d
    ensures Ranked(rank, g[r], rank[r])
  {
    hide Calls, BehindCalls, Ranked, Reaches, Reach, BehindDepth, DepthOf;
    var n := |Reach(g, r)|;
    ReachesItself(g, r);
    SmallerSet({r}, Reach(g, r));
    Times(1, n, d);
    forall k: nat | k < |g| && Calls(g[r], k) ensures rank[k] <= rank[r] {
      ReachesOnward(g, r, k);
      SmallerSet(Reach(g, k), Reach(g, r));
      Times(|Reach(g, k)|, n, d);
    }
    forall k: nat | k < |g| && BehindCalls(g[r], k) ensures rank[k] + d <= rank[r] {
      BehindReachesLess(g, r, k);
      Times(|Reach(g, k)| + 1, n, d);
      Times(|Reach(g, k)|, n, d);
    }
    RankedBy(rank, g[r], rank[r]);
  }

  lemma BehindReachesLess(g: Rules, r: nat, k: nat)
    requires !BehindCycle(g) && r < |g| && k < |g| && BehindCalls(g[r], k)
    ensures |Reach(g, k)| < |Reach(g, r)|
  {
    hide Calls, BehindCalls, Reaches;
    BehindIsCall(g[r], k);
    ReachesOnward(g, r, k);
    ReachesItself(g, r);
    assert r !in Reach(g, k);
    SmallerSet(Reach(g, k), Reach(g, r));
  }

  lemma Times(a: nat, b: nat, d: nat)
    requires a <= b
    ensures a * d <= b * d && (a + 1) * d == a * d + d
  {
  }

  /** The look-behinds of a pattern end if and only if none of its grammars has such a cycle. */
  lemma {:induction false} BehindsEndExact(t: Tree)
    ensures BehindsEnd(t) <==> forall p :: PartOf(p, t) && p.TGrammar? ==> !BehindCycle(p.rules)
    decreases t
  {
    hide BehindCycle, RulesRanked;
    match t
    case TRep(p) => BehindsEndExact(p);
    case TSeq(p1, p2) => BehindsEndExact(p1); BehindsEndExact(p2);
    case TChoice(p1, p2) => BehindsEndExact(p1); BehindsEndExact(p2);
    case TNot(p) => BehindsEndExact(p);
    case TAnd(p) => BehindsEndExact(p);
    case TBehind(_, p) => BehindsEndExact(p);
    case TCapture(_, _, p) => BehindsEndExact(p);
    case TGrammar(rules) =>
      RanksExact(rules);
      forall k | 0 <= k < |rules|
        ensures BehindsEnd(rules[k]) <==> forall p :: PartOf(p, rules[k]) && p.TGrammar? ==> !BehindCycle(p.rules)
      {
        BehindsEndExact(rules[k]);
      }
      GrammarParts(t);
    case _ =>
  }

  lemma GrammarParts(t: Tree)
    requires t.TGrammar?
    ensures PartOf(t, t)
    ensures forall p, k :: 0 <= k < |t.rules| && PartOf(p, t.rules[k]) ==> PartOf(p, t)
    ensures forall p :: PartOf(p, t) ==> p == t || exists k :: 0 <= k < |t.rules| && PartOf(p, t.rules[k])
  {
  }

  // ---------- Loops and grammars ----------

  /** What the loader checked of a grammar, and that its walks covered it. */
  predicate Checked(g: Rules) { VerifyGrammar(g) && CoveredRules(g) }

  /** The grammars of a pattern are loaded if and only if each of them, however deep, was checked. */
  lemma {:induction false} GrammarsLoadedExact(t: Tree)
    ensures GrammarsLoaded(t) <==> forall p :: PartOf(p, t) && p.TGrammar? ==> Checked(p.rules)
    decreases t
  {
    hide VerifyGrammar, CoveredRules;
    match t
    case TRep(p) => GrammarsLoadedExact(p);
    case TSeq(p1, p2) => GrammarsLoadedExact(p1); GrammarsLoadedExact(p2);
    case TChoice(p1, p2) => GrammarsLoadedExact(p1); GrammarsLoadedExact(p2);
    case TNot(p) => GrammarsLoadedExact(p);
    case TAnd(p) => GrammarsLoadedExact(p);
    case TBehind(_, p) => GrammarsLoadedExact(p);
    case TCapture(_, _, p) => GrammarsLoadedExact(p);
    case TGrammar(rules) =>
      forall k | 0 <= k < |rules|
        ensures GrammarsLoaded(rules[k]) <==> forall p :: PartOf(p, rules[k]) && p.TGrammar? ==> Checked(p.rules)
      {
        GrammarsLoadedExact(rules[k]);
      }
      GrammarParts(t);
    case _ =>
  }

  /** The parts of a pattern outside its grammars. */
  predicate OuterPart(p: Tree, t: Tree)
  {
    p == t ||
    match t
    case TRep(q) => OuterPart(p, q)
    case TSeq(q1, q2) => OuterPart(p, q1) || OuterPart(p, q2)
    case TChoice(q1, q2) => OuterPart(p, q1) || OuterPart(p, q2)
    case TNot(q) => OuterPart(p, q)
    case TAnd(q) => OuterPart(p, q)
    case TBehind(_, q) => OuterPart(p, q)
    case TCapture(_, _, q) => OuterPart(p, q)
    case _ => false
  }

  /** A pattern is loaded if and only if its grammars are, and no loop outside them has a nullable body. */
  lemma {:induction false} LoadedExact(t: Tree)
    ensures Loaded(t) <==> GrammarsLoaded(t) && forall p :: OuterPart(p, t) && p.TRep? ==> !Nullable([], p.body)
    decreases t
  {
    hide Checkaux, VerifyGrammar, CoveredRules;
    match t
    case TRep(p) => LoadedExact(p); assert OuterPart(t, t);
    case TSeq(p1, p2) => LoadedExact(p1); LoadedExact(p2);
    case TChoice(p1, p2) => LoadedExact(p1); LoadedExact(p2);
    case TNot(p) => LoadedExact(p);
    case TAnd(p) => LoadedExact(p);
    case TBehind(_, p) => LoadedExact(p);
    case TCapture(_, _, p) => LoadedExact(p);
    case _ =>
  }

  // ---------- Constructors ----------

  /** What a pattern made of others needs of them: nothing more, but that no body of p^n is nullable. */
  lemma {:induction false} StarLoads(g: Rules, t: Tree, n: int)
    ensures Loaded(StarTree(t, n)) <==> Loaded(t) && (n >= 0 ==> !Nullable([], t))
    ensures WellFormed(g, StarTree(t, n)) <==> WellFormed(g, t)
    decreases if n >= 0 then n else -n
  {
    hide Checkaux, VerifyGrammar, CoveredRules, Fixedlenx;
    if n > 0 {
      StarLoads(g, t, n - 1);
    } else if n < -1 {
      StarLoads(g, t, n + 1);
    }
  }

  /** Simplified sequences, choices and differences are loaded as their parts are. */
  lemma PairsLoad(g: Rules, t1: Tree, t2: Tree)
    requires Loaded(t1) && Loaded(t2) && WellFormed(g, t1) && WellFormed(g, t2)
    ensures Loaded(SeqTree(t1, t2)) && WellFormed(g, SeqTree(t1, t2))
    ensures Loaded(ChoiceTree(t1, t2)) && WellFormed(g, ChoiceTree(t1, t2))
    ensures Loaded(SubTree(t1, t2)) && WellFormed(g, SubTree(t1, t2))
  {
    hide Checkaux, VerifyGrammar, CoveredRules, Fixedlenx;
  }

  /** Predicates and captures of loaded patterns are loaded. */
  lemma OneLoads(g: Rules, t: Tree, kind: nat, key: int)
    requires Loaded(t) && WellFormed(g, t)
    ensures Loaded(TNot(t)) && WellFormed(g, TNot(t)) && Loaded(TAnd(t)) && WellFormed(g, TAnd(t))
    ensures Loaded(TCapture(kind, key, t)) && WellFormed(g, TCapture(kind, key, t))
  {
    hide Checkaux, VerifyGrammar, CoveredRules, Fixedlenx;
  }
}
