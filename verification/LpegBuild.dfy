/**
 * Pattern trees as they are stored, in one array of nodes with relative links, and the operations
 * that build them.
 */
module LpegBuild {
  import opened Options
  import opened LpegTree
  import opened LpegAnalysis
  import opened LpegAnalysisSound

  // ---------- The flat layout ----------

  datatype Tag = KChar | KSet | KAny | KTrue | KFalse | KRep | KSeq | KChoice | KNot | KAnd | KCall | KRule | KGrammar |
    KBehind | KCapture

  /**
   * A node, or a piece of the buffer of a set. The first sibling follows its node; `n` is the
   * distance to the second one, or a counter. A call that is still open names its rule by `key`.
   */
  datatype Slot = Node(tag: Tag, cap: nat, key: int, n: int) | Chunk(cs: Charset)

  /** Nodes that a 32-byte buffer takes. */
  const CHUNKS := 4

  function Buffer(cs: Charset): seq<Slot> { [Chunk(cs), Chunk(cs), Chunk(cs), Chunk(cs)] }

  function Leaf(tag: Tag, n: int): Slot { Node(tag, 0, 0, n) }

  function Flat(t: Tree): (r: seq<Slot>)
    ensures |r| > 0
    decreases t, 1, 0
  {
    match t
    case TChar(c) => [Leaf(KChar, c)]
    case TSet(cs) => [Leaf(KSet, 0)] + Buffer(cs)
    case TAny => [Leaf(KAny, 0)]
    case TTrue => [Leaf(KTrue, 0)]
    case TFalse => [Leaf(KFalse, 0)]
    case TRep(p) => [Leaf(KRep, 0)] + Flat(p)
    case TSeq(p1, p2) => [Leaf(KSeq, |Flat(p1)| + 1)] + Flat(p1) + Flat(p2)
    case TChoice(p1, p2) => [Leaf(KChoice, |Flat(p1)| + 1)] + Flat(p1) + Flat(p2)
    case TNot(p) => [Leaf(KNot, 0)] + Flat(p)
    case TAnd(p) => [Leaf(KAnd, 0)] + Flat(p)
    case TCall(k) => [Node(KCall, 0, k, 0)]
    case TBehind(n, p) => [Leaf(KBehind, n)] + Flat(p)
    case TCapture(kind, key, p) => [Node(KCapture, kind, key, 0)] + Flat(p)
    case TGrammar(rules) => [Leaf(KGrammar, |rules|)] + FlatFrom(t, 0)
  }

  /** The rules of a grammar from rule `i` on; KTrue ends the list. */
  function FlatFrom(t: Tree, i: nat): (r: seq<Slot>)
    requires t.TGrammar? && i <= |t.rules|
    ensures |r| > 0
    decreases t, 0, |t.rules| - i
  {
    if i == |t.rules| then [Leaf(KTrue, 0)]
    else [Node(KRule, i, 0, |Flat(t.rules[i])| + 1)] + Flat(t.rules[i]) + FlatFrom(t, i + 1)
  }

  /** The tree that starts at node `i`, found by following links. */
  function TreeAt(slots: seq<Slot>, i: int): Option<Tree>
    decreases |slots| - i, 0
  {
    if !(0 <= i < |slots|) || slots[i].Chunk? then None
    else
      var nd := slots[i];
      match nd.tag
      case KChar => if 0 <= nd.n < 256 then Some(TChar(nd.n)) else None
      case KSet => if i + 1 < |slots| && slots[i + 1].Chunk? then Some(TSet(slots[i + 1].cs)) else None
      case KAny => Some(TAny)
      case KTrue => Some(TTrue)
      case KFalse => Some(TFalse)
      case KRep => (match TreeAt(slots, i + 1) case Some(p) => Some(TRep(p)) case None => None)
      case KNot => (match TreeAt(slots, i + 1) case Some(p) => Some(TNot(p)) case None => None)
      case KAnd => (match TreeAt(slots, i + 1) case Some(p) => Some(TAnd(p)) case None => None)
      case KBehind =>
        (match TreeAt(slots, i + 1) case Some(p) => if nd.n >= 0 then Some(TBehind(nd.n, p)) else None case None => None)
      case KCapture => (match TreeAt(slots, i + 1) case Some(p) => Some(TCapture(nd.cap, nd.key, p)) case None => None)
      case KCall => if nd.key >= 0 then Some(TCall(nd.key)) else None
      case KSeq =>
        if nd.n <= 0 then None
        else (match (TreeAt(slots, i + 1), TreeAt(slots, i + nd.n))
              case (Some(p1), Some(p2)) => Some(TSeq(p1, p2))
              case _ => None)
      case KChoice =>
        if nd.n <= 0 then None
        else (match (TreeAt(slots, i + 1), TreeAt(slots, i + nd.n))
              case (Some(p1), Some(p2)) => Some(TChoice(p1, p2))
              case _ => None)
      case KGrammar => (match RulesAt(slots, i + 1) case Some(rules) => Some(TGrammar(rules)) case None => None)
      case KRule => None
  }

  function RulesAt(slots: seq<Slot>, i: int): Option<seq<Tree>>
    decreases |slots| - i, 1
  {
    if !(0 <= i < |slots|) || slots[i].Chunk? then None
    else if slots[i].tag.KTrue? then Some([])
    else if !slots[i].tag.KRule? || slots[i].n <= 0 then None
    else
      match (TreeAt(slots, i + 1), RulesAt(slots, i + slots[i].n))
      case (Some(r), Some(rest)) => Some([r] + rest)
      case _ => None
  }

  /** Does `a` hold `part` from `i` on? */
  predicate Holds(a: seq<Slot>, i: nat, part: seq<Slot>)
  {
    i + |part| <= |a| && forall j :: 0 <= j < |part| ==> a[i + j] == part[j]
  }

  lemma {:induction false} HoldsParts(a: seq<Slot>, i: nat, p: seq<Slot>, q: seq<Slot>)
    requires Holds(a, i, p + q)
    ensures Holds(a, i, p) && Holds(a, i + |p|, q)
  {
    forall j | 0 <= j < |p| ensures a[i + j] == p[j] {
      assert (p + q)[j] == p[j];
    }
    forall j | 0 <= j < |q| ensures a[i + |p| + j] == q[j] {
      assert (p + q)[|p| + j] == q[j];
    }
  }

  lemma {:induction false} HoldsNode(a: seq<Slot>, i: nat, nd: Slot, rest: seq<Slot>)
    requires Holds(a, i, [nd] + rest)
    ensures i < |a| && a[i] == nd && Holds(a, i + 1, rest)
  {
    HoldsParts(a, i, [nd], rest);
    assert [nd][0] == nd && a[i + 0] == nd;
  }

  /** What TreeAt reads at a node with one sibling. */
  lemma {:induction false} OneSibling(a: seq<Slot>, i: nat, t: Tree)
    requires t.TRep? || t.TNot? || t.TAnd? || t.TBehind? || t.TCapture?
    requires Holds(a, i, Flat(t))
    ensures Holds(a, i + 1, Flat(t.body))
    ensures TreeAt(a, i + 1) == Some(t.body) ==> TreeAt(a, i) == Some(t)
  {
    HoldsNode(a, i, Flat(t)[0], Flat(t.body)) by {
      assert Flat(t) == [Flat(t)[0]] + Flat(t.body);
    }
    assert a[i] == Flat(t)[0];
  }

  lemma {:induction false} LeafAt(a: seq<Slot>, i: nat, t: Tree)
    requires t.TChar? || t.TSet? || t.TAny? || t.TTrue? || t.TFalse? || t.TCall?
    requires Holds(a, i, Flat(t))
    ensures TreeAt(a, i) == Some(t)
  {
    assert a[i + 0] == Flat(t)[0];
    if t.TSet? {
      assert Flat(t)[1] == Chunk(t.cs);
      assert a[i + 1] == Flat(t)[1];
    }
  }

  lemma {:induction false} GrammarAt(a: seq<Slot>, i: nat, t: Tree)
    requires t.TGrammar? && Holds(a, i, Flat(t))
    ensures Holds(a, i + 1, FlatFrom(t, 0))
    ensures RulesAt(a, i + 1) == Some(t.rules) ==> TreeAt(a, i) == Some(t)
  {
    hide Holds, FlatFrom, RulesAt;
    HoldsNode(a, i, Leaf(KGrammar, |t.rules|), FlatFrom(t, 0));
  }

  /** The links of the layout lead back to the tree. */
  lemma {:induction false} TreeAtFlat(a: seq<Slot>, i: nat, t: Tree)
    requires Holds(a, i, Flat(t))
    ensures TreeAt(a, i) == Some(t)
    decreases t, 1, 0
  {
    hide Holds, TreeAt, RulesAt, Flat, FlatFrom;
    if t.TSeq? || t.TChoice? {
      TwoSiblings(a, i, t);
      TreeAtFlat(a, i + 1, t.first);
      TreeAtFlat(a, i + 1 + |Flat(t.first)|, t.second);
    } else if t.TGrammar? {
      GrammarAt(a, i, t);
      RulesAtFlat(a, i + 1, t, 0);
      assert t.rules[0..] == t.rules;
    } else if t.TRep? || t.TNot? || t.TAnd? || t.TBehind? || t.TCapture? {
      OneSibling(a, i, t);
      TreeAtFlat(a, i + 1, t.body);
    } else {
      LeafAt(a, i, t);
    }
  }

  function Pair(t: Tree, p1: Tree, p2: Tree): Tree
    requires t.TSeq? || t.TChoice?
  {
    if t.TSeq? then TSeq(p1, p2) else TChoice(p1, p2)
  }

  function PairTag(t: Tree): Tag
    requires t.TSeq? || t.TChoice?
  {
    if t.TSeq? then KSeq else KChoice
  }

  lemma {:induction false} FlatPair(t: Tree)
    requires t.TSeq? || t.TChoice?
    ensures Flat(t) == [Leaf(PairTag(t), |Flat(t.first)| + 1)] + Flat(t.first) + Flat(t.second)
  {
  }

  lemma {:induction false} TwoSiblings(a: seq<Slot>, i: nat, t: Tree)
    requires t.TSeq? || t.TChoice?
    requires Holds(a, i, Flat(t))
    ensures i < |a| && a[i] == Leaf(PairTag(t), |Flat(t.first)| + 1)
    ensures Holds(a, i + 1, Flat(t.first)) && Holds(a, i + 1 + |Flat(t.first)|, Flat(t.second))
    ensures TreeAt(a, i + 1) == Some(t.first) && TreeAt(a, i + 1 + |Flat(t.first)|) == Some(t.second) ==>
              TreeAt(a, i) == Some(t)
  {
    hide Flat, Holds;
    FlatPair(t);
    HoldsParts(a, i, [Leaf(PairTag(t), |Flat(t.first)| + 1)] + Flat(t.first), Flat(t.second));
    HoldsNode(a, i, Leaf(PairTag(t), |Flat(t.first)| + 1), Flat(t.first));
  }

  lemma {:induction false} RulesAtFlat(a: seq<Slot>, i: nat, t: Tree, k: nat)
    requires t.TGrammar? && k <= |t.rules| && Holds(a, i, FlatFrom(t, k))
    ensures RulesAt(a, i) == Some(t.rules[k..])
    decreases t, 0, |t.rules| - k
  {
    if k == |t.rules| {
      assert FlatFrom(t, k) == [Leaf(KTrue, 0)] + [];
      HoldsNode(a, i, Leaf(KTrue, 0), []);
      assert t.rules[k..] == [];
    } else {
      var r := t.rules[k];
      HoldsParts(a, i, [Node(KRule, k, 0, |Flat(r)| + 1)] + Flat(r), FlatFrom(t, k + 1));
      HoldsNode(a, i, Node(KRule, k, 0, |Flat(r)| + 1), Flat(r));
      TreeAtFlat(a, i + 1, r);
      RulesAtFlat(a, i + 1 + |Flat(r)|, t, k + 1);
      assert [r] + t.rules[k + 1..] == t.rules[k..];
    }
  }

  // ---------- How the meaning of a pattern is put together ----------

  /** An outcome with the captures made before it. */
  function Led(caps: seq<CapTree>, r: Outcome): Outcome
  {
    if r.Match? then Match(r.end, caps + r.caps) else r
  }

  lemma {:induction false} LedTwice(c1: seq<CapTree>, c2: seq<CapTree>, r: Outcome)
    ensures Led(c1, Led(c2, r)) == Led(c1 + c2, r)
  {
    if r.Match? {
      assert c1 + (c2 + r.caps) == (c1 + c2) + r.caps;
    }
  }

  lemma {:induction false} SeqMeans(fuel: nat, g: Rules, t: Tree, subj: Subject, s: nat)
    requires s <= |subj| && t.TSeq?
    ensures var r := Eval(fuel, g, t.first, subj, s);
            Eval(fuel, g, t, subj, s) == if r.Match? then Led(r.caps, Eval(fuel, g, t.second, subj, r.end)) else r
  {
  }

  lemma {:induction false} ChoiceMeans(fuel: nat, g: Rules, t: Tree, subj: Subject, s: nat)
    requires s <= |subj| && t.TChoice?
    ensures var r := Eval(fuel, g, t.first, subj, s);
            Eval(fuel, g, t, subj, s) == if r.NoMatch? then Eval(fuel, g, t.second, subj, s) else r
  {
  }

  lemma {:induction false} TrueMeans(fuel: nat, g: Rules, subj: Subject, s: nat)
    requires s <= |subj|
    ensures Eval(fuel, g, TTrue, subj, s) == Match(s, [])
  {
  }

  lemma {:induction false} NotMeans(fuel: nat, g: Rules, p: Tree, subj: Subject, s: nat)
    requires s <= |subj|
    ensures var r := Eval(fuel, g, p, subj, s);
            Eval(fuel, g, TNot(p), subj, s) == if r.Running? then r else if r.Match? then NoMatch else Match(s, [])
  {
  }

  lemma {:induction false} LedByNothing(caps: seq<CapTree>, e: nat, r: Outcome)
    ensures Led([], r) == r && Led(caps, Match(e, [])) == Match(e, caps)
  {
    if r.Match? {
      assert [] + r.caps == r.caps;
    }
    assert caps + [] == caps;
  }

  // ---------- Simplifying constructors ----------

  /** A sequence; nothing is added to what cannot match or to an empty partner. */
  function SeqTree(t1: Tree, t2: Tree): Tree
  {
    if t1.TFalse? || t2.TTrue? then t1 else if t1.TTrue? then t2 else TSeq(t1, t2)
  }

  /** A choice; two sets become one, and an alternative that cannot be taken or cannot match is left out. */
  function ChoiceTree(t1: Tree, t2: Tree): Tree
  {
    if IsCharset(t1) && IsCharset(t2) then TSet(ToCharset(t1) + ToCharset(t2))
    else if Nofail([], t1) || t2.TFalse? then t1
    else if t1.TFalse? then t2
    else TChoice(t1, t2)
  }

  /** A difference: of sets a set, otherwise t1 where t2 does not match. */
  function SubTree(t1: Tree, t2: Tree): Tree
  {
    if IsCharset(t1) && IsCharset(t2) then TSet(ToCharset(t1) - ToCharset(t2)) else TSeq(TNot(t2), t1)
  }

  /** When a pattern stays as it is built, and when a part of it takes its place. */
  lemma TreesSimplified(t1: Tree, t2: Tree)
    ensures if t1.TFalse? || t1.TTrue? || t2.TTrue? then SeqTree(t1, t2) in {t1, t2} else SeqTree(t1, t2) == TSeq(t1, t2)
    ensures if IsCharset(t1) && IsCharset(t2) then ChoiceTree(t1, t2).TSet?
            else if Nofail([], t1) || t1.TFalse? || t2.TFalse? then ChoiceTree(t1, t2) in {t1, t2}
            else ChoiceTree(t1, t2) == TChoice(t1, t2)
    ensures SubTree(t1, t2).TSet? <==> IsCharset(t1) && IsCharset(t2)
  {
    hide Checkaux;
  }

  lemma {:induction false} SeqTreeMeans(fuel: nat, g: Rules, t1: Tree, t2: Tree, subj: Subject, s: nat)
    requires s <= |subj|
    ensures Eval(fuel, g, SeqTree(t1, t2), subj, s) == Eval(fuel, g, TSeq(t1, t2), subj, s)
  {
    var r1 := Eval(fuel, g, t1, subj, s);
    SeqMeans(fuel, g, TSeq(t1, t2), subj, s);
    if r1.Match? {
      LedByNothing(r1.caps, r1.end, Eval(fuel, g, t2, subj, r1.end));
    }
  }

  /** What cannot fail before its calls are resolved cannot fail afterwards. */
  lemma {:induction false} OpenNofail(g: Rules, t: Tree, chase: nat)
    requires Checkaux([], t, PEnofail, chase)
    ensures Checkaux(g, t, PEnofail, chase)
    decreases t
  {
    match t
    case TAnd(p) => OpenNofail(g, p, chase);
    case TSeq(p1, p2) => OpenNofail(g, p1, chase); OpenNofail(g, p2, chase);
    case TChoice(p1, p2) =>
      if Checkaux([], p1, PEnofail, chase) {
        OpenNofail(g, p1, chase);
      } else {
        OpenNofail(g, p2, chase);
      }
    case TCapture(_, _, p) => OpenNofail(g, p, chase);
    case _ =>
  }

  lemma {:induction false} ChoiceTreeMeans(fuel: nat, g: Rules, t1: Tree, t2: Tree, subj: Subject, s: nat)
    requires s <= |subj|
    ensures Eval(fuel, g, ChoiceTree(t1, t2), subj, s) == Eval(fuel, g, TChoice(t1, t2), subj, s)
  {
    hide Checkaux;
    if IsCharset(t1) && IsCharset(t2) {
      CharsetMeans(fuel, g, t1, subj, s);
      CharsetMeans(fuel, g, t2, subj, s);
      CharsetMeans(fuel, g, ChoiceTree(t1, t2), subj, s);
    } else if Nofail([], t1) {
      OpenNofail(g, t1, CHASE);
      NofailSound(fuel, g, t1, CHASE, subj, s);
    }
  }

  lemma {:induction false} CharsetMeans(fuel: nat, g: Rules, t: Tree, subj: Subject, s: nat)
    requires s <= |subj| && IsCharset(t)
    ensures Eval(fuel, g, t, subj, s) == EvalSet(ToCharset(t), subj, s)
  {
  }

  /** t1 - t2 matches as t1 does, wherever t2 does not match. */
  lemma {:induction false} SubTreeMeans(fuel: nat, g: Rules, t1: Tree, t2: Tree, subj: Subject, s: nat)
    requires s <= |subj|
    ensures var r2 := Eval(fuel, g, t2, subj, s);
            Eval(fuel, g, SubTree(t1, t2), subj, s) ==
            if r2.Running? then Running else if r2.Match? then NoMatch else Eval(fuel, g, t1, subj, s)
  {
    hide Eval;
    if IsCharset(t1) && IsCharset(t2) {
      CharsetMeans(fuel, g, t1, subj, s);
      CharsetMeans(fuel, g, t2, subj, s);
      CharsetMeans(fuel, g, SubTree(t1, t2), subj, s);
    } else {
      NotMeans(fuel, g, t2, subj, s);
      SeqMeans(fuel, g, SubTree(t1, t2), subj, s);
      LedByNothing([], s, Eval(fuel, g, t1, subj, s));
    }
  }

  // ---------- Repetitions p^n and p^-n ----------

  /** p p ... p* with `n` leading copies. */
  function AtLeast(t: Tree, n: nat): Tree
  {
    if n == 0 then TRep(t) else TSeq(t, AtLeast(t, n - 1))
  }

  /** (p (p ... (p / true) ... / true) / true) with `n` copies. */
  function AtMost(t: Tree, n: nat): Tree
    requires n > 0
  {
    if n == 1 then TChoice(t, TTrue) else TChoice(TSeq(t, AtMost(t, n - 1)), TTrue)
  }

  function StarTree(t: Tree, n: int): Tree { if n >= 0 then AtLeast(t, n) else AtMost(t, -n) }

  /** As many rounds as match, up to a limit. */
  datatype Rounds = Rounds(count: nat, end: nat, caps: seq<CapTree>) | Unknown

  function Greedy(fuel: nat, g: Rules, t: Tree, subj: Subject, s: nat, limit: nat): (r: Rounds)
    requires s <= |subj|
    ensures r.Rounds? ==> r.count <= limit && s <= r.end <= |subj|
    decreases limit
  {
    if limit == 0 then Rounds(0, s, [])
    else
      match Eval(fuel, g, t, subj, s)
      case Running => Unknown
      case NoMatch => Rounds(0, s, [])
      case Match(s1, c1) =>
        match Greedy(fuel, g, t, subj, s1, limit - 1)
        case Unknown => Unknown
        case Rounds(n, e, c) => Rounds(n + 1, e, c1 + c)
  }

  lemma {:induction false} GreedyRound(fuel: nat, g: Rules, t: Tree, subj: Subject, s: nat, n: nat)
    requires s <= |subj| && n > 0
    ensures Greedy(fuel, g, t, subj, s, 0) == Rounds(0, s, [])
    ensures var r := Eval(fuel, g, t, subj, s);
            && (r.Match? ==>
                  var rest := Greedy(fuel, g, t, subj, r.end, n - 1);
                  Greedy(fuel, g, t, subj, s, n) ==
                  if rest.Rounds? then Rounds(rest.count + 1, rest.end, r.caps + rest.caps) else rest)
            && (r.NoMatch? ==> Greedy(fuel, g, t, subj, s, n) == Rounds(0, s, []))
            && (r.Running? ==> Greedy(fuel, g, t, subj, s, n) == Unknown)
  {
    hide Eval;
  }

  function Ended(r: Rounds): Outcome { if r.Rounds? then Match(r.end, r.caps) else Running }

  /** p^-n makes as many rounds as match, at most n, and never fails. */
  lemma {:induction false} AtMostMeans(fuel: nat, g: Rules, t: Tree, subj: Subject, s: nat, n: nat)
    requires s <= |subj| && n > 0
    ensures Eval(fuel, g, AtMost(t, n), subj, s) == Ended(Greedy(fuel, g, t, subj, s, n))
    decreases n
  {
    hide Eval, Greedy, AtMost;
    var all := AtMost(t, n);
    UnfoldAtMost(t, n);
    ChoiceMeans(fuel, g, all, subj, s);
    TrueMeans(fuel, g, subj, s);
    GreedyRound(fuel, g, t, subj, s, n);
    var r := Eval(fuel, g, t, subj, s);
    if n > 1 {
      SeqMeans(fuel, g, all.first, subj, s);
    }
    if r.Match? {
      if n > 1 {
        AtMostMeans(fuel, g, t, subj, r.end, n - 1);
      } else {
        GreedyRound(fuel, g, t, subj, r.end, 1);
        LedByNothing(r.caps, r.end, r);
      }
    }
  }

  /** p^n after its leading rounds. */
  function Onward(fuel: nat, g: Rules, t: Tree, subj: Subject, n: nat, r: Rounds): Outcome
    requires r.Rounds? ==> r.end <= |subj|
  {
    if r.Unknown? then Running else if r.count < n then NoMatch else Led(r.caps, Eval(fuel, g, TRep(t), subj, r.end))
  }

  lemma {:induction false} UnfoldAtLeast(t: Tree, n: nat)
    ensures AtLeast(t, n) == if n == 0 then TRep(t) else TSeq(t, AtLeast(t, n - 1))
    ensures Flat(TRep(t)) == [Leaf(KRep, 0)] + Flat(t)
  {
  }

  /** p^n fails if fewer than n rounds match and goes on as p* after n rounds otherwise. */
  lemma {:induction false} AtLeastMeans(fuel: nat, g: Rules, t: Tree, subj: Subject, s: nat, n: nat)
    requires s <= |subj|
    ensures Eval(fuel, g, AtLeast(t, n), subj, s) == Onward(fuel, g, t, subj, n, Greedy(fuel, g, t, subj, s, n))
    decreases n
  {
    hide Eval, AtLeast, Greedy;
    UnfoldAtLeast(t, n);
    if n == 0 {
      GreedyRound(fuel, g, t, subj, s, 1);
      LedByNothing([], s, Eval(fuel, g, TRep(t), subj, s));
    } else {
      SeqMeans(fuel, g, AtLeast(t, n), subj, s);
      GreedyRound(fuel, g, t, subj, s, n);
      var r := Eval(fuel, g, t, subj, s);
      if r.Match? {
        AtLeastMeans(fuel, g, t, subj, r.end, n - 1);
        var rest := Greedy(fuel, g, t, subj, r.end, n - 1);
        if rest.Rounds? && rest.count >= n - 1 {
          LedTwice(r.caps, rest.caps, Eval(fuel, g, TRep(t), subj, rest.end));
        }
      }
    }
  }

  // ---------- Building trees in their arrays ----------

  /** The root of the layout tells the kind of the tree. */
  lemma {:induction false} Root(t: Tree)
    ensures Flat(t)[0].Node?
    ensures Flat(t)[0].tag.KTrue? <==> t.TTrue?
    ensures Flat(t)[0].tag.KFalse? <==> t.TFalse?
    ensures Flat(t)[0].tag.KSeq? <==> t.TSeq?
    ensures Flat(t)[0].tag.KChoice? <==> t.TChoice?
    ensures Flat(t)[0].tag in {KChar, KSet, KAny} <==> IsCharset(t)
    ensures t.TSet? ==> |Flat(t)| == 1 + CHUNKS && Flat(t)[1] == Chunk(t.cs)
    ensures Flat(t)[0].tag.KChar? ==> t == TChar(Flat(t)[0].n)
    ensures Flat(t)[0].tag.KSet? <==> t.TSet?
  {
  }

  /** Is `b` what `a` becomes when `part` is written over it at `i`? */
  predicate Written(a: seq<Slot>, b: seq<Slot>, i: nat, part: seq<Slot>)
  {
    && |a| == |b|
    && Holds(b, i, part)
    && forall j :: 0 <= j < |a| && !(i <= j < i + |part|) ==> b[j] == a[j]
  }

  lemma {:induction false} HoldsJoin(a: seq<Slot>, i: nat, p: seq<Slot>, q: seq<Slot>)
    requires Holds(a, i, p) && Holds(a, i + |p|, q)
    ensures Holds(a, i, p + q)
  {
    forall j | 0 <= j < |p + q| ensures a[i + j] == (p + q)[j] {
      if j >= |p| {
        assert a[i + |p| + (j - |p|)] == q[j - |p|];
      }
    }
  }

  lemma {:induction false} HoldsStill(a: seq<Slot>, b: seq<Slot>, i: nat, part: seq<Slot>, k: nat, p: seq<Slot>)
    requires Written(a, b, i, part) && Holds(a, k, p) && (k + |p| <= i || i + |part| <= k)
    ensures Holds(b, k, p)
  {
  }

  lemma {:induction false} HoldsAll(a: seq<Slot>, part: seq<Slot>)
    requires Holds(a, 0, part) && |a| == |part|
    ensures a == part
  {
    forall j | 0 <= j < |a| ensures a[j] == part[j] {
      assert a[0 + j] == part[j];
    }
  }

  lemma {:induction false} WrittenTwice(a: seq<Slot>, b: seq<Slot>, c: seq<Slot>, i: nat, p: seq<Slot>, q: seq<Slot>)
    requires Written(a, b, i, p) && Written(b, c, i, q) && |p| == |q|
    ensures Written(a, c, i, q)
  {
  }

  /** Writing over one part of what an array holds. */
  lemma {:induction false} WrittenPart(a: seq<Slot>, b: seq<Slot>, i: nat, head: seq<Slot>, p: seq<Slot>,
                                       q: seq<Slot>, p2: seq<Slot>)
    requires Holds(a, i, head + p + q) && Written(a, b, i + |head|, p2) && |p2| == |p|
    ensures Written(a, b, i, head + p2 + q)
  {
    HoldsParts(a, i, head + p, q);
    HoldsParts(a, i, head, p);
    HoldsStill(a, b, i + |head|, p2, i, head);
    HoldsStill(a, b, i + |head|, p2, i + |head| + |p|, q);
    HoldsJoin(b, i, head, p2);
    HoldsJoin(b, i, head + p2, q);
  }

  lemma {:induction false} Assoc(a: seq<Slot>, b: seq<Slot>, c: seq<Slot>)
    ensures a + (b + c) == (a + b) + c
  {
  }

  /** memcpy of a whole tree. */
  method CopyTree(tree: array<Slot>, at: nat, src: array<Slot>)
    requires tree != src && at + src.Length <= tree.Length
    modifies tree
    ensures Written(old(tree[..]), tree[..], at, src[..])
  {
    forall j | 0 <= j < src.Length {
      tree[at + j] := src[j];
    }
  }

  method NewRoot2Sib(tag: Tag, tree1: array<Slot>, tree2: array<Slot>) returns (tree: array<Slot>)
    ensures fresh(tree) && tree[..] == [Leaf(tag, tree1.Length + 1)] + tree1[..] + tree2[..]
  {
    tree := new Slot[1 + tree1.Length + tree2.Length](_ => Leaf(KTrue, 0));
    tree[0] := Leaf(tag, 1 + tree1.Length);
    CopyTree(tree, 1, tree1);
    ghost var mid := tree[..];
    CopyTree(tree, 1 + tree1.Length, tree2);
    HoldsStill(mid, tree[..], 1 + tree1.Length, tree2[..], 1, tree1[..]);
    HoldsJoin(tree[..], 0, [Leaf(tag, tree1.Length + 1)], tree1[..]);
    HoldsJoin(tree[..], 0, [Leaf(tag, tree1.Length + 1)] + tree1[..], tree2[..]);
    HoldsAll(tree[..], [Leaf(tag, tree1.Length + 1)] + tree1[..] + tree2[..]);
  }

  method TreeToCharset(tree: array<Slot>, ghost t: Tree) returns (ok: bool, cs: Charset)
    requires tree[..] == Flat(t)
    ensures ok <==> IsCharset(t)
    ensures ok ==> cs == ToCharset(t)
  {
    Root(t);
    ok, cs := true, {};
    assert tree[0] == Flat(t)[0];
    if tree[0].tag.KSet? {
      assert tree[1] == Flat(t)[1];
      cs := tree[1].cs;
    } else if tree[0].tag.KChar? {
      cs := {tree[0].n};
    } else if tree[0].tag.KAny? {
      cs := FULLSET;
    } else {
      ok := false;
    }
  }

  method NewCharset(cs: Charset) returns (tree: array<Slot>)
    ensures fresh(tree) && tree[..] == Flat(TSet(cs))
  {
    tree := new Slot[1 + CHUNKS](_ => Chunk(cs));
    tree[0] := Leaf(KSet, 0);
  }

  method LpSeq(tree1: array<Slot>, tree2: array<Slot>, ghost t1: Tree, ghost t2: Tree) returns (r: array<Slot>)
    requires tree1[..] == Flat(t1) && tree2[..] == Flat(t2)
    ensures r[..] == Flat(SeqTree(t1, t2))
  {
    Root(t1);
    Root(t2);
    assert tree1[0] == Flat(t1)[0] && tree2[0] == Flat(t2)[0];
    if tree1[0].tag.KFalse? || tree2[0].tag.KTrue? {
      r := tree1;
    } else if tree1[0].tag.KTrue? {
      r := tree2;
    } else {
      r := NewRoot2Sib(KSeq, tree1, tree2);
    }
  }

  lemma {:induction false} WholeTree(a: seq<Slot>, t: Tree)
    requires a == Flat(t)
    ensures TreeAt(a, 0) == Some(t)
  {
    TreeAtFlat(a, 0, t);
  }

  method LpChoice(tree1: array<Slot>, tree2: array<Slot>, ghost t1: Tree, ghost t2: Tree) returns (r: array<Slot>)
    requires tree1[..] == Flat(t1) && tree2[..] == Flat(t2)
    ensures r[..] == Flat(ChoiceTree(t1, t2))
  {
    hide TreeAt, Checkaux, Flat, Holds, Written;
    Root(t1);
    Root(t2);
    WholeTree(tree1[..], t1);
    assert tree1[0] == Flat(t1)[0] && tree2[0] == Flat(t2)[0];
    var set1, cs1 := TreeToCharset(tree1, t1);
    var set2, cs2 := TreeToCharset(tree2, t2);
    var p1 := TreeAt(tree1[..], 0);
    if set1 && set2 {
      r := NewCharset(cs1 + cs2);
    } else if Nofail([], p1.value) || tree2[0].tag.KFalse? {
      r := tree1;
    } else if tree1[0].tag.KFalse? {
      r := tree2;
    } else {
      r := NewRoot2Sib(KChoice, tree1, tree2);
      FlatPair(TChoice(t1, t2));
    }
  }

  method LpSub(tree1: array<Slot>, tree2: array<Slot>, ghost t1: Tree, ghost t2: Tree) returns (r: array<Slot>)
    requires tree1[..] == Flat(t1) && tree2[..] == Flat(t2)
    ensures r[..] == Flat(SubTree(t1, t2))
  {
    var set1, cs1 := TreeToCharset(tree1, t1);
    var set2, cs2 := TreeToCharset(tree2, t2);
    if set1 && set2 {
      r := NewCharset(cs1 - cs2);
    } else {
      r := new Slot[2 + tree1.Length + tree2.Length](_ => Leaf(KTrue, 0));
      r[0], r[1] := Leaf(KSeq, 2 + tree2.Length), Leaf(KNot, 0);
      CopyTree(r, 2, tree2);
      ghost var mid := r[..];
      CopyTree(r, 2 + tree2.Length, tree1);
      SubParts(mid, r[..], t1, t2);
    }
  }

  lemma {:induction false} SubParts(mid: seq<Slot>, r: seq<Slot>, t1: Tree, t2: Tree)
    requires |r| == 2 + |Flat(t1)| + |Flat(t2)| && Written(mid, r, 2 + |Flat(t2)|, Flat(t1)) && Holds(mid, 2, Flat(t2))
    requires mid[0] == Leaf(KSeq, 2 + |Flat(t2)|) && mid[1] == Leaf(KNot, 0)
    ensures r == Flat(TSeq(TNot(t2), t1))
  {
    hide Flat;
    HoldsStill(mid, r, 2 + |Flat(t2)|, Flat(t1), 2, Flat(t2));
    HoldsJoin(r, 1, [Leaf(KNot, 0)], Flat(t2));
    FlatNot(t2);
    HoldsJoin(r, 0, [Leaf(KSeq, 2 + |Flat(t2)|)], Flat(TNot(t2)));
    HoldsJoin(r, 0, [Leaf(KSeq, 2 + |Flat(t2)|)] + Flat(TNot(t2)), Flat(t1));
    FlatPair(TSeq(TNot(t2), t1));
    HoldsAll(r, Flat(TSeq(TNot(t2), t1)));
  }

  lemma {:induction false} FlatNot(t: Tree)
    ensures Flat(TNot(t)) == [Leaf(KNot, 0)] + Flat(t)
  {
  }

  lemma {:induction false} FlatAtLeast(t: Tree, n: nat)
    ensures |Flat(AtLeast(t, n))| == (n + 1) * (|Flat(t)| + 1)
    ensures n > 0 ==> Flat(AtLeast(t, n)) == [Leaf(KSeq, |Flat(t)| + 1)] + Flat(t) + Flat(AtLeast(t, n - 1))
    ensures n == 0 ==> Flat(AtLeast(t, n)) == [Leaf(KRep, 0)] + Flat(t)
    decreases n
  {
    hide Flat, AtLeast;
    UnfoldAtLeast(t, n);
    if n > 0 {
      FlatAtLeast(t, n - 1);
      FlatPair(AtLeast(t, n));
      assert (n + 1) * (|Flat(t)| + 1) == n * (|Flat(t)| + 1) + (|Flat(t)| + 1);
    }
  }

  /** Distance from the root of `n` optional rounds to its second sibling. */
  function OptionsSpan(n: nat, size1: nat): nat
    requires n > 0
  {
    assert n * (size1 + 3) == (n - 1) * (size1 + 3) + (size1 + 3);
    n * (size1 + 3) - 2
  }

  lemma {:induction false} FlatAtMost(t: Tree, n: nat)
    requires n > 0
    ensures |Flat(AtMost(t, n))| == OptionsSpan(n, |Flat(t)|) + 1
    ensures n > 1 ==> |Flat(AtMost(t, n))| == |Flat(t)| + 3 + |Flat(AtMost(t, n - 1))|
    ensures n > 1 ==>
              Flat(AtMost(t, n)) ==
              [Leaf(KChoice, |Flat(AtMost(t, n))| - 1)] + ([Leaf(KSeq, |Flat(t)| + 1)] + Flat(t)) + Flat(AtMost(t, n - 1)) +
              [Leaf(KTrue, 0)]
    ensures n == 1 ==> Flat(AtMost(t, n)) == [Leaf(KChoice, |Flat(t)| + 1)] + Flat(t) + [Leaf(KTrue, 0)]
    decreases n
  {
    hide Flat, AtMost;
    UnfoldAtMost(t, n);
    FlatPair(AtMost(t, n));
    if n > 1 {
      FlatAtMost(t, n - 1);
      FlatPair(TSeq(t, AtMost(t, n - 1)));
      assert n * (|Flat(t)| + 3) == (n - 1) * (|Flat(t)| + 3) + (|Flat(t)| + 3);
    }
  }

  lemma {:induction false} UnfoldAtMost(t: Tree, n: nat)
    requires n > 0
    ensures AtMost(t, n) == if n == 1 then TChoice(t, TTrue) else TChoice(TSeq(t, AtMost(t, n - 1)), TTrue)
    ensures Flat(TTrue) == [Leaf(KTrue, 0)]
  {
  }

  /** Writes the root of a sequence and its first sibling; the second one starts at `next`. */
  method SeqAux(tree: array<Slot>, at: nat, body: array<Slot>) returns (next: nat)
    requires tree != body && at + 1 + body.Length <= tree.Length
    modifies tree
    ensures next == at + 1 + body.Length
    ensures Written(old(tree[..]), tree[..], at, [Leaf(KSeq, body.Length + 1)] + body[..])
  {
    tree[at] := Leaf(KSeq, body.Length + 1);
    CopyTree(tree, at + 1, body);
    next := at + 1 + body.Length;
    HoldsJoin(tree[..], at, [Leaf(KSeq, body.Length + 1)], body[..]);
  }

  method StarAtLeast(tree1: array<Slot>, n: nat, ghost t: Tree) returns (r: array<Slot>)
    requires tree1[..] == Flat(t)
    ensures fresh(r) && r[..] == Flat(AtLeast(t, n))
  {
    hide Flat, AtLeast, Holds, Written;
    r := NewTree((n + 1) * (tree1.Length + 1));
    FlatAtLeast(t, n);
    var i: nat, m := 0, n;
    ghost var front: seq<Slot>, piece := [], [Leaf(KSeq, |Flat(t)| + 1)] + Flat(t);
    HoldsNothing(r[..]);
    while m > 0
      invariant 0 <= m <= n && i + |Flat(AtLeast(t, m))| == r.Length && |front| == i
      invariant front + Flat(AtLeast(t, m)) == Flat(AtLeast(t, n)) && Holds(r[..], 0, front)
      invariant tree1[..] == Flat(t)
    {
      ghost var was := r[..];
      FlatAtLeast(t, m);
      i := SeqAux(r, i, tree1);
      HoldsStill(was, r[..], |front|, piece, 0, front);
      HoldsWritten(was, r[..], |front|, piece);
      HoldsJoin(r[..], 0, front, piece);
      m := m - 1;
      Assoc(front, piece, Flat(AtLeast(t, m)));
      front := front + piece;
    }
    ghost var was := r[..];
    FlatAtLeast(t, 0);
    LastRound(r, i, tree1);
    HoldsNothing(was);
    Enclosed(was, r[..], i, front, [Leaf(KRep, 0)] + Flat(t), []);
    assert Flat(AtLeast(t, n)) + [] == Flat(AtLeast(t, n));
  }

  method NewTree(size: nat) returns (tree: array<Slot>)
    ensures fresh(tree) && tree.Length == size
  {
    tree := new Slot[size](_ => Leaf(KTrue, 0));
  }

  lemma {:induction false} HoldsNothing(a: seq<Slot>)
    ensures Holds(a, 0, []) && Holds(a, |a|, [])
  {
  }

  lemma {:induction false} HoldsWritten(a: seq<Slot>, b: seq<Slot>, i: nat, part: seq<Slot>)
    requires Written(a, b, i, part)
    ensures |a| == |b| && Holds(b, i, part)
  {
  }

  method LastRound(tree: array<Slot>, at: nat, body: array<Slot>)
    requires tree != body && at + 1 + body.Length <= tree.Length
    modifies tree
    ensures Written(old(tree[..]), tree[..], at, [Leaf(KRep, 0)] + body[..])
  {
    tree[at] := Leaf(KRep, 0);
    CopyTree(tree, at + 1, body);
    HoldsJoin(tree[..], at, [Leaf(KRep, 0)], body[..]);
  }

  predicate SameAround(a: seq<Slot>, b: seq<Slot>, from: nat, to: nat)
  {
    |a| == |b| && forall j :: 0 <= j < |a| && !(from <= j < to) ==> b[j] == a[j]
  }

  /** Writes p followed by something, or nothing; what follows p starts at `next`. */
  method OptionAux(tree: array<Slot>, at: nat, ps: nat, body: array<Slot>) returns (next: nat)
    requires tree != body && 1 + body.Length < ps && at + ps < tree.Length
    modifies tree
    ensures next == at + 2 + body.Length
    ensures Holds(tree[..], at, [Leaf(KChoice, ps)] + ([Leaf(KSeq, body.Length + 1)] + body[..]))
    ensures Holds(tree[..], at + ps, [Leaf(KTrue, 0)])
    ensures SameAround(old(tree[..]), tree[..], at, at + ps + 1)
  {
    tree[at] := Leaf(KChoice, ps);
    tree[at + ps] := Leaf(KTrue, 0);
    next := SeqAux(tree, at + 1, body);
    HoldsJoin(tree[..], at, [Leaf(KChoice, ps)], [Leaf(KSeq, body.Length + 1)] + body[..]);
  }

  /** The innermost round of p^-n. */
  method LastOption(tree: array<Slot>, at: nat, body: array<Slot>)
    requires tree != body && at + 2 + body.Length <= tree.Length
    modifies tree
    ensures Written(old(tree[..]), tree[..], at, [Leaf(KChoice, body.Length + 1)] + body[..] + [Leaf(KTrue, 0)])
  {
    tree[at] := Leaf(KChoice, body.Length + 1);
    tree[at + body.Length + 1] := Leaf(KTrue, 0);
    CopyTree(tree, at + 1, body);
    HoldsJoin(tree[..], at, [Leaf(KChoice, body.Length + 1)], body[..]);
    HoldsJoin(tree[..], at, [Leaf(KChoice, body.Length + 1)] + body[..], [Leaf(KTrue, 0)]);
  }

  /** What a round in the middle of p^-n leaves around the rounds still to write. */
  lemma {:induction false} OptionStep(a: seq<Slot>, b: seq<Slot>, i: nat, ps: nat, front: seq<Slot>, head: seq<Slot>,
                                      rest: seq<Slot>, back: seq<Slot>)
    requires i == |front| && ps + 1 == |head| + |rest| + 1 && i + ps + 1 + |back| == |a|
    requires Holds(a, 0, front) && Holds(a, i + ps + 1, back)
    requires Holds(b, i, head) && Holds(b, i + ps, [Leaf(KTrue, 0)])
    requires SameAround(a, b, i, i + ps + 1)
    ensures Holds(b, 0, front + head) && Holds(b, i + ps, [Leaf(KTrue, 0)] + back)
    ensures front + (head + rest + [Leaf(KTrue, 0)]) + back == (front + head) + rest + ([Leaf(KTrue, 0)] + back)
  {
    forall j | 0 <= j < |front| ensures b[0 + j] == front[j] {
      assert a[0 + j] == front[j];
    }
    forall j | 0 <= j < |back| ensures b[i + ps + 1 + j] == back[j] {
      assert a[i + ps + 1 + j] == back[j];
    }
    HoldsJoin(b, 0, front, head);
    HoldsJoin(b, i + ps, [Leaf(KTrue, 0)], back);
    Regroup(front, head, rest, [Leaf(KTrue, 0)], back);
  }

  lemma Regroup(front: seq<Slot>, head: seq<Slot>, rest: seq<Slot>, last: seq<Slot>, back: seq<Slot>)
    ensures front + (head + rest + last) + back == (front + head) + rest + (last + back)
  {
  }

  method StarAtMost(tree1: array<Slot>, n: nat, ghost t: Tree) returns (r: array<Slot>)
    requires tree1[..] == Flat(t) && n > 0
    ensures fresh(r) && r[..] == Flat(AtMost(t, n))
  {
    hide Flat, AtMost, Holds, Written, OptionsSpan, SameAround;
    var size1 := tree1.Length;
    FlatAtMost(t, n);
    r := NewTree(OptionsSpan(n, size1) + 1);
    var i: nat, m := 0, n;
    ghost var front: seq<Slot>, back: seq<Slot> := [], [];
    HoldsNothing(r[..]);
    while m > 1
      invariant 1 <= m <= n && |front| == i && i + |Flat(AtMost(t, m))| + |back| == r.Length
      invariant front + Flat(AtMost(t, m)) + back == Flat(AtMost(t, n))
      invariant Holds(r[..], 0, front) && Holds(r[..], i + |Flat(AtMost(t, m))|, back)
      invariant tree1[..] == Flat(t)
    {
      ghost var was := r[..];
      FlatAtMost(t, m);
      var ps := OptionsSpan(m, size1);
      ghost var head := [Leaf(KChoice, ps)] + ([Leaf(KSeq, size1 + 1)] + Flat(t));
      i := OptionAux(r, i, ps, tree1);
      m := m - 1;
      OptionStep(was, r[..], |front|, ps, front, head, Flat(AtMost(t, m)), back);
      front, back := front + head, [Leaf(KTrue, 0)] + back;
    }
    ghost var was := r[..];
    FlatAtMost(t, 1);
    LastOption(r, i, tree1);
    Enclosed(was, r[..], i, front, Flat(AtMost(t, 1)), back);
  }

  lemma {:induction false} Enclosed(a: seq<Slot>, b: seq<Slot>, i: nat, front: seq<Slot>, last: seq<Slot>, back: seq<Slot>)
    requires Written(a, b, i, last) && i == |front| && i + |last| + |back| == |a|
    requires Holds(a, 0, front) && Holds(a, i + |last|, back)
    ensures b == front + last + back
  {
    hide Written, Holds;
    HoldsStill(a, b, i, last, 0, front);
    HoldsStill(a, b, i, last, i + |last|, back);
    HoldsWritten(a, b, i, last);
    HoldsJoin(b, 0, front, last);
    HoldsJoin(b, 0, front + last, back);
    HoldsAll(b, front + last + back);
  }

  /** p^n; a loop over a body that may match the empty string is an error. */
  method LpStar(tree1: array<Slot>, n: int, ghost t: Tree) returns (ok: bool, r: array<Slot>)
    requires tree1[..] == Flat(t)
    ensures ok <==> n < 0 || !Nullable([], t)
    ensures ok ==> r[..] == Flat(StarTree(t, n))
  {
    ok, r := true, tree1;
    WholeTree(tree1[..], t);
    var p := TreeAt(tree1[..], 0);
    if n >= 0 {
      if Nullable([], p.value) {
        ok := false;
      } else {
        r := StarAtLeast(tree1, n, t);
      }
    } else {
      r := StarAtMost(tree1, -n, t);
    }
  }
}
