/** The last adjustments of a pattern in its array: calls are fixed and associative operators nest to the right. */
module LpegFix {
  import opened LpegTree
  import opened LpegBuild

  predicate IsPair(t: Tree) { t.TSeq? || t.TChoice? }

  predicate LeftNested(t: Tree) { IsPair(t) && IsPair(t.first) && PairTag(t) == PairTag(t.first) }

  lemma {:induction false} SameSize(t: Tree)
    requires LeftNested(t)
    ensures |Flat(Pair(t, t.first.first, Pair(t, t.first.second, t.second)))| == |Flat(t)|
  {
    FlatPair(t);
    FlatPair(t.first);
    FlatPair(Pair(t, t.first.first, Pair(t, t.first.second, t.second)));
    FlatPair(Pair(t, t.first.second, t.second));
  }

  /** Nested to the right: rotated as long as the first sibling is a pair of the same kind. */
  function Rotated(t: Tree): (r: Tree)
    requires IsPair(t)
    ensures IsPair(r) && PairTag(r) == PairTag(t) && |Flat(r)| == |Flat(t)| && !LeftNested(r)
    decreases t.first
  {
    if LeftNested(t) then
      SameSize(t);
      Rotated(Pair(t, t.first.first, Pair(t, t.first.second, t.second)))
    else t
  }

  lemma {:induction false} RotateOnce(fuel: nat, g: Rules, t: Tree, subj: Subject, s: nat)
    requires LeftNested(t) && s <= |subj|
    ensures var r := Pair(t, t.first.first, Pair(t, t.first.second, t.second));
            Eval(fuel, g, r, subj, s) == Eval(fuel, g, t, subj, s)
  {
    hide Eval;
    var right := Pair(t, t.first.second, t.second);
    var r := Pair(t, t.first.first, right);
    var r1 := Eval(fuel, g, t.first.first, subj, s);
    if t.TChoice? {
      ChoiceMeans(fuel, g, t, subj, s);
      ChoiceMeans(fuel, g, t.first, subj, s);
      ChoiceMeans(fuel, g, r, subj, s);
      ChoiceMeans(fuel, g, right, subj, s);
    } else {
      SeqMeans(fuel, g, t, subj, s);
      SeqMeans(fuel, g, t.first, subj, s);
      SeqMeans(fuel, g, r, subj, s);
      if r1.Match? {
        SeqMeans(fuel, g, right, subj, r1.end);
        var r2 := Eval(fuel, g, t.first.second, subj, r1.end);
        if r2.Match? {
          LedTwice(r1.caps, r2.caps, Eval(fuel, g, t.second, subj, r2.end));
        }
      }
    }
  }

  lemma {:induction false} RotatedMeans(fuel: nat, g: Rules, t: Tree, subj: Subject, s: nat)
    requires IsPair(t) && s <= |subj|
    ensures Eval(fuel, g, Rotated(t), subj, s) == Eval(fuel, g, t, subj, s)
    decreases t.first
  {
    hide Eval;
    if LeftNested(t) {
      RotateOnce(fuel, g, t, subj, s);
      RotatedMeans(fuel, g, Pair(t, t.first.first, Pair(t, t.first.second, t.second)), subj, s);
    }
  }

  /** A pattern after its final adjustments; those of a grammar inside it were already made. */
  function Fixed(t: Tree): (r: Tree)
    ensures |Flat(r)| == |Flat(t)|
    decreases |Flat(t)|
  {
    match t
    case TSeq(_, _) => var r := Rotated(t); TSeq(Fixed(r.first), Fixed(r.second))
    case TChoice(_, _) => var r := Rotated(t); TChoice(Fixed(r.first), Fixed(r.second))
    case TRep(p) => TRep(Fixed(p))
    case TNot(p) => TNot(Fixed(p))
    case TAnd(p) => TAnd(Fixed(p))
    case TBehind(n, p) => TBehind(n, Fixed(p))
    case TCapture(kind, key, p) => TCapture(kind, key, Fixed(p))
    case _ => t
  }

  function FixedRules(g: Rules): Rules { seq(|g|, i requires 0 <= i < |g| => Fixed(g[i])) }

  /** Does every call outside nested grammars name one of the first `n` rules? */
  predicate Known(t: Tree, n: nat)
  {
    match t
    case TSeq(p1, p2) => Known(p1, n) && Known(p2, n)
    case TChoice(p1, p2) => Known(p1, n) && Known(p2, n)
    case TRep(p) => Known(p, n)
    case TNot(p) => Known(p, n)
    case TAnd(p) => Known(p, n)
    case TBehind(_, p) => Known(p, n)
    case TCapture(_, _, p) => Known(p, n)
    case TCall(k) => k < n
    case _ => true
  }

  lemma {:induction false} RotatedKnown(t: Tree, n: nat)
    requires IsPair(t)
    ensures Known(Rotated(t), n) <==> Known(t, n)
    decreases t.first
  {
    if LeftNested(t) {
      RotatedKnown(Pair(t, t.first.first, Pair(t, t.first.second, t.second)), n);
    }
  }

  /** No sequence starts with a sequence and no choice starts with a choice. */
  predicate RightNested(t: Tree)
  {
    match t
    case TSeq(p1, p2) => !p1.TSeq? && RightNested(p1) && RightNested(p2)
    case TChoice(p1, p2) => !p1.TChoice? && RightNested(p1) && RightNested(p2)
    case TRep(p) => RightNested(p)
    case TNot(p) => RightNested(p)
    case TAnd(p) => RightNested(p)
    case TBehind(_, p) => RightNested(p)
    case TCapture(_, _, p) => RightNested(p)
    case _ => true
  }

  lemma {:induction false} FixedRightNested(t: Tree)
    ensures RightNested(Fixed(t))
    decreases |Flat(t)|
  {
    if IsPair(t) {
      var r := Rotated(t);
      FixedRightNested(r.first);
      FixedRightNested(r.second);
    } else if t.TRep? || t.TNot? || t.TAnd? || t.TBehind? || t.TCapture? {
      FixedRightNested(t.body);
    }
  }

  /** The final adjustments keep the meaning of every pattern. */
  lemma {:induction false} FixedMeans(fuel: nat, g: Rules, t: Tree, subj: Subject, s: nat)
    requires s <= |subj|
    ensures Eval(fuel, FixedRules(g), Fixed(t), subj, s) == Eval(fuel, g, t, subj, s)
    decreases fuel, |Flat(t)|, 0
  {
    hide FixedRules, Rotated;
    if IsPair(t) {
      hide Eval;
      RotatedMeans(fuel, g, t, subj, s);
      FixedPairMeans(fuel, g, Rotated(t), subj, s);
    } else if t.TRep? || t.TNot? || t.TAnd? || t.TBehind? || t.TCapture? {
      hide Eval, Fixed;
      FixedBodyMeans(fuel, g, t, subj, s);
    } else if t.TGrammar? {
      SameGrammar(fuel, g, FixedRules(g), t, subj, s);
    } else if t.TCall? {
      FixedRuleAt(g, t.rule);
      if t.rule < |g| && fuel > 0 {
        FixedMeans(fuel - 1, g, g[t.rule], subj, s);
      }
    }
  }

  lemma {:induction false} FixedBodyMeans(fuel: nat, g: Rules, t: Tree, subj: Subject, s: nat)
    requires s <= |subj| && (t.TRep? || t.TNot? || t.TAnd? || t.TBehind? || t.TCapture?)
    ensures Eval(fuel, FixedRules(g), Fixed(t), subj, s) == Eval(fuel, g, t, subj, s)
    decreases fuel, |Flat(t)|, 0, 0
  {
    hide FixedRules, Rotated;
    if t.TBehind? {
      if t.back <= s {
        FixedMeans(fuel, g, t.body, subj, s - t.back);
      }
    } else {
      FixedMeans(fuel, g, t.body, subj, s);
      var r := Eval(fuel, g, t.body, subj, s);
      if t.TRep? && r.Match? && fuel > 0 {
        FixedMeans(fuel - 1, g, t, subj, r.end);
      }
    }
  }

  lemma {:induction false} SameGrammar(fuel: nat, g: Rules, h: Rules, t: Tree, subj: Subject, s: nat)
    requires s <= |subj| && t.TGrammar?
    ensures Eval(fuel, h, t, subj, s) == Eval(fuel, g, t, subj, s)
  {
  }

  lemma {:induction false} FixedRuleAt(g: Rules, k: nat)
    ensures |FixedRules(g)| == |g| && (k < |g| ==> FixedRules(g)[k] == Fixed(g[k]))
  {
  }

  lemma {:induction false} FixedPairMeans(fuel: nat, g: Rules, r: Tree, subj: Subject, s: nat)
    requires s <= |subj| && IsPair(r)
    ensures Eval(fuel, FixedRules(g), Pair(r, Fixed(r.first), Fixed(r.second)), subj, s) == Eval(fuel, g, r, subj, s)
    decreases fuel, |Flat(r)|, 0, 0
  {
    hide FixedRules, Fixed;
    FixedMeans(fuel, g, r.first, subj, s);
    var r1 := Eval(fuel, g, r.first, subj, s);
    if r.TSeq? && r1.Match? {
      FixedMeans(fuel, g, r.second, subj, r1.end);
    } else if r.TChoice? {
      FixedMeans(fuel, g, r.second, subj, s);
    }
  }

  /** A grammar means the same after the adjustments of its rules. */
  lemma {:induction false} FixedGrammarMeans(fuel: nat, g: Rules, rules: Rules, subj: Subject, s: nat)
    requires s <= |subj|
    ensures Eval(fuel, g, TGrammar(FixedRules(rules)), subj, s) == Eval(fuel, g, TGrammar(rules), subj, s)
  {
    hide Fixed;
    if rules != [] {
      FixedMeans(fuel, rules, rules[0], subj, s);
    }
  }

  lemma {:induction false} HoldsSlice(a: seq<Slot>, at: nat, part: seq<Slot>)
    requires at + |part| <= |a|
    ensures Holds(a, at, part) <==> a[at..at + |part|] == part
  {
    if a[at..at + |part|] == part {
      forall j | 0 <= j < |part| ensures a[at + j] == part[j] {
        assert a[at..at + |part|][j] == a[at + j];
      }
    }
  }

  /** memmove of `count` nodes one place up. */
  method MoveUp(tree: array<Slot>, to: nat, count: nat)
    requires to + count < tree.Length
    modifies tree
    ensures Written(old(tree[..]), tree[..], to, old(tree[to + 1..to + 1 + count]))
  {
    forall j | 0 <= j < count {
      tree[to + j] := tree[to + 1 + j];
    }
  }

  lemma {:induction false} RotatedSlots(a: seq<Slot>, b: seq<Slot>, c: seq<Slot>, at: nat, x: Slot, y: Slot, p: seq<Slot>,
                                        rest: seq<Slot>, x2: Slot, y2: Slot)
    requires Holds(a, at, [x, y] + p + rest)
    requires Written(a, b, at + 1, p) && |c| == |b| && c == b[at := x2][at + 1 + |p| := y2]
    ensures Written(a, c, at, [x2] + p + [y2] + rest)
  {
    HoldsParts(a, at, [x, y] + p, rest);
    HoldsStill(a, b, at + 1, p, at + 2 + |p|, rest);
    assert Holds(c, at, [x2]) && Holds(c, at + 1, p) && Holds(c, at + 1 + |p|, [y2]) && Holds(c, at + 2 + |p|, rest);
    HoldsJoin(c, at, [x2], p);
    HoldsJoin(c, at, [x2] + p, [y2]);
    HoldsJoin(c, at, [x2] + p + [y2], rest);
  }

  /** One rotation: the nodes of t11 move up by one and a root takes the place behind them. */
  method RotateStep(tree: array<Slot>, at: nat, ghost tag: Tag, ghost p: seq<Slot>, ghost q: seq<Slot>, ghost r: seq<Slot>)
    requires at + 2 + |p| + |q| + |r| <= tree.Length
    requires Holds(tree[..], at, [Leaf(tag, |p| + |q| + 2), Leaf(tag, |p| + 1)] + p + (q + r))
    modifies tree
    ensures Written(old(tree[..]), tree[..], at, [Leaf(tag, |p| + 1)] + p + [Leaf(tag, |q| + 1)] + (q + r))
  {
    hide Holds, Written;
    ghost var was, x, y := tree[..], Leaf(tag, |p| + |q| + 2), Leaf(tag, |p| + 1);
    HoldsParts(was, at, [x, y] + p, q + r);
    HoldsParts(was, at, [x, y], p);
    HoldsSlice(was, at, [x, y]);
    assert was[at] == was[at..at + 2][0] && was[at + 1] == was[at..at + 2][1];
    HoldsSlice(was, at + 2, p);
    var n1size := tree[at].n - 1;
    var n11size := tree[at + 1].n - 1;
    var n12size := n1size - n11size - 1;
    var root := tree[at].tag;
    MoveUp(tree, at + 1, n11size);
    ghost var moved := tree[..];
    tree[at] := Leaf(root, n11size + 1);
    tree[at + n11size + 1] := Leaf(root, n12size + 1);
    RotatedSlots(was, moved, tree[..], at, x, y, p, q + r, Leaf(tag, |p| + 1), Leaf(tag, |q| + 1));
  }

  lemma {:induction false} Reassociated(t: Tree, next: Tree)
    requires LeftNested(t) && next == Pair(t, t.first.first, Pair(t, t.first.second, t.second))
    ensures var (p, q, r, tag) := (Flat(t.first.first), Flat(t.first.second), Flat(t.second), PairTag(t));
            && Flat(t) == [Leaf(tag, |p| + |q| + 2), Leaf(tag, |p| + 1)] + p + (q + r)
            && Flat(next) == [Leaf(tag, |p| + 1)] + p + [Leaf(tag, |q| + 1)] + (q + r)
  {
    hide Flat;
    FlatPair(t);
    FlatPair(t.first);
    FlatPair(next);
    FlatPair(next.second);
    var (p, q, r, tag) := (Flat(t.first.first), Flat(t.first.second), Flat(t.second), PairTag(t));
    assert [Leaf(tag, |p| + |q| + 2)] + ([Leaf(tag, |p| + 1)] + p + q) + r ==
           [Leaf(tag, |p| + |q| + 2), Leaf(tag, |p| + 1)] + p + (q + r);
    assert [Leaf(tag, |p| + 1)] + p + ([Leaf(tag, |q| + 1)] + q + r) ==
           [Leaf(tag, |p| + 1)] + p + [Leaf(tag, |q| + 1)] + (q + r);
  }

  /** What the loop reads in the first two nodes. */
  lemma {:induction false} TwoRoots(a: seq<Slot>, at: nat, t: Tree)
    requires IsPair(t) && Holds(a, at, Flat(t))
    ensures at + 1 < |a| && a[at].Node? && a[at + 1].Node?
    ensures a[at + 1].tag == a[at].tag <==> LeftNested(t)
  {
    hide Flat, TreeAt;
    TwoSiblings(a, at, t);
    Root(t.first);
    assert a[at + 1 + 0] == Flat(t.first)[0];
  }

  lemma {:induction false} WrittenSame(a: seq<Slot>, i: nat, part: seq<Slot>)
    requires Holds(a, i, part)
    ensures i + |part| <= |a| && Written(a, a, i, part)
  {
  }

  method CorrectAssociativity(tree: array<Slot>, at: nat, ghost t: Tree)
    requires IsPair(t) && Holds(tree[..], at, Flat(t))
    modifies tree
    ensures Written(old(tree[..]), tree[..], at, Flat(Rotated(t)))
  {
    hide Flat, TreeAt, Holds, Written;
    ghost var cur, was := t, tree[..];
    WrittenSame(was, at, Flat(t));
    TwoRoots(tree[..], at, cur);
    while tree[at + 1].tag == tree[at].tag
      invariant IsPair(cur) && |Flat(cur)| == |Flat(t)| && Rotated(cur) == Rotated(t)
      invariant at + |Flat(t)| <= tree.Length && Written(was, tree[..], at, Flat(cur)) && Holds(tree[..], at, Flat(cur))
      invariant at + 1 < tree.Length && tree[at].Node? && tree[at + 1].Node?
      invariant tree[at + 1].tag == tree[at].tag <==> LeftNested(cur)
      decreases cur.first
    {
      ghost var next := Pair(cur, cur.first.first, Pair(cur, cur.first.second, cur.second));
      ghost var mid := tree[..];
      Reassociated(cur, next);
      RotateStep(tree, at, PairTag(cur), Flat(cur.first.first), Flat(cur.first.second), Flat(cur.second));
      WrittenTwice(was, mid, tree[..], at, Flat(cur), Flat(next));
      HoldsWritten(mid, tree[..], at, Flat(next));
      cur := next;
      TwoRoots(tree[..], at, cur);
    }
  }

  /** Fixes the `n` rules' calls in a pattern and makes it nest to the right. */
  method FinalFix(tree: array<Slot>, at: nat, n: nat, ghost t: Tree) returns (ok: bool)
    requires Holds(tree[..], at, Flat(t))
    modifies tree
    ensures ok <==> Known(t, n)
    ensures ok ==> Written(old(tree[..]), tree[..], at, Flat(Fixed(t)))
    decreases |Flat(t)|, 0
  {
    hide TreeAt, Holds, Written, Rotated, Flat;
    ghost var was := tree[..];
    RootTag(was, at, t);
    WrittenSame(was, at, Flat(t));
    var tag := tree[at].tag;
    if tag.KSeq? || tag.KChoice? {
      ghost var r := Rotated(t);
      RotatedKnown(t, n);
      CorrectAssociativity(tree, at, t);
      ghost var mid := tree[..];
      HoldsWritten(was, mid, at, Flat(r));
      ok := FinalFixPair(tree, at, n, r);
      if ok {
        WrittenTwice(was, mid, tree[..], at, Flat(r), Flat(Fixed(t)));
      }
    } else if tag.KCall? {
      ok := 0 <= tree[at].key < n;
    } else if tag.KRep? || tag.KNot? || tag.KAnd? || tag.KBehind? || tag.KCapture? {
      OneSibling(was, at, t);
      FlatHead(t);
      ok := FinalFix(tree, at + 1, n, t.body);
      if ok {
        WrittenPart(was, tree[..], at, [Flat(t)[0]], Flat(t.body), [], Flat(Fixed(t.body)));
      }
    } else {
      ok := true;
    }
  }

  method FinalFixPair(tree: array<Slot>, at: nat, n: nat, ghost r: Tree) returns (ok: bool)
    requires IsPair(r) && Holds(tree[..], at, Flat(r))
    modifies tree
    ensures ok <==> Known(r, n)
    ensures ok ==> Written(old(tree[..]), tree[..], at, Flat(Pair(r, Fixed(r.first), Fixed(r.second))))
    decreases |Flat(r)|, 0, 0
  {
    hide TreeAt, Holds, Written, Rotated, Flat, Fixed;
    ghost var was := tree[..];
    ghost var p, q, p2, q2 := Flat(r.first), Flat(r.second), Flat(Fixed(r.first)), Flat(Fixed(r.second));
    ghost var head := [Leaf(PairTag(r), |p| + 1)];
    FlatPair(r);
    FlatPair(Pair(r, Fixed(r.first), Fixed(r.second)));
    TwoSiblings(was, at, r);
    var second := tree[at].n;
    ok := FinalFix(tree, at + 1, n, r.first);
    if ok {
      ghost var mid := tree[..];
      WrittenPart(was, mid, at, head, p, q, p2);
      HoldsWritten(was, mid, at, head + p2 + q);
      HoldsParts(mid, at, head + p2, q);
      ok := FinalFix(tree, at + second, n, r.second);
      if ok {
        assert head + p2 + q == (head + p2) + q + [];
        WrittenPart(mid, tree[..], at, head + p2, q, [], q2);
        assert head + p2 + q2 + [] == head + p2 + q2;
        WrittenTwice(was, mid, tree[..], at, head + p2 + q, head + p2 + q2);
      }
    }
  }

  lemma {:induction false} RuleAt(t: Tree, k: nat)
    requires t.TGrammar? && k <= |t.rules|
    ensures k < |t.rules| ==>
              FlatFrom(t, k) == [Node(KRule, k, 0, |Flat(t.rules[k])| + 1)] + Flat(t.rules[k]) + FlatFrom(t, k + 1)
    ensures k == |t.rules| ==> FlatFrom(t, k) == [Leaf(KTrue, 0)]
  {
  }

  /** Fixes the rules of a grammar from rule `k` on; its list of rules starts at `at`. */
  method FixRules(tree: array<Slot>, at: nat, ghost t: Tree, k: nat, n: nat) returns (ok: bool)
    requires t.TGrammar? && n == |t.rules| && k <= n && Holds(tree[..], at, FlatFrom(t, k))
    modifies tree
    ensures ok <==> forall i :: k <= i < n ==> Known(t.rules[i], n)
    ensures ok ==> Written(old(tree[..]), tree[..], at, FlatFrom(TGrammar(FixedRules(t.rules)), k))
    decreases n - k
  {
    hide Holds, Written, Fixed, Flat, FlatFrom, FixedRules, Known;
    ghost var was, f := tree[..], TGrammar(FixedRules(t.rules));
    FixedRuleAt(t.rules, k);
    RuleAt(t, k);
    RuleAt(f, k);
    if k == n {
      HoldsHead(was, at, FlatFrom(t, k));
      WrittenSame(was, at, FlatFrom(t, k));
      ok := true;
    } else {
      ghost var r := t.rules[k];
      ghost var p, q, p2, q2 := Flat(r), FlatFrom(t, k + 1), Flat(Fixed(r)), FlatFrom(f, k + 1);
      ghost var head := [Node(KRule, k, 0, |p| + 1)];
      HoldsParts(was, at, head + p, q);
      HoldsParts(was, at, head, p);
      HoldsHead(was, at, head);
      var next := tree[at].n;
      ok := FinalFix(tree, at + 1, n, r);
      if ok {
        ghost var mid := tree[..];
        WrittenPart(was, mid, at, head, p, q, p2);
        HoldsWritten(was, mid, at, head + p2 + q);
        HoldsParts(mid, at, head + p2, q);
        ok := FixRules(tree, at + next, t, k + 1, n);
        if ok {
          SameListSize(t, k + 1);
          assert head + p2 + q == (head + p2) + q + [];
          WrittenPart(mid, tree[..], at, head + p2, q, [], q2);
          assert head + p2 + q2 + [] == head + p2 + q2;
          WrittenTwice(was, mid, tree[..], at, head + p2 + q, head + p2 + q2);
        }
      }
    }
  }

  lemma {:induction false} SameListSize(t: Tree, k: nat)
    requires t.TGrammar? && k <= |t.rules|
    ensures |FixedRules(t.rules)| == |t.rules|
    ensures |FlatFrom(TGrammar(FixedRules(t.rules)), k)| == |FlatFrom(t, k)|
    decreases |t.rules| - k
  {
    hide Fixed, Flat, FlatFrom, FixedRules;
    FixedRuleAt(t.rules, k);
    RuleAt(t, k);
    RuleAt(TGrammar(FixedRules(t.rules)), k);
    if k < |t.rules| {
      SameListSize(t, k + 1);
    }
  }

  lemma {:induction false} HoldsHead(a: seq<Slot>, at: nat, part: seq<Slot>)
    requires Holds(a, at, part) && part != []
    ensures at < |a| && a[at] == part[0]
  {
    assert a[at + 0] == part[0];
  }

  lemma {:induction false} RootTag(a: seq<Slot>, at: nat, t: Tree)
    requires Holds(a, at, Flat(t))
    ensures at < |a| && a[at] == Flat(t)[0] && a[at].Node?
    ensures a[at].tag.KSeq? || a[at].tag.KChoice? <==> IsPair(t)
    ensures a[at].tag.KCall? <==> t.TCall?
    ensures t.TCall? ==> a[at].key == t.rule
    ensures a[at].tag in {KRep, KNot, KAnd, KBehind, KCapture} <==> t.TRep? || t.TNot? || t.TAnd? || t.TBehind? || t.TCapture?
  {
    assert a[at + 0] == Flat(t)[0];
  }

  lemma {:induction false} FlatHead(t: Tree)
    requires t.TRep? || t.TNot? || t.TAnd? || t.TBehind? || t.TCapture?
    ensures Flat(t) == [Flat(t)[0]] + Flat(t.body) + []
    ensures Flat(Fixed(t)) == [Flat(t)[0]] + Flat(Fixed(t.body)) + []
    ensures |Flat(t.body)| < |Flat(t)|
  {
  }
}
