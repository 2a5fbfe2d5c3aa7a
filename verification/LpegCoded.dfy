/**
 * What the code of a pattern records. It differs from the meaning of the pattern in two places, both
 * chosen by HasCaptures, which does not follow calls: a capture in one instruction comes behind the
 * captures made inside it, and a look-ahead that looks behind keeps the captures of its body.
 */
module LpegCoded {
  import opened LpegTree
  import opened LpegAnalysis
  import opened LpegAnalysisSound
  import opened LpegMachine
  import opened LpegCode
  import opened LpegPremise
  import opened LpegCaptures

  /** Like Eval, with the captures in the order and number in which the code records them. */
  function Coded(fuel: nat, g: Rules, t: Tree, subj: Subject, s: nat): (r: Outcome)
    requires s <= |subj|
    ensures r.Match? ==> s <= r.end <= |subj|
    decreases fuel, t
  {
    match t
    case TChar(_) => EvalSet(ToCharset(t), subj, s)
    case TSet(_) => EvalSet(ToCharset(t), subj, s)
    case TAny => EvalSet(ToCharset(t), subj, s)
    case TTrue => Match(s, [])
    case TFalse => NoMatch
    case TRep(p) =>
      (match Coded(fuel, g, p, subj, s)
       case Running => Running
       case NoMatch => Match(s, [])
       case Match(s1, c1) =>
         if fuel == 0 then Running
         else
           match Coded(fuel - 1, g, t, subj, s1)
           case Match(s2, c2) => Match(s2, c1 + c2)
           case other => other)
    case TSeq(p1, p2) =>
      (match Coded(fuel, g, p1, subj, s)
       case Match(s1, c1) =>
         (match Coded(fuel, g, p2, subj, s1)
          case Match(s2, c2) => Match(s2, c1 + c2)
          case other => other)
       case other => other)
    case TChoice(p1, p2) =>
      (match Coded(fuel, g, p1, subj, s)
       case NoMatch => Coded(fuel, g, p2, subj, s)
       case other => other)
    case TNot(p) =>
      (match Coded(fuel, g, p, subj, s)
       case Match(_, _) => NoMatch
       case NoMatch => Match(s, [])
       case Running => Running)
    case TAnd(p) =>
      (match Coded(fuel, g, p, subj, s)
       case Match(_, c) => Match(s, if AndByBehind(g, p) then c else [])
       case other => other)
    case TBehind(n, p) =>
      if n > s then NoMatch
      else
        (match Coded(fuel, g, p, subj, s - n)
         case Match(_, c) => Match(s, c)
         case other => other)
    case TCapture(kind, key, p) =>
      (match Coded(fuel, g, p, subj, s)
       case Match(s1, c1) =>
         Match(s1, if CaptureFull(g, p) then c1 + [CapTree(kind, key, s, s1, [])] else [CapTree(kind, key, s, s1, c1)])
       case other => other)
    case TCall(k) =>
      if k >= |g| then NoMatch
      else if fuel == 0 then Running
      else Coded(fuel - 1, g, g[k], subj, s)
    case TGrammar(rules) =>
      if rules == [] then NoMatch else Coded(fuel, rules, rules[0], subj, s)
  }

  /** Whether and where a pattern matches is coded right, for every pattern. */
  lemma {:induction false} SameEnd(fuel: nat, g: Rules, t: Tree, subj: Subject, s: nat)
    requires s <= |subj|
    ensures var (r, c) := (Eval(fuel, g, t, subj, s), Coded(fuel, g, t, subj, s));
            && (r.Running? <==> c.Running?)
            && (r.Match? <==> c.Match?)
            && (r.Match? ==> r.end == c.end)
    decreases fuel, t
  {
    match t
    case TRep(p) =>
      SameEnd(fuel, g, p, subj, s);
      var r := Eval(fuel, g, p, subj, s);
      if r.Match? && fuel > 0 {
        SameEnd(fuel - 1, g, t, subj, r.end);
      }
    case TSeq(p1, p2) =>
      SameEnd(fuel, g, p1, subj, s);
      var r := Eval(fuel, g, p1, subj, s);
      if r.Match? {
        SameEnd(fuel, g, p2, subj, r.end);
      }
    case TChoice(p1, p2) => SameEnd(fuel, g, p1, subj, s); SameEnd(fuel, g, p2, subj, s);
    case TNot(p) => SameEnd(fuel, g, p, subj, s);
    case TAnd(p) => SameEnd(fuel, g, p, subj, s);
    case TBehind(n, p) => if n <= s { SameEnd(fuel, g, p, subj, s - n); }
    case TCapture(_, _, p) => SameEnd(fuel, g, p, subj, s);
    case TCall(k) => if k < |g| && fuel > 0 { SameEnd(fuel - 1, g, g[k], subj, s); }
    case TGrammar(rules) => if rules != [] { SameEnd(fuel, rules, rules[0], subj, s); }
    case _ =>
  }

  // ---------- When the captures are right ----------

  /**
   * Does every capture coded in one instruction, and every look-ahead that looks behind, that takes
   * part in the match have a body that recorded nothing?
   */
  predicate Honest(fuel: nat, g: Rules, t: Tree, subj: Subject, s: nat)
    requires s <= |subj|
    decreases fuel, t
  {
    match t
    case TRep(p) =>
      var r := Coded(fuel, g, p, subj, s);
      r.Match? ==> Honest(fuel, g, p, subj, s) && (fuel > 0 ==> Honest(fuel - 1, g, t, subj, r.end))
    case TSeq(p1, p2) =>
      var r := Coded(fuel, g, p1, subj, s);
      r.Match? ==> Honest(fuel, g, p1, subj, s) && Honest(fuel, g, p2, subj, r.end)
    case TChoice(p1, p2) =>
      if Coded(fuel, g, p1, subj, s).NoMatch? then Honest(fuel, g, p2, subj, s) else Honest(fuel, g, p1, subj, s)
    case TAnd(p) => AndByBehind(g, p) ==> RecordsNone(Coded(fuel, g, p, subj, s))
    case TBehind(n, p) => n <= s ==> RecordsNone(Coded(fuel, g, p, subj, s - n))
    case TCapture(_, _, p) =>
      if CaptureFull(g, p) then RecordsNone(Coded(fuel, g, p, subj, s)) else Honest(fuel, g, p, subj, s)
    case TCall(k) => k < |g| && fuel > 0 ==> Honest(fuel - 1, g, g[k], subj, s)
    case TGrammar(rules) => rules != [] ==> Honest(fuel, rules, rules[0], subj, s)
    case _ => true
  }

  predicate RecordsNone(r: Outcome) { r.Match? ==> r.caps == [] }

  lemma {:induction false} PartsEqual(c1: seq<CapTree>, c2: seq<CapTree>, e1: seq<CapTree>, e2: seq<CapTree>)
    requires |c1| >= |e1| && |c2| >= |e2|
    ensures c1 + c2 == e1 + e2 <==> c1 == e1 && c2 == e2
  {
    if c1 + c2 == e1 + e2 {
      assert |c1 + c2| == |e1 + e2|;
      assert c1 == (c1 + c2)[..|c1|] && e1 == (e1 + e2)[..|e1|];
      assert c2 == (c1 + c2)[|c1|..] && e2 == (e1 + e2)[|e1|..];
    }
  }

  lemma {:induction false} OneEqual(c: seq<CapTree>, last: CapTree, one: CapTree)
    requires last == one.(inner := []) && |c| >= |one.inner|
    ensures c + [last] == [one] <==> c == []
  {
    if c == [] {
      assert c + [last] == [one];
    } else {
      assert |c + [last]| > 1;
    }
  }

  /** The code records what a match means if and only if the match is honest. */
  lemma {:induction false} HonestExact(fuel: nat, g: Rules, t: Tree, subj: Subject, s: nat)
    requires s <= |subj| && Eval(fuel, g, t, subj, s).Match?
    ensures var (r, c) := (Eval(fuel, g, t, subj, s), Coded(fuel, g, t, subj, s));
            c.Match? && |c.caps| >= |r.caps| && (c == r <==> Honest(fuel, g, t, subj, s))
    decreases fuel, t
  {
    hide AndByBehind, CaptureFull;
    SameEnd(fuel, g, t, subj, s);
    var r, c := Eval(fuel, g, t, subj, s), Coded(fuel, g, t, subj, s);
    match t
    case TRep(p) =>
      SameEnd(fuel, g, p, subj, s);
      var r1, c1 := Eval(fuel, g, p, subj, s), Coded(fuel, g, p, subj, s);
      if r1.Match? {
        HonestExact(fuel, g, p, subj, s);
        HonestExact(fuel - 1, g, t, subj, r1.end);
        PartsEqual(c1.caps, Coded(fuel - 1, g, t, subj, r1.end).caps, r1.caps, Eval(fuel - 1, g, t, subj, r1.end).caps);
      }
    case TSeq(p1, p2) =>
      HonestExact(fuel, g, p1, subj, s);
      SameEnd(fuel, g, p1, subj, s);
      var r1, c1 := Eval(fuel, g, p1, subj, s), Coded(fuel, g, p1, subj, s);
      HonestExact(fuel, g, p2, subj, r1.end);
      PartsEqual(c1.caps, Coded(fuel, g, p2, subj, r1.end).caps, r1.caps, Eval(fuel, g, p2, subj, r1.end).caps);
    case TChoice(p1, p2) =>
      SameEnd(fuel, g, p1, subj, s);
      if Eval(fuel, g, p1, subj, s).NoMatch? {
        HonestExact(fuel, g, p2, subj, s);
      } else {
        HonestExact(fuel, g, p1, subj, s);
      }
    case TCapture(kind, key, p) =>
      HonestExact(fuel, g, p, subj, s);
      SameEnd(fuel, g, p, subj, s);
      var r1, c1 := Eval(fuel, g, p, subj, s), Coded(fuel, g, p, subj, s);
      var one := CapTree(kind, key, s, r1.end, r1.caps);
      if CaptureFull(g, p) {
        OneEqual(c1.caps, one.(inner := []), one);
        if c1.caps == [] { assert r1.caps == []; }
      } else {
        assert r.caps[0] == one && c.caps[0] == one.(inner := c1.caps);
      }
    case TCall(k) => HonestExact(fuel - 1, g, g[k], subj, s);
    case TGrammar(rules) => HonestExact(fuel, rules, rules[0], subj, s);
    case _ =>
  }

  lemma {:induction false} EncodeNotEmpty(cs: seq<CapTree>)
    ensures Encode(cs) == [] <==> cs == []
  {
    if cs != [] {
      EncodeLast(cs);
    }
  }

  /** A capture in one instruction leaves the right list if and only if its body recorded nothing. */
  lemma {:induction false} OneInstructionExact(fuel: nat, g: Rules, t: Tree, subj: Subject, s: nat)
    requires s <= |subj| && t.TCapture? && t.kind != CCLOSE && CaptureFull(g, t.body)
    requires Eval(fuel, g, t, subj, s).Match?
    ensures var (r, c) := (Eval(fuel, g, t, subj, s), Coded(fuel, g, t, subj, s));
            c.Match? && (Encode(c.caps) == Encode(r.caps) <==> RecordsNone(Coded(fuel, g, t.body, subj, s)))
  {
    hide Encode, EncodeOne, CaptureFull;
    HonestExact(fuel, g, t, subj, s);
    HonestExact(fuel, g, t.body, subj, s);
    SameEnd(fuel, g, t.body, subj, s);
    var b := Eval(fuel, g, t.body, subj, s);
    var cs := Coded(fuel, g, t.body, subj, s).caps;
    var full := CapTree(t.kind, t.key, s, b.end, []);
    EncodeAppend(cs, [full]);
    EncodeEnds(full);
    EncodeEnds(CapTree(t.kind, t.key, s, b.end, b.caps));
    if Encode(cs + [full]) == Encode([CapTree(t.kind, t.key, s, b.end, b.caps)]) {
      EncodeNotEmpty(cs);
      if b.caps == [] {
        assert |Encode(cs)| + |Encode([full])| == |Encode([full])|;
      } else {
        FullCaptureShort(fuel, g, t.body, subj, s);
      }
    }
  }

  /** A look-ahead by looking behind leaves the right list if and only if its body recorded nothing. */
  lemma {:induction false} LookBehindExact(fuel: nat, g: Rules, t: Tree, subj: Subject, s: nat)
    requires s <= |subj| && t.TAnd? && AndByBehind(g, t.body) && Eval(fuel, g, t, subj, s).Match?
    ensures var (r, c) := (Eval(fuel, g, t, subj, s), Coded(fuel, g, t, subj, s));
            c.Match? && (Encode(c.caps) == Encode(r.caps) <==> RecordsNone(Coded(fuel, g, t.body, subj, s)))
  {
    hide Encode, AndByBehind;
    SameEnd(fuel, g, t.body, subj, s);
    EncodeNotEmpty(Coded(fuel, g, t.body, subj, s).caps);
    EncodeNotEmpty([]);
  }

  /** The body of a capture in one instruction matches at most MAXOFF characters. */
  lemma {:induction false} FullCaptureShort(fuel: nat, g: Rules, p: Tree, subj: Subject, s: nat)
    requires s <= |subj| && CaptureFull(g, p) && Eval(fuel, g, p, subj, s).Match?
    ensures Eval(fuel, g, p, subj, s).end - s <= MAXOFF
  {
    FixedlenSound(fuel, g, p, 0, 0, subj, s);
  }

  /** How the entries of one capture end. */
  lemma {:induction false} EncodeEnds(c: CapTree)
    requires c.start <= c.end
    ensures Encode([c]) != []
    ensures var last := Encode([c])[|Encode([c])| - 1];
            if c.inner == [] && c.end - c.start < 255 then last.kind == c.kind else last.kind == CCLOSE
  {
    assert [c][1..] == [];
    assert Encode([]) == [];
    assert Encode([c]) == EncodeOne(c);
  }

  lemma {:induction false} ProperJoin(a: seq<CapTree>, b: seq<CapTree>)
    requires Proper(a) && Proper(b)
    ensures Proper(a + b)
  {
    hide ProperOne;
    forall i | 0 <= i < |a + b| ensures ProperOne((a + b)[i]) {
      assert (a + b)[i] == if i < |a| then a[i] else b[i - |a|];
    }
  }

  lemma {:induction false} ProperLast(a: seq<CapTree>, c: CapTree)
    requires Proper(a) && c.kind != CCLOSE && c.start <= c.end && Proper(c.inner)
    ensures Proper(a + [c])
  {
    assert ProperOne(c);
    ProperJoin(a, [c]);
  }

  lemma {:induction false} CodedProper(fuel: nat, g: Rules, t: Tree, subj: Subject, s: nat)
    requires s <= |subj| && KindsOk(t) && RulesKindsOk(g)
    ensures var r := Coded(fuel, g, t, subj, s); r.Match? ==> Proper(r.caps)
    decreases fuel, t
  {
    hide Proper, AndByBehind, CaptureFull;
    assert Proper([]) by { NoneOrdered(0, 0); }
    match t
    case TRep(p) =>
      CodedProper(fuel, g, p, subj, s);
      var r1 := Coded(fuel, g, p, subj, s);
      if r1.Match? && fuel > 0 {
        CodedProper(fuel - 1, g, t, subj, r1.end);
        var r2 := Coded(fuel - 1, g, t, subj, r1.end);
        if r2.Match? {
          ProperJoin(r1.caps, r2.caps);
        }
      }
    case TSeq(p1, p2) =>
      CodedProper(fuel, g, p1, subj, s);
      var r1 := Coded(fuel, g, p1, subj, s);
      if r1.Match? {
        CodedProper(fuel, g, p2, subj, r1.end);
        var r2 := Coded(fuel, g, p2, subj, r1.end);
        if r2.Match? {
          ProperJoin(r1.caps, r2.caps);
        }
      }
    case TChoice(p1, p2) =>
      CodedProper(fuel, g, p1, subj, s);
      CodedProper(fuel, g, p2, subj, s);
    case TAnd(p) => CodedProper(fuel, g, p, subj, s);
    case TBehind(n, p) => if n <= s { CodedProper(fuel, g, p, subj, s - n); }
    case TCapture(kind, key, p) =>
      CodedProper(fuel, g, p, subj, s);
      var r1 := Coded(fuel, g, p, subj, s);
      if r1.Match? {
        ProperLast(r1.caps, CapTree(kind, key, s, r1.end, []));
        ProperLast([], CapTree(kind, key, s, r1.end, r1.caps));
        assert [] + [CapTree(kind, key, s, r1.end, r1.caps)] == [CapTree(kind, key, s, r1.end, r1.caps)];
      }
    case TCall(k) => if k < |g| && fuel > 0 { CodedProper(fuel - 1, g, g[k], subj, s); }
    case TGrammar(rules) => if rules != [] { CodedProper(fuel, rules, rules[0], subj, s); }
    case _ =>
  }

  lemma {:induction false} EncodeInjective(a: seq<CapTree>, b: seq<CapTree>)
    requires Proper(a) && Proper(b)
    ensures Encode(a) == Encode(b) <==> a == b
  {
    hide Read, Encode, Proper;
    ListFaithful(a);
    ListFaithful(b);
  }

  /** The capture list of a match is right if and only if the match is honest. */
  lemma {:induction false} ListExact(fuel: nat, g: Rules, t: Tree, subj: Subject, s: nat)
    requires s <= |subj| && KindsOk(t) && RulesKindsOk(g) && Eval(fuel, g, t, subj, s).Match?
    ensures Coded(fuel, g, t, subj, s).Match?
    ensures Encode(Coded(fuel, g, t, subj, s).caps) == Encode(Eval(fuel, g, t, subj, s).caps) <==>
            Honest(fuel, g, t, subj, s)
  {
    hide Encode, Proper, Coded, Eval, Honest;
    var r, c := Eval(fuel, g, t, subj, s), Coded(fuel, g, t, subj, s);
    SameEnd(fuel, g, t, subj, s);
    HonestExact(fuel, g, t, subj, s);
    CodedProper(fuel, g, t, subj, s);
    EvalCaptures(fuel, g, t, subj, s);
    EncodeInjective(c.caps, r.caps);
  }

  // ---------- Captures reached through calls ----------

  /** Can the code of `t` leave a capture written in `t` itself? */
  predicate Shows(t: Tree)
  {
    match t
    case TCapture(_, _, _) => true
    case TRep(p) => Shows(p)
    case TSeq(p1, p2) => Shows(p1) || Shows(p2)
    case TChoice(p1, p2) => Shows(p1) || Shows(p2)
    case TBehind(_, p) => Shows(p)
    case TGrammar(_) => HasCaptures(t)
    case _ => false
  }

  /** Can the code of `t` call rule `k` and leave its captures? */
  predicate Enters(g: Rules, t: Tree, k: nat)
  {
    match t
    case TCall(r) => r == k
    case TCapture(_, _, p) => Enters(g, p, k)
    case TRep(p) => Enters(g, p, k)
    case TSeq(p1, p2) => Enters(g, p1, k) || Enters(g, p2, k)
    case TChoice(p1, p2) => Enters(g, p1, k) || Enters(g, p2, k)
    case TAnd(p) => AndByBehind(g, p) && Enters(g, p, k)
    case TBehind(_, p) => Enters(g, p, k)
    case _ => false
  }

  /** A chain of rules that starts with a call in `t`. */
  predicate CallPath(g: Rules, t: Tree, path: seq<nat>)
  {
    && path != []
    && (forall i :: 0 <= i < |path| ==> path[i] < |g|)
    && Enters(g, t, path[0])
    && (forall i :: 0 <= i < |path| - 1 ==> Enters(g, g[path[i]], path[i + 1]))
  }

  /** No capture in `t` nor in any rule that its calls reach. */
  ghost predicate Captureless(g: Rules, t: Tree)
  {
    !Shows(t) && forall path: seq<nat> :: CallPath(g, t, path) ==> !Shows(g[path[|path| - 1]])
  }

  lemma {:induction false} CapturelessPart(g: Rules, t: Tree, p: Tree)
    requires Captureless(g, t)
    requires Shows(p) ==> Shows(t)
    requires forall k :: Enters(g, p, k) ==> Enters(g, t, k)
    ensures Captureless(g, p)
  {
    hide Shows, Enters;
    forall path: seq<nat> | CallPath(g, p, path) ensures !Shows(g[path[|path| - 1]]) {
      assert CallPath(g, t, path);
    }
  }

  lemma {:induction false} CapturelessRule(g: Rules, k: nat)
    requires Captureless(g, TCall(k)) && k < |g|
    ensures Captureless(g, g[k])
  {
    hide Shows;
    assert CallPath(g, TCall(k), [k]);
    forall path: seq<nat> | CallPath(g, g[k], path) ensures !Shows(g[path[|path| - 1]]) {
      var longer := [k] + path;
      forall i | 0 <= i < |longer| - 1 ensures Enters(g, g[longer[i]], longer[i + 1]) {
        if i > 0 {
          assert longer[i] == path[i - 1] && longer[i + 1] == path[i];
        }
      }
      assert CallPath(g, TCall(k), longer);
      assert longer[|longer| - 1] == path[|path| - 1];
    }
  }

  /** Rules without captures reach none. */
  lemma {:induction false} QuietCaptureless(g: Rules, t: Tree)
    requires !HasCaptures(t) && forall k :: 0 <= k < |g| ==> !HasCaptures(g[k])
    ensures Captureless(g, t)
  {
    ShowsHas(t);
    forall path: seq<nat> | CallPath(g, t, path) ensures !Shows(g[path[|path| - 1]]) {
      ShowsHas(g[path[|path| - 1]]);
    }
  }

  lemma {:induction false} ShowsHas(t: Tree)
    ensures Shows(t) ==> HasCaptures(t)
  {
    match t
    case TRep(p) => ShowsHas(p);
    case TSeq(p1, p2) => ShowsHas(p1); ShowsHas(p2);
    case TChoice(p1, p2) => ShowsHas(p1); ShowsHas(p2);
    case TBehind(_, p) => ShowsHas(p);
    case _ =>
  }

  /** What reaches no capture records none and means none. */
  lemma {:induction false} CapturelessSound(fuel: nat, g: Rules, t: Tree, subj: Subject, s: nat)
    requires s <= |subj| && Captureless(g, t)
    ensures var (r, c) := (Eval(fuel, g, t, subj, s), Coded(fuel, g, t, subj, s));
            && (r.Match? ==> r.caps == [])
            && (c.Match? ==> c.caps == [])
    decreases fuel, t
  {
    hide Captureless, AndByBehind, CaptureFull;
    assert !t.TCapture? by { NotCapture(g, t); }
    SameEnd(fuel, g, t, subj, s);
    match t
    case TRep(p) =>
      CapturelessPart(g, t, p);
      CapturelessSound(fuel, g, p, subj, s);
      SameEnd(fuel, g, p, subj, s);
      var r := Eval(fuel, g, p, subj, s);
      if r.Match? && fuel > 0 {
        CapturelessSound(fuel - 1, g, t, subj, r.end);
      }
    case TSeq(p1, p2) =>
      CapturelessPart(g, t, p1);
      CapturelessPart(g, t, p2);
      CapturelessSound(fuel, g, p1, subj, s);
      SameEnd(fuel, g, p1, subj, s);
      var r := Eval(fuel, g, p1, subj, s);
      if r.Match? {
        CapturelessSound(fuel, g, p2, subj, r.end);
      }
    case TChoice(p1, p2) =>
      CapturelessPart(g, t, p1);
      CapturelessPart(g, t, p2);
      SameEnd(fuel, g, p1, subj, s);
      CapturelessSound(fuel, g, p1, subj, s);
      CapturelessSound(fuel, g, p2, subj, s);
    case TAnd(p) =>
      if AndByBehind(g, p) {
        ByBehindShowsNone(g, p);
        CapturelessPart(g, t, p);
        CapturelessSound(fuel, g, p, subj, s);
      }
    case TBehind(n, p) =>
      CapturelessPart(g, t, p);
      if n <= s { CapturelessSound(fuel, g, p, subj, s - n); }
    case TCall(k) =>
      if k < |g| && fuel > 0 {
        CapturelessRule(g, k);
        CapturelessSound(fuel - 1, g, g[k], subj, s);
      }
    case TGrammar(rules) =>
      if rules != [] {
        NoneInGrammar(g, rules);
        CapturelessSound(fuel, rules, rules[0], subj, s);
      }
    case _ =>
  }

  lemma {:induction false} NotCapture(g: Rules, t: Tree)
    requires Captureless(g, t)
    ensures !t.TCapture?
  {
  }

  lemma {:induction false} ByBehindShowsNone(g: Rules, p: Tree)
    requires AndByBehind(g, p)
    ensures !Shows(p)
  {
    ShowsHas(p);
  }

  lemma {:induction false} NoneInGrammar(g: Rules, rules: Rules)
    requires Captureless(g, TGrammar(rules)) && rules != []
    ensures Captureless(rules, rules[0])
  {
    assert forall k :: 0 <= k < |rules| ==> !HasCaptures(rules[k]);
    QuietCaptureless(rules, rules[0]);
  }

  /**
   * Wherever the code generator relies on HasCaptures, no capture is reachable through the calls of
   * the body. Under predicates captures are dropped, so nothing is asked there.
   */
  ghost predicate CapsSafe(g: Rules, t: Tree)
    decreases t
  {
    match t
    case TRep(p) => CapsSafe(g, p)
    case TSeq(p1, p2) => CapsSafe(g, p1) && CapsSafe(g, p2)
    case TChoice(p1, p2) => CapsSafe(g, p1) && CapsSafe(g, p2)
    case TAnd(p) => AndByBehind(g, p) ==> Captureless(g, p)
    case TBehind(_, p) => Captureless(g, p)
    case TCapture(_, _, p) => if CaptureFull(g, p) then Captureless(g, p) else CapsSafe(g, p)
    case TGrammar(rules) => forall i :: 0 <= i < |rules| ==> CapsSafe(rules, rules[i])
    case _ => true
  }

  ghost predicate RulesCapsSafe(g: Rules) { forall k :: 0 <= k < |g| ==> CapsSafe(g, g[k]) }

  /** Under that condition the code records what the pattern means. */
  lemma {:induction false} SafeIsMeant(fuel: nat, g: Rules, t: Tree, subj: Subject, s: nat)
    requires s <= |subj| && CapsSafe(g, t) && RulesCapsSafe(g) && WellFormed(g, t)
    requires forall k :: 0 <= k < |g| ==> WellFormed(g, g[k])
    ensures Coded(fuel, g, t, subj, s) == Eval(fuel, g, t, subj, s)
    decreases fuel, t
  {
    hide Captureless, AndByBehind, CaptureFull, Fixedlenx, HasCaptures;
    SameEnd(fuel, g, t, subj, s);
    match t
    case TRep(p) =>
      SafeIsMeant(fuel, g, p, subj, s);
      var r := Eval(fuel, g, p, subj, s);
      if r.Match? && fuel > 0 {
        SafeIsMeant(fuel - 1, g, t, subj, r.end);
      }
    case TSeq(p1, p2) =>
      SafeIsMeant(fuel, g, p1, subj, s);
      var r := Eval(fuel, g, p1, subj, s);
      if r.Match? {
        SafeIsMeant(fuel, g, p2, subj, r.end);
      }
    case TChoice(p1, p2) => SafeIsMeant(fuel, g, p1, subj, s); SafeIsMeant(fuel, g, p2, subj, s);
    case TNot(p) => SameEnd(fuel, g, p, subj, s);
    case TAnd(p) =>
      if AndByBehind(g, p) {
        CapturelessSound(fuel, g, p, subj, s);
      }
    case TBehind(n, p) =>
      if n <= s {
        CapturelessSound(fuel, g, p, subj, s - n);
      }
    case TCapture(_, _, p) =>
      if CaptureFull(g, p) {
        CapturelessSound(fuel, g, p, subj, s);
      } else {
        SafeIsMeant(fuel, g, p, subj, s);
      }
    case TCall(k) => if k < |g| && fuel > 0 { SafeIsMeant(fuel - 1, g, g[k], subj, s); }
    case TGrammar(rules) => if rules != [] { SafeIsMeant(fuel, rules, rules[0], subj, s); }
    case _ =>
  }

  /** Without captures and calls there is no way to a capture. */
  lemma {:induction false} CallFreeMakesNone(g: Rules, p: Tree)
    requires !HasCaptures(p) && !HasCalls(p)
    ensures Captureless(g, p)
  {
    ShowsHas(p);
    forall path: seq<nat> ensures !CallPath(g, p, path) {
      if path != [] {
        EntersHas(g, p, path[0]);
      }
    }
  }

  lemma {:induction false} EntersHas(g: Rules, t: Tree, k: nat)
    ensures Enters(g, t, k) ==> HasCalls(t)
    decreases t
  {
    match t
    case TCapture(_, _, p) => EntersHas(g, p, k);
    case TRep(p) => EntersHas(g, p, k);
    case TSeq(p1, p2) => EntersHas(g, p1, k); EntersHas(g, p2, k);
    case TChoice(p1, p2) => EntersHas(g, p1, k); EntersHas(g, p2, k);
    case TAnd(p) => EntersHas(g, p, k);
    case TBehind(_, p) => EntersHas(g, p, k);
    case _ =>
  }

  /** Patterns without captures, under rules without captures, meet the condition. */
  lemma {:induction false} QuietIsSafe(g: Rules, t: Tree)
    requires !HasCaptures(t) && forall k :: 0 <= k < |g| ==> !HasCaptures(g[k])
    ensures CapsSafe(g, t)
    decreases t
  {
    hide Captureless, Fixedlenx;
    match t
    case TRep(p) => QuietIsSafe(g, p);
    case TSeq(p1, p2) => QuietIsSafe(g, p1); QuietIsSafe(g, p2);
    case TChoice(p1, p2) => QuietIsSafe(g, p1); QuietIsSafe(g, p2);
    case TAnd(p) => QuietCaptureless(g, p);
    case TBehind(_, p) => QuietCaptureless(g, p);
    case TGrammar(rules) =>
      forall i | 0 <= i < |rules| ensures CapsSafe(rules, rules[i]) {
        QuietIsSafe(rules, rules[i]);
      }
    case _ =>
  }

  /** So do patterns without calls of their own, whatever they capture, if their grammars do. */
  lemma {:induction false} CallFreeIsSafe(g: Rules, t: Tree)
    requires !HasCalls(t) && GrammarsCapsSafe(t) && WellFormed(g, t)
    ensures CapsSafe(g, t)
    decreases t
  {
    hide Captureless, Fixedlenx;
    match t
    case TRep(p) => CallFreeIsSafe(g, p);
    case TSeq(p1, p2) => CallFreeIsSafe(g, p1); CallFreeIsSafe(g, p2);
    case TChoice(p1, p2) => CallFreeIsSafe(g, p1); CallFreeIsSafe(g, p2);
    case TAnd(p) =>
      if AndByBehind(g, p) {
        CallFreeMakesNone(g, p);
      }
    case TBehind(_, p) => CallFreeMakesNone(g, p);
    case TCapture(_, _, p) =>
      if CaptureFull(g, p) {
        CallFreeMakesNone(g, p);
      } else {
        CallFreeIsSafe(g, p);
      }
    case _ =>
  }

  ghost predicate GrammarsCapsSafe(t: Tree)
  {
    match t
    case TGrammar(rules) => forall i :: 0 <= i < |rules| ==> CapsSafe(rules, rules[i])
    case TRep(p) => GrammarsCapsSafe(p)
    case TSeq(p1, p2) => GrammarsCapsSafe(p1) && GrammarsCapsSafe(p2)
    case TChoice(p1, p2) => GrammarsCapsSafe(p1) && GrammarsCapsSafe(p2)
    case TCapture(_, _, p) => GrammarsCapsSafe(p)
    case _ => true
  }

  lemma {:induction false} QuietCallFreeIsSafe(g: Rules, p: Tree)
    requires !HasCaptures(p) && !HasCalls(p)
    ensures CapsSafe(g, p)
    decreases p
  {
    hide Captureless, Fixedlenx;
    match p
    case TRep(q) => QuietCallFreeIsSafe(g, q);
    case TSeq(q1, q2) => QuietCallFreeIsSafe(g, q1); QuietCallFreeIsSafe(g, q2);
    case TChoice(q1, q2) => QuietCallFreeIsSafe(g, q1); QuietCallFreeIsSafe(g, q2);
    case TAnd(q) => CallFreeMakesNone(g, q);
    case TBehind(_, q) => CallFreeMakesNone(g, q);
    case TGrammar(_) => QuietIsSafe([], p);
    case _ =>
  }

  /** A capture around a call to rules that capture nothing, such as S <- {A}, A <- 'a', is right. */
  lemma {:induction false} CapturedCallIsSafe(kind: nat, key: int, p: Tree)
    requires !HasCaptures(p) && !HasCalls(p)
    ensures CapsSafe([], TGrammar([TCapture(kind, key, TCall(1)), p]))
  {
    hide Fixedlenx;
    var g := [TCapture(kind, key, TCall(1)), p];
    forall path: seq<nat> | CallPath(g, TCall(1), path) ensures !Shows(g[path[|path| - 1]]) {
      ShowsHas(p);
      if |path| > 1 {
        EntersHas(g, p, path[1]);
      }
    }
    assert Captureless(g, TCall(1));
    assert CapsSafe(g, g[0]) by { QuietCapture(g, g[0]); }
    assert CapsSafe(g, g[1]) by { QuietCallFreeIsSafe(g, p); }
  }

  lemma {:induction false} QuietCapture(g: Rules, t: Tree)
    requires t.TCapture? && t.body.TCall? && Captureless(g, t.body)
    ensures CapsSafe(g, t)
  {
  }
}
