/** What exactly the static analyses answer, without following how they compute it. */
module LpegExact {
  import opened LpegTree
  import opened LpegAnalysis
  import opened LpegVerify
  import LpegAnalysisSound

  // ---------- Fixed lengths ----------

  /** No repetition but under predicates, and calls to rules, nested at most `depth` deep. */
  predicate Plain(g: Rules, t: Tree, depth: nat)
    decreases depth, t
  {
    match t
    case TRep(_) => false
    case TSeq(p1, p2) => Plain(g, p1, depth) && Plain(g, p2, depth)
    case TChoice(p1, p2) => Plain(g, p1, depth) && Plain(g, p2, depth)
    case TCapture(_, _, p) => Plain(g, p, depth)
    case TCall(k) => k < |g| && depth > 0 && Plain(g, g[k], depth - 1)
    case TGrammar(rules) => rules != [] && Plain(rules, rules[0], depth)
    case _ => true
  }

  /** Can such a pattern take `n` characters, if predicates take none and each choice is open? */
  ghost predicate Takes(g: Rules, t: Tree, depth: nat, n: nat)
    decreases depth, t
  {
    match t
    case TChar(_) => n == 1
    case TSet(_) => n == 1
    case TAny => n == 1
    case TSeq(p1, p2) => exists i: nat, j: nat :: Takes(g, p1, depth, i) && Takes(g, p2, depth, j) && i + j == n
    case TChoice(p1, p2) => Takes(g, p1, depth, n) || Takes(g, p2, depth, n)
    case TCapture(_, _, p) => Takes(g, p, depth, n)
    case TCall(k) => k < |g| && depth > 0 && Takes(g, g[k], depth - 1, n)
    case TGrammar(rules) => rules != [] && Takes(rules, rules[0], depth, n)
    case _ => n == 0
  }

  /** A plain pattern takes some length. */
  lemma {:induction false} TakesSome(g: Rules, t: Tree, depth: nat) returns (n: nat)
    requires Plain(g, t, depth)
    ensures Takes(g, t, depth, n)
    decreases depth, t
  {
    n := 0;
    match t
    case TSeq(p1, p2) =>
      var i := TakesSome(g, p1, depth);
      var j := TakesSome(g, p2, depth);
      n := i + j;
    case TChoice(p1, _) => n := TakesSome(g, p1, depth);
    case TCapture(_, _, p) => n := TakesSome(g, p, depth);
    case TCall(k) => n := TakesSome(g, g[k], depth - 1);
    case TGrammar(rules) => n := TakesSome(rules, rules[0], depth);
    case TChar(_) => n := 1;
    case TSet(_) => n := 1;
    case TAny => n := 1;
    case _ =>
  }

  /** Is `n` the one length that the pattern can take? */
  ghost predicate TakesOnly(g: Rules, t: Tree, depth: nat, n: int)
  {
    Plain(g, t, depth) && forall m: nat :: Takes(g, t, depth, m) ==> m == n
  }

  lemma {:induction false} SeqTakesOnly(g: Rules, p1: Tree, p2: Tree, depth: nat, n: int)
    requires TakesOnly(g, TSeq(p1, p2), depth, n)
    ensures exists i: nat, j: nat :: TakesOnly(g, p1, depth, i) && TakesOnly(g, p2, depth, j) && i + j == n
  {
    var i := TakesSome(g, p1, depth);
    var j := TakesSome(g, p2, depth);
    assert Takes(g, TSeq(p1, p2), depth, i + j);
    forall m: nat | Takes(g, p1, depth, m) ensures m == i {
      assert Takes(g, TSeq(p1, p2), depth, m + j);
    }
    forall m: nat | Takes(g, p2, depth, m) ensures m == j {
      assert Takes(g, TSeq(p1, p2), depth, i + m);
    }
    assert TakesOnly(g, p1, depth, i) && TakesOnly(g, p2, depth, j);
  }

  lemma {:induction false} SeqTakesBoth(g: Rules, p1: Tree, p2: Tree, depth: nat, i: nat, j: nat)
    requires TakesOnly(g, p1, depth, i) && TakesOnly(g, p2, depth, j)
    ensures TakesOnly(g, TSeq(p1, p2), depth, i + j)
  {
  }

  lemma {:induction false} ChoiceTakesOnly(g: Rules, p1: Tree, p2: Tree, depth: nat, n: int)
    ensures TakesOnly(g, TChoice(p1, p2), depth, n) <==> TakesOnly(g, p1, depth, n) && TakesOnly(g, p2, depth, n)
  {
    var t := TChoice(p1, p2);
    forall m: nat ensures Takes(g, t, depth, m) <==> Takes(g, p1, depth, m) || Takes(g, p2, depth, m) {
    }
  }

  lemma {:induction false} TakesAlike(g: Rules, t: Tree, depth: nat, g': Rules, t': Tree, depth': nat, n: int)
    requires Plain(g, t, depth) <==> Plain(g', t', depth')
    requires forall m: nat :: Takes(g, t, depth, m) <==> Takes(g', t', depth', m)
    ensures TakesOnly(g, t, depth, n) <==> TakesOnly(g', t', depth', n)
  {
    hide Plain, Takes;
  }

  lemma {:induction false} FixedSeq(g: Rules, p1: Tree, p2: Tree, count: nat, len: nat, n: nat)
    requires count <= MAXRULES
    ensures var r := Fixedlenx(g, TSeq(p1, p2), count, len);
            (r == len + n <==> TakesOnly(g, TSeq(p1, p2), MAXRULES - count, n)) && (r >= 0 ==> r >= len)
    decreases MAXRULES - count, TSeq(p1, p2), 0
  {
    hide TakesOnly;
    var t, depth := TSeq(p1, p2), MAXRULES - count;
    var n1 := Fixedlenx(g, p1, count, len);
    FixedlenxExact(g, p1, count, len, 0);
    if n1 >= 0 {
      FixedlenxExact(g, p1, count, len, n1 - len);
      FixedlenxExact(g, p2, count, n1, 0);
      if n1 <= len + n {
        FixedlenxExact(g, p2, count, n1, len + n - n1);
      }
      if Fixedlenx(g, t, count, len) == len + n {
        SeqTakesBoth(g, p1, p2, depth, n1 - len, len + n - n1);
      }
    }
    if TakesOnly(g, t, depth, n) {
      SeqTakesOnly(g, p1, p2, depth, n);
      var i: nat, j: nat :| TakesOnly(g, p1, depth, i) && TakesOnly(g, p2, depth, j) && i + j == n;
      FixedlenxExact(g, p1, count, len, i);
      FixedlenxExact(g, p2, count, len + i, j);
    }
  }

  /** The length is found if and only if there is just one. */
  lemma {:induction false} FixedlenxExact(g: Rules, t: Tree, count: nat, len: nat, n: nat)
    requires count <= MAXRULES
    ensures Fixedlenx(g, t, count, len) == len + n <==> TakesOnly(g, t, MAXRULES - count, n)
    ensures Fixedlenx(g, t, count, len) >= 0 ==> Fixedlenx(g, t, count, len) >= len
    decreases MAXRULES - count, t, 1
  {
    var depth := MAXRULES - count;
    match t
    case TSeq(p1, p2) => FixedSeq(g, p1, p2, count, len, n);
    case TChoice(p1, p2) =>
      FixedlenxExact(g, p1, count, len, n);
      FixedlenxExact(g, p2, count, len, n);
      ChoiceTakesOnly(g, p1, p2, depth, n);
    case TCapture(_, _, p) =>
      FixedlenxExact(g, p, count, len, n);
      TakesAlike(g, t, depth, g, p, depth, n);
    case TCall(k) =>
      if k < |g| && depth > 0 {
        FixedlenxExact(g, g[k], count + 1, len, n);
        TakesAlike(g, t, depth, g, g[k], depth - 1, n);
      }
    case TGrammar(rules) =>
      if rules != [] {
        FixedlenxExact(rules, rules[0], count, len, n);
        TakesAlike(g, t, depth, rules, rules[0], depth, n);
      }
    case TRep(_) =>
    case _ => LeafTakes(g, t, depth);
  }

  /** How many characters a pattern without parts takes. */
  function Width(t: Tree): nat { if IsCharset(t) then 1 else 0 }

  lemma LeafTakes(g: Rules, t: Tree, depth: nat)
    requires !t.TSeq? && !t.TChoice? && !t.TCapture? && !t.TCall? && !t.TGrammar?
    ensures (forall i: nat :: Takes(g, t, depth, i) <==> i == Width(t)) && Takes(g, t, depth, Width(t))
  {
  }

  /** A pattern has a fixed length exactly if it can take one length only. */
  lemma FixedlenExact(g: Rules, t: Tree, n: nat)
    ensures Fixedlen(g, t) == n <==> TakesOnly(g, t, MAXRULES, n)
  {
    FixedlenxExact(g, t, 0, 0, n);
  }

  // ---------- Nullable and nofail ----------

  const EMPTY: Subject := []

  /** The pattern with all predicates passing. */
  function Relaxed(t: Tree): Tree
  {
    match t
    case TNot(_) => TTrue
    case TAnd(_) => TTrue
    case TBehind(_, _) => TTrue
    case TRep(p) => TRep(Relaxed(p))
    case TSeq(p1, p2) => TSeq(Relaxed(p1), Relaxed(p2))
    case TChoice(p1, p2) => TChoice(Relaxed(p1), Relaxed(p2))
    case TCapture(kind, key, p) => TCapture(kind, key, Relaxed(p))
    case TGrammar(rules) => TGrammar(RelaxedRules(rules))
    case _ => t
  }

  function RelaxedRules(g: Rules): (r: Rules)
    ensures |r| == |g| && forall k :: 0 <= k < |g| ==> r[k] == Relaxed(g[k])
    decreases g
  {
    if g == [] then [] else [Relaxed(g[0])] + RelaxedRules(g[1..])
  }

  lemma RepPasses(fuel: nat, g: Rules, p: Tree)
    ensures !Eval(fuel, g, TRep(p), EMPTY, 0).NoMatch?
  {
    LpegAnalysisSound.NofailSound(fuel, g, TRep(p), 0, EMPTY, 0);
  }

  /** A pattern is nullable exactly if, with all predicates passing, it matches the empty subject. */
  lemma {:induction false} NullableExact(fuel: nat, g: Rules, t: Tree, left: nat)
    requires LeftBounded(g, t, left) && left <= CHASE
    requires !Eval(fuel, RelaxedRules(g), Relaxed(t), EMPTY, 0).Running?
    ensures Eval(fuel, RelaxedRules(g), Relaxed(t), EMPTY, 0).Match? <==> Nullable(g, t)
    decreases Rank(g, t), left, t
  {
    match t
    case TSeq(p1, p2) =>
      NullableExact(fuel, g, p1, left);
      if Nullable(g, p1) {
        NullableExact(fuel, g, p2, left);
      }
    case TChoice(p1, p2) =>
      NullableExact(fuel, g, p1, left);
      if !Nullable(g, p1) {
        NullableExact(fuel, g, p2, left);
      }
    case TCapture(_, _, p) => NullableExact(fuel, g, p, left);
    case TCall(k) =>
      if k < |g| {
        NullableExact(fuel - 1, g, g[k], left - 1);
        CheckauxSaturates(g, g[k], PEnullable, left - 1, CHASE - 1);
      }
    case TGrammar(rules) => if rules != [] { NullableExact(fuel, rules, rules[0], MAXRULES); }
    case TRep(p) => RepPasses(fuel, RelaxedRules(g), Relaxed(p));
    case _ =>
  }

  /** The pattern with negations and look-behinds failing. */
  function Strict(t: Tree): Tree
  {
    match t
    case TNot(_) => TFalse
    case TBehind(_, _) => TFalse
    case TAnd(p) => TAnd(Strict(p))
    case TRep(p) => TRep(Strict(p))
    case TSeq(p1, p2) => TSeq(Strict(p1), Strict(p2))
    case TChoice(p1, p2) => TChoice(Strict(p1), Strict(p2))
    case TCapture(kind, key, p) => TCapture(kind, key, Strict(p))
    case TGrammar(rules) => TGrammar(StrictRules(rules))
    case _ => t
  }

  function StrictRules(g: Rules): (r: Rules)
    ensures |r| == |g| && forall k :: 0 <= k < |g| ==> r[k] == Strict(g[k])
    decreases g
  {
    if g == [] then [] else [Strict(g[0])] + StrictRules(g[1..])
  }

  /** A pattern is nofail exactly if, with negations and look-behinds failing, it matches the empty subject. */
  lemma {:induction false} NofailExact(fuel: nat, g: Rules, t: Tree, left: nat)
    requires LeftBounded(g, t, left) && left <= CHASE
    requires !Eval(fuel, StrictRules(g), Strict(t), EMPTY, 0).Running?
    ensures Eval(fuel, StrictRules(g), Strict(t), EMPTY, 0).Match? <==> Nofail(g, t)
    decreases Rank(g, t), left, t
  {
    match t
    case TSeq(p1, p2) =>
      NofailExact(fuel, g, p1, left);
      if Nofail(g, p1) {
        NofailNullable(g, p1);
        NofailExact(fuel, g, p2, left);
      }
    case TChoice(p1, p2) =>
      NofailExact(fuel, g, p1, left);
      if !Nofail(g, p1) {
        NofailExact(fuel, g, p2, left);
      }
    case TAnd(p) => NofailExact(fuel, g, p, left);
    case TCapture(_, _, p) => NofailExact(fuel, g, p, left);
    case TCall(k) =>
      if k < |g| {
        NofailExact(fuel - 1, g, g[k], left - 1);
        CheckauxSaturates(g, g[k], PEnofail, left - 1, CHASE - 1);
      }
    case TGrammar(rules) => if rules != [] { NofailExact(fuel, rules, rules[0], MAXRULES); }
    case TRep(p) => RepPasses(fuel, StrictRules(g), Strict(p));
    case _ =>
  }

  lemma NofailNullable(g: Rules, t: Tree)
    requires Nofail(g, t)
    ensures Nullable(g, t)
  {
    LpegAnalysisSound.NofailIsNullable(g, t, CHASE, CHASE);
  }

  // ---------- First sets ----------

  /** Can the pattern begin by taking `c`, if predicates are open? A negated set answers for what is not in it. */
  predicate Begins(g: Rules, t: Tree, left: nat, c: Byte)
    decreases Rank(g, t), left, t
  {
    match t
    case TChar(d) => c == d
    case TSet(cs) => c in cs
    case TAny => true
    case TNot(p) => IsCharset(p) && c !in ToCharset(p)
    case TRep(p) => Begins(g, p, left, c)
    case TSeq(p1, p2) => Begins(g, p1, left, c) || (Skips(g, p1, left, c) && Begins(g, p2, left, c))
    case TChoice(p1, p2) => Begins(g, p1, left, c) || Begins(g, p2, left, c)
    case TCapture(_, _, p) => Begins(g, p, left, c)
    case TCall(k) => k < |g| && left > 0 && Begins(g, g[k], left - 1, c)
    case TGrammar(rules) => rules != [] && Begins(rules, rules[0], MAXRULES, c)
    case _ => false
  }

  /** Can the pattern succeed without taking anything when `c` is next, if negations are open? */
  predicate Skips(g: Rules, t: Tree, left: nat, c: Byte)
    decreases Rank(g, t), left, t
  {
    match t
    case TTrue => true
    case TRep(_) => true
    case TNot(p) => !IsCharset(p)
    case TBehind(_, _) => true
    case TAnd(p) => Begins(g, p, left, c) || Skips(g, p, left, c)
    case TSeq(p1, p2) => Skips(g, p1, left, c) && Skips(g, p2, left, c)
    case TChoice(p1, p2) => Skips(g, p1, left, c) || Skips(g, p2, left, c)
    case TCapture(_, _, p) => Skips(g, p, left, c)
    case TCall(k) => k < |g| && left > 0 && Skips(g, g[k], left - 1, c)
    case TGrammar(rules) => rules != [] && Skips(rules, rules[0], MAXRULES, c)
    case _ => false
  }

  /** Can the pattern succeed at the end of the subject, if negations and look-behinds are open? */
  predicate EndsSubject(g: Rules, t: Tree, left: nat)
    decreases Rank(g, t), left, t
  {
    match t
    case TTrue => true
    case TRep(_) => true
    case TNot(_) => true
    case TBehind(_, _) => true
    case TAnd(p) => EndsSubject(g, p, left)
    case TSeq(p1, p2) => EndsSubject(g, p1, left) && EndsSubject(g, p2, left)
    case TChoice(p1, p2) => EndsSubject(g, p1, left) || EndsSubject(g, p2, left)
    case TCapture(_, _, p) => EndsSubject(g, p, left)
    case TCall(k) => k < |g| && left > 0 && EndsSubject(g, g[k], left - 1)
    case TGrammar(rules) => rules != [] && EndsSubject(rules, rules[0], MAXRULES)
    case _ => false
  }

  /** What succeeds without taking anything is nullable. */
  lemma {:induction false} SkipsNullable(g: Rules, t: Tree, left: nat, c: Byte)
    requires LeftBounded(g, t, left) && left <= CHASE
    ensures Skips(g, t, left, c) || EndsSubject(g, t, left) ==> Nullable(g, t)
    decreases Rank(g, t), left, t
  {
    match t
    case TSeq(p1, p2) =>
      SkipsNullable(g, p1, left, c);
      if Nullable(g, p1) {
        SkipsNullable(g, p2, left, c);
      }
    case TChoice(p1, p2) => SkipsNullable(g, p1, left, c); SkipsNullable(g, p2, left, c);
    case TCapture(_, _, p) => SkipsNullable(g, p, left, c);
    case TCall(k) =>
      if k < |g| {
        SkipsNullable(g, g[k], left - 1, c);
        CheckauxSaturates(g, g[k], PEnullable, left - 1, CHASE - 1);
      }
    case TGrammar(rules) => if rules != [] { SkipsNullable(rules, rules[0], MAXRULES, c); }
    case _ =>
  }

  /**
   * The first set has exactly the characters that the pattern can begin by taking, and those of the
   * follow set that it can leave to what follows.
   */
  lemma {:induction false} FirstExact(g: Rules, t: Tree, follow: Charset, left: nat, c: Byte)
    requires LeftBounded(g, t, left) && left <= CHASE
    ensures var f := FirstOf(g, t, follow);
            && (c in f.cs <==> Begins(g, t, left, c) || (Skips(g, t, left, c) && c in follow))
            && (f.e <==> EndsSubject(g, t, left))
    decreases Rank(g, t), left, t
  {
    assert c in FULLSET;
    match t
    case TSeq(p1, p2) =>
      SkipsNullable(g, p1, left, c);
      if Nullable(g, p1) {
        var f2 := FirstOf(g, p2, follow);
        FirstExact(g, p2, follow, left, c);
        FirstExact(g, p1, f2.cs, left, c);
      } else {
        FirstExact(g, p1, FULLSET, left, c);
      }
    case TChoice(p1, p2) => FirstExact(g, p1, follow, left, c); FirstExact(g, p2, follow, left, c);
    case TRep(p) => FirstExact(g, p, follow, left, c);
    case TAnd(p) => FirstExact(g, p, follow, left, c);
    case TCapture(_, _, p) => FirstExact(g, p, follow, left, c);
    case TCall(k) =>
      if k < |g| {
        FirstExact(g, g[k], follow, left - 1, c);
        FirstSaturates(g, g[k], follow, left - 1, CHASE - 1);
      }
    case TGrammar(rules) => if rules != [] { FirstExact(rules, rules[0], follow, MAXRULES, c); }
    case _ =>
  }

  // ---------- Headfail ----------

  /** A way through a pattern: what it starts with, and what follows, each under its rules. */
  datatype Way = Way(head: Tree, rest: seq<(Rules, Tree)>)

  /** All the ways through the choices of a pattern. */
  ghost function Ways(g: Rules, t: Tree, chase: nat): iset<Way>
    decreases Rank(g, t), chase, t
  {
    match t
    case TSeq(p1, p2) => iset w | w in Ways(g, p1, chase) :: Way(w.head, w.rest + [(g, p2)])
    case TChoice(p1, p2) => Ways(g, p1, chase) + Ways(g, p2, chase)
    case TCapture(_, _, p) => Ways(g, p, chase)
    case TAnd(p) => Ways(g, p, chase)
    case TCall(k) => if k < |g| && chase > 0 then Ways(g, g[k], chase - 1) else iset{Way(t, [])}
    case TGrammar(rules) => if rules != [] then Ways(rules, rules[0], CHASE) else iset{Way(t, [])}
    case _ => iset{Way(t, [])}
  }

  /** The way starts with a test of one character, and nothing on it can fail after that. */
  predicate OneTest(w: Way)
  {
    (IsCharset(w.head) || w.head.TFalse?) && forall i :: 0 <= i < |w.rest| ==> Nofail(w.rest[i].0, w.rest[i].1)
  }

  lemma {:induction false} SomeWay(g: Rules, t: Tree, chase: nat) returns (w: Way)
    ensures w in Ways(g, t, chase)
    decreases Rank(g, t), chase, t
  {
    w := Way(t, []);
    match t
    case TSeq(p1, p2) =>
      var v := SomeWay(g, p1, chase);
      w := Way(v.head, v.rest + [(g, p2)]);
    case TChoice(p1, _) => w := SomeWay(g, p1, chase);
    case TCapture(_, _, p) => w := SomeWay(g, p, chase);
    case TAnd(p) => w := SomeWay(g, p, chase);
    case TCall(k) => if k < |g| && chase > 0 { w := SomeWay(g, g[k], chase - 1); }
    case TGrammar(rules) => if rules != [] { w := SomeWay(rules, rules[0], CHASE); }
    case _ =>
  }

  /** A pattern is headfail exactly if every way through it makes one test and cannot fail after it. */
  lemma {:induction false} HeadfailShape(g: Rules, t: Tree, chase: nat)
    ensures Headfailx(g, t, chase) <==> forall w :: w in Ways(g, t, chase) ==> OneTest(w)
    decreases Rank(g, t), chase, t
  {
    match t
    case TSeq(p1, p2) =>
      HeadfailShape(g, p1, chase);
      if Headfailx(g, t, chase) {
        forall w | w in Ways(g, t, chase) ensures OneTest(w) {
          var v :| v in Ways(g, p1, chase) && w == Way(v.head, v.rest + [(g, p2)]);
          assert OneTest(v);
        }
      }
      if forall w :: w in Ways(g, t, chase) ==> OneTest(w) {
        forall v | v in Ways(g, p1, chase) ensures OneTest(v) && Nofail(g, p2) {
          var w := Way(v.head, v.rest + [(g, p2)]);
          assert w in Ways(g, t, chase);
          assert forall i :: 0 <= i < |v.rest| ==> v.rest[i] == w.rest[i];
          assert w.rest[|v.rest|] == (g, p2);
        }
        var v := SomeWay(g, p1, chase);
      }
    case TChoice(p1, p2) => HeadfailShape(g, p1, chase); HeadfailShape(g, p2, chase);
    case TCapture(_, _, p) => HeadfailShape(g, p, chase);
    case TAnd(p) => HeadfailShape(g, p, chase);
    case TCall(k) => if k < |g| && chase > 0 { HeadfailShape(g, g[k], chase - 1); } else { OneWay(g, t, chase); }
    case TGrammar(rules) => if rules != [] { HeadfailShape(rules, rules[0], CHASE); } else { OneWay(g, t, chase); }
    case _ => OneWay(g, t, chase);
  }

  lemma {:induction false} OneWay(g: Rules, t: Tree, chase: nat)
    requires Ways(g, t, chase) == iset{Way(t, [])}
    ensures (forall w :: w in Ways(g, t, chase) ==> OneTest(w)) <==> IsCharset(t) || t.TFalse?
  {
    assert OneTest(Way(t, [])) <==> IsCharset(t) || t.TFalse?;
    assert Way(t, []) in Ways(g, t, chase);
  }

  // ---------- Captures, and who needs a follow set ----------

  /** The parts of a pattern, rules of grammars in it included; calls are not followed. */
  ghost predicate PartOf(p: Tree, t: Tree)
    decreases t
  {
    p == t ||
    match t
    case TRep(q) => PartOf(p, q)
    case TSeq(q1, q2) => PartOf(p, q1) || PartOf(p, q2)
    case TChoice(q1, q2) => PartOf(p, q1) || PartOf(p, q2)
    case TNot(q) => PartOf(p, q)
    case TAnd(q) => PartOf(p, q)
    case TBehind(_, q) => PartOf(p, q)
    case TCapture(_, _, q) => PartOf(p, q)
    case TGrammar(rules) => exists k :: 0 <= k < |rules| && PartOf(p, rules[k])
    case _ => false
  }

  /** A pattern has captures exactly if one of its parts is one. */
  lemma {:induction false} CapturesExact(t: Tree)
    ensures HasCaptures(t) <==> exists p :: PartOf(p, t) && p.TCapture?
  {
    if HasCaptures(t) {
      var p := SomeCapture(t);
    }
    forall p | PartOf(p, t) && p.TCapture? ensures HasCaptures(t) {
      CaptureIn(p, t);
    }
  }

  lemma {:induction false} SomeCapture(t: Tree) returns (p: Tree)
    requires HasCaptures(t)
    ensures PartOf(p, t) && p.TCapture?
    decreases t
  {
    match t
    case TRep(q) => p := SomeCapture(q);
    case TSeq(q1, q2) => if HasCaptures(q1) { p := SomeCapture(q1); } else { p := SomeCapture(q2); }
    case TChoice(q1, q2) => if HasCaptures(q1) { p := SomeCapture(q1); } else { p := SomeCapture(q2); }
    case TNot(q) => p := SomeCapture(q);
    case TAnd(q) => p := SomeCapture(q);
    case TBehind(_, q) => p := SomeCapture(q);
    case TCapture(_, _, _) => p := t;
    case TGrammar(rules) =>
      var k :| 0 <= k < |rules| && HasCaptures(rules[k]);
      p := SomeCapture(rules[k]);
  }

  lemma {:induction false} CaptureIn(p: Tree, t: Tree)
    requires PartOf(p, t) && p.TCapture?
    ensures HasCaptures(t)
    decreases t
  {
    if p != t {
      match t
      case TRep(q) => CaptureIn(p, q);
      case TSeq(q1, q2) => if PartOf(p, q1) { CaptureIn(p, q1); } else { CaptureIn(p, q2); }
      case TChoice(q1, q2) => if PartOf(p, q1) { CaptureIn(p, q1); } else { CaptureIn(p, q2); }
      case TNot(q) => CaptureIn(p, q);
      case TAnd(q) => CaptureIn(p, q);
      case TBehind(_, q) => CaptureIn(p, q);
      case TGrammar(rules) =>
        var k :| 0 <= k < |rules| && PartOf(p, rules[k]);
        CaptureIn(p, rules[k]);
      case _ =>
    }
  }

  /** The last pattern of sequences and captures. */
  function LastOf(t: Tree): Tree
  {
    match t
    case TSeq(_, p2) => LastOf(p2)
    case TCapture(_, _, p) => LastOf(p)
    case _ => t
  }

  /** A follow set is asked for exactly by what ends in a choice or a repetition. */
  lemma {:induction false} NeedfollowExact(t: Tree)
    ensures Needfollow(t) <==> LastOf(t).TChoice? || LastOf(t).TRep?
    decreases t
  {
    match t
    case TSeq(_, p2) => NeedfollowExact(p2);
    case TCapture(_, _, p) => NeedfollowExact(p);
    case _ =>
  }
}
