/** What the static analyses promise about every match, on every subject. */
module LpegAnalysisSound {
  import opened LpegTree
  import opened LpegAnalysis

  /** A pattern that is not nullable never succeeds without consuming. */
  lemma {:induction false} NullableSound(fuel: nat, g: Rules, t: Tree, chase: nat, subj: Subject, s: nat)
    requires s <= |subj|
    requires !Checkaux(g, t, PEnullable, chase)
    ensures var r := Eval(fuel, g, t, subj, s); r.Match? ==> s < r.end
    decreases fuel, t
  {
    match t
    case TSeq(p1, p2) =>
      var r1 := Eval(fuel, g, p1, subj, s);
      if r1.Match? {
        if !Checkaux(g, p1, PEnullable, chase) {
          NullableSound(fuel, g, p1, chase, subj, s);
        } else {
          NullableSound(fuel, g, p2, chase, subj, r1.end);
        }
      }
    case TChoice(p1, p2) =>
      NullableSound(fuel, g, p1, chase, subj, s);
      NullableSound(fuel, g, p2, chase, subj, s);
    case TCapture(_, _, p) => NullableSound(fuel, g, p, chase, subj, s);
    case TCall(k) => if k < |g| && fuel > 0 { NullableSound(fuel - 1, g, g[k], chase - 1, subj, s); }
    case TGrammar(rules) => if rules != [] { NullableSound(fuel, rules, rules[0], CHASE, subj, s); }
    case _ =>
  }

  /** A nofail pattern never fails. */
  lemma {:induction false} NofailSound(fuel: nat, g: Rules, t: Tree, chase: nat, subj: Subject, s: nat)
    requires s <= |subj|
    requires Checkaux(g, t, PEnofail, chase)
    ensures !Eval(fuel, g, t, subj, s).NoMatch?
    decreases fuel, t
  {
    match t
    case TRep(p) =>
      var r := Eval(fuel, g, p, subj, s);
      if r.Match? && fuel > 0 {
        NofailSound(fuel - 1, g, t, chase, subj, r.end);
      }
    case TAnd(p) => NofailSound(fuel, g, p, chase, subj, s);
    case TSeq(p1, p2) =>
      NofailSound(fuel, g, p1, chase, subj, s);
      var r1 := Eval(fuel, g, p1, subj, s);
      if r1.Match? {
        NofailSound(fuel, g, p2, chase, subj, r1.end);
      }
    case TChoice(p1, p2) =>
      if Checkaux(g, p1, PEnofail, chase) {
        NofailSound(fuel, g, p1, chase, subj, s);
      } else {
        NofailSound(fuel, g, p2, chase, subj, s);
      }
    case TCapture(_, _, p) => NofailSound(fuel, g, p, chase, subj, s);
    case TCall(k) => if fuel > 0 { NofailSound(fuel - 1, g, g[k], chase - 1, subj, s); }
    case TGrammar(rules) => NofailSound(fuel, rules, rules[0], CHASE, subj, s);
    case _ =>
  }

  /** Every match of a pattern of fixed length takes exactly that many characters. */
  lemma {:induction false} FixedlenSound(fuel: nat, g: Rules, t: Tree, count: nat, len: nat, subj: Subject, s: nat)
    requires s <= |subj| && count <= MAXRULES
    requires Fixedlenx(g, t, count, len) >= 0
    ensures var r := Eval(fuel, g, t, subj, s);
            r.Match? ==> r.end - s == Fixedlenx(g, t, count, len) - len
    decreases fuel, t
  {
    match t
    case TSeq(p1, p2) =>
      FixedlenSound(fuel, g, p1, count, len, subj, s);
      var r1 := Eval(fuel, g, p1, subj, s);
      if r1.Match? {
        FixedlenSound(fuel, g, p2, count, Fixedlenx(g, p1, count, len), subj, r1.end);
      }
    case TChoice(p1, p2) =>
      FixedlenSound(fuel, g, p1, count, len, subj, s);
      FixedlenSound(fuel, g, p2, count, len, subj, s);
    case TCapture(_, _, p) => FixedlenSound(fuel, g, p, count, len, subj, s);
    case TCall(k) => if fuel > 0 { FixedlenSound(fuel - 1, g, g[k], count + 1, len, subj, s); }
    case TGrammar(rules) => FixedlenSound(fuel, rules, rules[0], count, len, subj, s);
    case _ =>
  }

  /** What a first set says about one match from `s` to `end`. */
  ghost predicate Announced(f: First, follow: Charset, subj: Subject, s: nat, end: nat)
    requires s <= end <= |subj|
  {
    && (s < end ==> subj[s] in f.cs)
    && (s == end && s < |subj| ==> subj[s] in f.cs || subj[s] !in follow)
    && (s == |subj| ==> f.e)
  }

  /** A match starts with a character of the first set, or is empty before one outside `follow`. */
  lemma {:induction false} FirstSound(fuel: nat, g: Rules, t: Tree, follow: Charset, chase: nat,
                                      subj: Subject, s: nat)
    requires s <= |subj|
    ensures var r := Eval(fuel, g, t, subj, s);
            r.Match? ==> Announced(Getfirst(g, t, follow, chase), follow, subj, s, r.end)
    decreases fuel, t
  {
    var r := Eval(fuel, g, t, subj, s);
    if !r.Match? { return; }
    match t
    case TSeq(p1, p2) =>
      var r1 := Eval(fuel, g, p1, subj, s);
      if !Checkaux(g, p1, PEnullable, chase) {
        NullableSound(fuel, g, p1, chase, subj, s);
        FirstSound(fuel, g, p1, FULLSET, chase, subj, s);
      } else {
        var f2 := Getfirst(g, p2, follow, chase);
        FirstSound(fuel, g, p1, f2.cs, chase, subj, s);
        FirstSound(fuel, g, p2, follow, chase, subj, r1.end);
      }
    case TChoice(p1, p2) =>
      FirstSound(fuel, g, p1, follow, chase, subj, s);
      FirstSound(fuel, g, p2, follow, chase, subj, s);
    case TRep(p) => FirstSound(fuel, g, p, follow, chase, subj, s);
      if Eval(fuel, g, p, subj, s).Match? && fuel > 0 {
        FirstSound(fuel - 1, g, t, follow, chase, subj, Eval(fuel, g, p, subj, s).end);
      }
    case TAnd(p) => FirstSound(fuel, g, p, follow, chase, subj, s);
    case TCapture(_, _, p) => FirstSound(fuel, g, p, follow, chase, subj, s);
    case TCall(k) => if chase > 0 { FirstSound(fuel - 1, g, g[k], follow, chase - 1, subj, s); }
    case TGrammar(rules) => FirstSound(fuel, rules, rules[0], follow, CHASE, subj, s);
    case _ =>
  }

  /** What cannot fail is nullable, however far calls are followed for the one and for the other. */
  lemma {:induction false} NofailIsNullable(g: Rules, t: Tree, chase: nat, other: nat)
    requires Checkaux(g, t, PEnofail, chase)
    ensures Checkaux(g, t, PEnullable, other)
    decreases Rank(g, t), chase, t
  {
    match t
    case TSeq(p1, p2) => NofailIsNullable(g, p1, chase, other); NofailIsNullable(g, p2, chase, other);
    case TChoice(p1, p2) =>
      if Checkaux(g, p1, PEnofail, chase) {
        NofailIsNullable(g, p1, chase, other);
      } else {
        NofailIsNullable(g, p2, chase, other);
      }
    case TCapture(_, _, p) => NofailIsNullable(g, p, chase, other);
    case TCall(k) => if other > 0 { NofailIsNullable(g, g[k], chase - 1, other - 1); }
    case TGrammar(rules) => NofailIsNullable(rules, rules[0], CHASE, CHASE);
    case _ =>
  }

  /** A pattern that cannot fail excludes no first character, nor the end of the subject. */
  lemma {:induction false} NofailFirst(g: Rules, t: Tree, chase: nat, other: nat)
    requires Checkaux(g, t, PEnofail, chase)
    ensures Getfirst(g, t, FULLSET, other) == First(FULLSET, true)
    decreases Rank(g, t), chase, t
  {
    match t
    case TRep(p) =>
    case TAnd(p) => NofailFirst(g, p, chase, other);
    case TSeq(p1, p2) =>
      NofailIsNullable(g, p1, chase, other);
      NofailFirst(g, p1, chase, other);
      NofailFirst(g, p2, chase, other);
    case TChoice(p1, p2) =>
      if Checkaux(g, p1, PEnofail, chase) {
        NofailFirst(g, p1, chase, other);
      } else {
        NofailFirst(g, p2, chase, other);
      }
    case TCapture(_, _, p) => NofailFirst(g, p, chase, other);
    case TCall(k) => if other > 0 { NofailFirst(g, g[k], chase - 1, other - 1); }
    case TGrammar(rules) => NofailFirst(rules, rules[0], CHASE, CHASE);
    case _ =>
  }

  /** A head-fail pattern never accepts the empty subject. */
  lemma {:induction false} HeadfailNotEmpty(g: Rules, t: Tree, follow: Charset, chase: nat)
    requires Headfailx(g, t, chase)
    ensures !Getfirst(g, t, follow, chase).e
    decreases Rank(g, t), chase, t
  {
    match t
    case TAnd(p) => HeadfailNotEmpty(g, p, follow, chase);
    case TSeq(p1, p2) =>
      HeadfailNotEmpty(g, p1, FULLSET, chase);
      HeadfailNotEmpty(g, p1, Getfirst(g, p2, follow, chase).cs, chase);
    case TChoice(p1, p2) =>
      HeadfailNotEmpty(g, p1, follow, chase);
      HeadfailNotEmpty(g, p2, follow, chase);
    case TCapture(_, _, p) => HeadfailNotEmpty(g, p, follow, chase);
    case TCall(k) => HeadfailNotEmpty(g, g[k], follow, chase - 1);
    case TGrammar(rules) => HeadfailNotEmpty(rules, rules[0], follow, CHASE);
    case _ =>
  }

  /** Whether a head-fail pattern matches depends on the next character alone. */
  lemma {:induction false} HeadfailExact(fuel: nat, g: Rules, t: Tree, chase: nat, subj: Subject, s: nat)
    requires s <= |subj|
    requires Headfailx(g, t, chase)
    requires !Eval(fuel, g, t, subj, s).Running?
    ensures Eval(fuel, g, t, subj, s).Match? <==>
            s < |subj| && subj[s] in Getfirst(g, t, FULLSET, chase).cs
    decreases fuel, t
  {
    match t
    case TAnd(p) => HeadfailExact(fuel, g, p, chase, subj, s);
    case TSeq(p1, p2) =>
      NofailFirst(g, p2, CHASE, chase);
      HeadfailExact(fuel, g, p1, chase, subj, s);
      var r1 := Eval(fuel, g, p1, subj, s);
      if r1.Match? {
        NofailSound(fuel, g, p2, CHASE, subj, r1.end);
      }
    case TChoice(p1, p2) =>
      HeadfailExact(fuel, g, p1, chase, subj, s);
      if Eval(fuel, g, p1, subj, s).NoMatch? {
        HeadfailExact(fuel, g, p2, chase, subj, s);
      }
    case TCapture(_, _, p) => HeadfailExact(fuel, g, p, chase, subj, s);
    case TCall(k) => HeadfailExact(fuel - 1, g, g[k], chase - 1, subj, s);
    case TGrammar(rules) => HeadfailExact(fuel, rules, rules[0], CHASE, subj, s);
    case _ =>
  }
}
