/**
 * What the code of a pattern does, as a function of the pattern. It differs from LpegCoded.Coded where
 * an optional pattern or a repetition ends the body of a loop that is coded with a test alone and
 * stands under a choice: what would go on with the next round leaves the loop through that choice.
 */
module LpegActual {
  import opened LpegTree
  import opened LpegAnalysis
  import opened LpegAnalysisSound
  import opened LpegMachine
  import opened LpegCode
  import opened LpegPremise
  import opened LpegCoded

  /** `left` says that control leaves through the choice on top, at `end`, instead of going on. */
  datatype Course = Passes(end: nat, caps: seq<CapTree>, left: bool) | Fails | Going

  /** Does the test in front of the loop fail? */
  predicate Skips(g: Rules, p: Tree, subj: Subject, s: nat)
  {
    var f := FirstOf(g, p, FULLSET);
    !f.e && !AtChar(subj, s, f.cs)
  }

  /** Does a repetition of `p` pass `opt` on to its body? */
  predicate PassesOn(g: Rules, p: Tree, opt: bool, fl: Charset) { opt && !IsCharset(p) && LoopByTest(g, p, fl) }

  /** Does a repetition of `p` renew the choice on top, and end through it? */
  predicate Renews(g: Rules, p: Tree, opt: bool, fl: Charset) { opt && !IsCharset(p) && !LoopByTest(g, p, fl) }

  /** The course of the code that Gen gives for `t`, `opt` and `fl`. */
  function Act(fuel: nat, g: Rules, t: Tree, opt: bool, fl: Charset, subj: Subject, s: nat): (r: Course)
    requires s <= |subj|
    ensures r.Passes? ==> s <= r.end <= |subj| && (r.left ==> opt)
    decreases fuel, t
  {
    match t
    case TChar(_) => ActSet(ToCharset(t), subj, s)
    case TSet(_) => ActSet(ToCharset(t), subj, s)
    case TAny => ActSet(ToCharset(t), subj, s)
    case TTrue => Passes(s, [], false)
    case TFalse => Fails
    case TRep(p) =>
      (match Act(fuel, g, p, PassesOn(g, p, opt, fl), FULLSET, subj, s)
       case Going => Going
       case Fails => Passes(s, [], Renews(g, p, opt, fl) && !Skips(g, p, subj, s))
       case Passes(s1, c1, left) =>
         if left then Passes(s1, c1, true)
         else if fuel == 0 then Going
         else
           match Act(fuel - 1, g, t, opt, fl, subj, s1)
           case Passes(s2, c2, l2) => Passes(s2, c1 + c2, l2 || Renews(g, p, opt, fl))
           case other => other)
    case TSeq(p1, p2) =>
      (match Act(fuel, g, p1, false, FollowOf(g, p1, p2, fl), subj, s)
       case Passes(s1, c1, _) =>
         (match Act(fuel, g, p2, opt, fl, subj, s1)
          case Passes(s2, c2, l2) => Passes(s2, c1 + c2, l2)
          case other => other)
       case other => other)
    case TChoice(p1, p2) =>
      if ChoiceByTest(g, p1, p2, fl) then
        (match Act(fuel, g, p1, false, fl, subj, s)
         case Fails => Act(fuel, g, p2, opt, fl, subj, s)
         case other => other)
      else if opt && p2.TTrue? then
        (match Act(fuel, g, p1, true, FULLSET, subj, s)
         case Fails => Passes(s, [], true)
         case other => other)
      else
        (match Act(fuel, g, p1, p2.TTrue?, FULLSET, subj, s)
         case Fails => Act(fuel, g, p2, opt, fl, subj, s)
         case Passes(s1, c1, _) => Passes(s1, c1, false)
         case Going => Going)
    case TNot(p) =>
      (match Act(fuel, g, p, false, FULLSET, subj, s)
       case Passes(_, _, _) => Fails
       case Fails => Passes(s, [], false)
       case Going => Going)
    case TAnd(p) =>
      (match Act(fuel, g, p, false, FULLSET, subj, s)
       case Passes(_, c, _) => Passes(s, if AndByBehind(g, p) then c else [], false)
       case other => other)
    case TBehind(n, p) =>
      if n > s then Fails
      else
        (match Act(fuel, g, p, false, FULLSET, subj, s - n)
         case Passes(_, c, _) => Passes(s, c, false)
         case other => other)
    case TCapture(kind, key, p) =>
      (match Act(fuel, g, p, false, fl, subj, s)
       case Passes(s1, c1, _) =>
         Passes(s1, if CaptureFull(g, p) then c1 + [CapTree(kind, key, s, s1, [])] else [CapTree(kind, key, s, s1, c1)], false)
       case other => other)
    case TCall(k) =>
      if k >= |g| then Fails
      else if fuel == 0 then Going
      else Act(fuel - 1, g, g[k], false, FULLSET, subj, s)
    case TGrammar(rules) =>
      if rules == [] then Fails else Act(fuel, rules, rules[0], false, FULLSET, subj, s)
  }

  function ActSet(cs: Charset, subj: Subject, s: nat): (r: Course)
    requires s <= |subj|
    ensures r.Passes? ==> s < r.end <= |subj| && !r.left
  {
    if s < |subj| && subj[s] in cs then Passes(s + 1, [], false) else Fails
  }

  lemma {:induction false} ActMoreFuel(fuel: nat, more: nat, g: Rules, t: Tree, opt: bool, fl: Charset, subj: Subject, s: nat)
    requires s <= |subj| && fuel <= more
    requires !Act(fuel, g, t, opt, fl, subj, s).Going?
    ensures Act(more, g, t, opt, fl, subj, s) == Act(fuel, g, t, opt, fl, subj, s)
    decreases fuel, t
  {
    hide ChoiceByTest, LoopByTest, FollowOf, AndByBehind, CaptureFull, Skips;
    match t
    case TRep(p) =>
      var inner := PassesOn(g, p, opt, fl);
      ActMoreFuel(fuel, more, g, p, inner, FULLSET, subj, s);
      var r := Act(fuel, g, p, inner, FULLSET, subj, s);
      if r.Passes? && !r.left {
        ActMoreFuel(fuel - 1, more - 1, g, t, opt, fl, subj, r.end);
      }
    case TSeq(p1, p2) =>
      var fl1 := FollowOf(g, p1, p2, fl);
      ActMoreFuel(fuel, more, g, p1, false, fl1, subj, s);
      var r := Act(fuel, g, p1, false, fl1, subj, s);
      if r.Passes? {
        ActMoreFuel(fuel, more, g, p2, opt, fl, subj, r.end);
      }
    case TChoice(p1, p2) =>
      var byTest := ChoiceByTest(g, p1, p2, fl);
      var opt1, fl1 := !byTest && p2.TTrue?, if byTest then fl else FULLSET;
      ActMoreFuel(fuel, more, g, p1, opt1, fl1, subj, s);
      if Act(fuel, g, p1, opt1, fl1, subj, s).Fails? && (byTest || !(opt && p2.TTrue?)) {
        ActMoreFuel(fuel, more, g, p2, opt, fl, subj, s);
      }
    case TNot(p) => ActMoreFuel(fuel, more, g, p, false, FULLSET, subj, s);
    case TAnd(p) => ActMoreFuel(fuel, more, g, p, false, FULLSET, subj, s);
    case TBehind(n, p) => if n <= s { ActMoreFuel(fuel, more, g, p, false, FULLSET, subj, s - n); }
    case TCapture(_, _, p) => ActMoreFuel(fuel, more, g, p, false, fl, subj, s);
    case TCall(k) => if k < |g| { ActMoreFuel(fuel - 1, more - 1, g, g[k], false, FULLSET, subj, s); }
    case TGrammar(rules) => if rules != [] { ActMoreFuel(fuel, more, rules, rules[0], false, FULLSET, subj, s); }
    case _ =>
  }

  // ---------- What the static analyses promise about the code ----------

  /** How the parts of a choice are coded. */
  function OptOf(g: Rules, p1: Tree, p2: Tree, fl: Charset): bool { !ChoiceByTest(g, p1, p2, fl) && p2.TTrue? }

  function FlOf(g: Rules, p1: Tree, p2: Tree, fl: Charset): Charset { if ChoiceByTest(g, p1, p2, fl) then fl else FULLSET }

  /** One level of Act on a choice. */
  lemma ActChoice(fuel: nat, g: Rules, p1: Tree, p2: Tree, opt: bool, fl: Charset, subj: Subject, s: nat)
    requires s <= |subj|
    ensures var r1 := Act(fuel, g, p1, OptOf(g, p1, p2, fl), FlOf(g, p1, p2, fl), subj, s);
            var r2 := Act(fuel, g, p2, opt, fl, subj, s);
            var r := Act(fuel, g, TChoice(p1, p2), opt, fl, subj, s);
            && (r1.Going? ==> r.Going?)
            && (r1.Passes? ==> r.Passes? && r.end == r1.end && r.caps == r1.caps)
            && (r1.Fails? && !p2.TTrue? ==> r == r2)
            && (r1.Fails? && p2.TTrue? ==> r.Passes? && r.end == s && r.caps == [])
  {
    hide ChoiceByTest;
  }

  lemma {:induction false} ActNullable(fuel: nat, g: Rules, t: Tree, opt: bool, fl: Charset, chase: nat,
                                       subj: Subject, s: nat)
    requires s <= |subj| && !Checkaux(g, t, PEnullable, chase)
    ensures var r := Act(fuel, g, t, opt, fl, subj, s); r.Passes? ==> s < r.end
    decreases fuel, t
  {
    hide ChoiceByTest, LoopByTest, FollowOf, AndByBehind, CaptureFull, Skips;
    match t
    case TSeq(p1, p2) =>
      var fl1 := FollowOf(g, p1, p2, fl);
      var r1 := Act(fuel, g, p1, false, fl1, subj, s);
      if r1.Passes? {
        if !Checkaux(g, p1, PEnullable, chase) {
          ActNullable(fuel, g, p1, false, fl1, chase, subj, s);
        } else {
          ActNullable(fuel, g, p2, opt, fl, chase, subj, r1.end);
        }
      }
    case TChoice(p1, p2) =>
      ActChoice(fuel, g, p1, p2, opt, fl, subj, s);
      ActNullable(fuel, g, p1, OptOf(g, p1, p2, fl), FlOf(g, p1, p2, fl), chase, subj, s);
      ActNullable(fuel, g, p2, opt, fl, chase, subj, s);
    case TCapture(_, _, p) => ActNullable(fuel, g, p, false, fl, chase, subj, s);
    case TCall(k) => if k < |g| && fuel > 0 { ActNullable(fuel - 1, g, g[k], false, FULLSET, chase - 1, subj, s); }
    case TGrammar(rules) => if rules != [] { ActNullable(fuel, rules, rules[0], false, FULLSET, CHASE, subj, s); }
    case _ =>
  }

  lemma {:induction false} ActNofail(fuel: nat, g: Rules, t: Tree, opt: bool, fl: Charset, chase: nat,
                                     subj: Subject, s: nat)
    requires s <= |subj| && Checkaux(g, t, PEnofail, chase)
    ensures !Act(fuel, g, t, opt, fl, subj, s).Fails?
    decreases fuel, t
  {
    hide ChoiceByTest, LoopByTest, FollowOf, AndByBehind, CaptureFull, Skips;
    match t
    case TRep(p) =>
      var r := Act(fuel, g, p, PassesOn(g, p, opt, fl), FULLSET, subj, s);
      if r.Passes? && fuel > 0 {
        ActNofail(fuel - 1, g, t, opt, fl, chase, subj, r.end);
      }
    case TAnd(p) => ActNofail(fuel, g, p, false, FULLSET, chase, subj, s);
    case TSeq(p1, p2) =>
      var fl1 := FollowOf(g, p1, p2, fl);
      ActNofail(fuel, g, p1, false, fl1, chase, subj, s);
      var r1 := Act(fuel, g, p1, false, fl1, subj, s);
      if r1.Passes? {
        ActNofail(fuel, g, p2, opt, fl, chase, subj, r1.end);
      }
    case TChoice(p1, p2) =>
      ActChoice(fuel, g, p1, p2, opt, fl, subj, s);
      if Checkaux(g, p1, PEnofail, chase) {
        ActNofail(fuel, g, p1, OptOf(g, p1, p2, fl), FlOf(g, p1, p2, fl), chase, subj, s);
      } else {
        ActNofail(fuel, g, p2, opt, fl, chase, subj, s);
      }
    case TCapture(_, _, p) => ActNofail(fuel, g, p, false, fl, chase, subj, s);
    case TCall(k) => if fuel > 0 { ActNofail(fuel - 1, g, g[k], false, FULLSET, chase - 1, subj, s); }
    case TGrammar(rules) => ActNofail(fuel, rules, rules[0], false, FULLSET, CHASE, subj, s);
    case _ =>
  }

  lemma {:induction false} ActFixedlen(fuel: nat, g: Rules, t: Tree, opt: bool, fl: Charset, count: nat, len: nat,
                                       subj: Subject, s: nat)
    requires s <= |subj| && count <= MAXRULES && Fixedlenx(g, t, count, len) >= 0
    ensures var r := Act(fuel, g, t, opt, fl, subj, s);
            r.Passes? ==> r.end - s == Fixedlenx(g, t, count, len) - len
    decreases fuel, t
  {
    hide ChoiceByTest, LoopByTest, FollowOf, AndByBehind, CaptureFull, Skips;
    match t
    case TSeq(p1, p2) =>
      var fl1 := FollowOf(g, p1, p2, fl);
      ActFixedlen(fuel, g, p1, false, fl1, count, len, subj, s);
      var r1 := Act(fuel, g, p1, false, fl1, subj, s);
      if r1.Passes? {
        ActFixedlen(fuel, g, p2, opt, fl, count, Fixedlenx(g, p1, count, len), subj, r1.end);
      }
    case TChoice(p1, p2) =>
      ActChoice(fuel, g, p1, p2, opt, fl, subj, s);
      ActFixedlen(fuel, g, p1, OptOf(g, p1, p2, fl), FlOf(g, p1, p2, fl), count, len, subj, s);
      ActFixedlen(fuel, g, p2, opt, fl, count, len, subj, s);
    case TCapture(_, _, p) => ActFixedlen(fuel, g, p, false, fl, count, len, subj, s);
    case TCall(k) => if fuel > 0 { ActFixedlen(fuel - 1, g, g[k], false, FULLSET, count + 1, len, subj, s); }
    case TGrammar(rules) => ActFixedlen(fuel, rules, rules[0], false, FULLSET, count, len, subj, s);
    case _ =>
  }

  lemma {:induction false} ActFirst(fuel: nat, g: Rules, t: Tree, opt: bool, fl: Charset, follow: Charset, chase: nat,
                                    subj: Subject, s: nat)
    requires s <= |subj|
    ensures var r := Act(fuel, g, t, opt, fl, subj, s);
            r.Passes? ==> Announced(Getfirst(g, t, follow, chase), follow, subj, s, r.end)
    decreases fuel, t
  {
    hide ChoiceByTest, LoopByTest, FollowOf, AndByBehind, CaptureFull, Skips;
    var r := Act(fuel, g, t, opt, fl, subj, s);
    if !r.Passes? { return; }
    match t
    case TSeq(p1, p2) =>
      var fl1 := FollowOf(g, p1, p2, fl);
      var r1 := Act(fuel, g, p1, false, fl1, subj, s);
      if !Checkaux(g, p1, PEnullable, chase) {
        ActNullable(fuel, g, p1, false, fl1, chase, subj, s);
        ActFirst(fuel, g, p1, false, fl1, FULLSET, chase, subj, s);
      } else {
        ActFirst(fuel, g, p1, false, fl1, Getfirst(g, p2, follow, chase).cs, chase, subj, s);
        ActFirst(fuel, g, p2, opt, fl, follow, chase, subj, r1.end);
      }
    case TChoice(p1, p2) =>
      ActChoice(fuel, g, p1, p2, opt, fl, subj, s);
      ActFirst(fuel, g, p1, OptOf(g, p1, p2, fl), FlOf(g, p1, p2, fl), follow, chase, subj, s);
      ActFirst(fuel, g, p2, opt, fl, follow, chase, subj, s);
    case TRep(p) =>
      var inner := PassesOn(g, p, opt, fl);
      ActFirst(fuel, g, p, inner, FULLSET, follow, chase, subj, s);
      var r1 := Act(fuel, g, p, inner, FULLSET, subj, s);
      if r1.Passes? && !r1.left && fuel > 0 {
        ActFirst(fuel - 1, g, t, opt, fl, follow, chase, subj, r1.end);
      }
    case TAnd(p) => ActFirst(fuel, g, p, false, FULLSET, follow, chase, subj, s);
    case TCapture(_, _, p) => ActFirst(fuel, g, p, false, fl, follow, chase, subj, s);
    case TCall(k) => if chase > 0 { ActFirst(fuel - 1, g, g[k], false, FULLSET, follow, chase - 1, subj, s); }
    case TGrammar(rules) => ActFirst(fuel, rules, rules[0], false, FULLSET, follow, CHASE, subj, s);
    case _ =>
  }

  lemma {:induction false} ActHeadfail(fuel: nat, g: Rules, t: Tree, opt: bool, fl: Charset, chase: nat,
                                       subj: Subject, s: nat)
    requires s <= |subj| && Headfailx(g, t, chase) && !Act(fuel, g, t, opt, fl, subj, s).Going?
    ensures Act(fuel, g, t, opt, fl, subj, s).Passes? <==> AtChar(subj, s, Getfirst(g, t, FULLSET, chase).cs)
    decreases fuel, t
  {
    hide ChoiceByTest, LoopByTest, FollowOf, AndByBehind, CaptureFull, Skips;
    match t
    case TAnd(p) => ActHeadfail(fuel, g, p, false, FULLSET, chase, subj, s);
    case TSeq(p1, p2) =>
      var fl1 := FollowOf(g, p1, p2, fl);
      NofailFirst(g, p2, CHASE, chase);
      ActHeadfail(fuel, g, p1, false, fl1, chase, subj, s);
      var r1 := Act(fuel, g, p1, false, fl1, subj, s);
      if r1.Passes? {
        ActNofail(fuel, g, p2, opt, fl, CHASE, subj, r1.end);
      }
    case TChoice(p1, p2) =>
      ActChoice(fuel, g, p1, p2, opt, fl, subj, s);
      ActHeadfail(fuel, g, p1, OptOf(g, p1, p2, fl), FlOf(g, p1, p2, fl), chase, subj, s);
      if Act(fuel, g, p1, OptOf(g, p1, p2, fl), FlOf(g, p1, p2, fl), subj, s).Fails? {
        ActHeadfail(fuel, g, p2, opt, fl, chase, subj, s);
      }
    case TCapture(_, _, p) => ActHeadfail(fuel, g, p, false, fl, chase, subj, s);
    case TCall(k) => ActHeadfail(fuel - 1, g, g[k], false, FULLSET, chase - 1, subj, s);
    case TGrammar(rules) => ActHeadfail(fuel, rules, rules[0], false, FULLSET, CHASE, subj, s);
    case _ =>
  }

  // ---------- When the code does what the pattern means ----------

  /** The same match, or none. */
  predicate Same(a: Course, r: Outcome)
  {
    (a.Passes? <==> r.Match?) && (a.Passes? ==> a.end == r.end && a.caps == r.caps)
  }

  ghost predicate RulesTailsSafe(g: Rules) { forall k :: 0 <= k < |g| ==> TailsSafe(g, g[k], false, FULLSET) }

  /** A pattern whose code does not depend on `opt` does the same, and so does not leave. */
  lemma {:induction false} NoTailSame(fuel: nat, g: Rules, t: Tree, fl: Charset, subj: Subject, s: nat)
    requires s <= |subj| && !OptTail(g, t, fl)
    ensures Act(fuel, g, t, true, fl, subj, s) == Act(fuel, g, t, false, fl, subj, s)
    decreases fuel, t
  {
    hide ChoiceByTest, LoopByTest, FollowOf, AndByBehind, CaptureFull, Skips;
    match t
    case TSeq(p1, p2) =>
      var r1 := Act(fuel, g, p1, false, FollowOf(g, p1, p2, fl), subj, s);
      if r1.Passes? {
        NoTailSame(fuel, g, p2, fl, subj, r1.end);
      }
    case TChoice(p1, p2) => NoTailSame(fuel, g, p2, fl, subj, s);
    case TRep(p) =>
      if !IsCharset(p) {
        NoTailSame(fuel, g, p, FULLSET, subj, s);
      }
      var r1 := Act(fuel, g, p, false, FULLSET, subj, s);
      if r1.Passes? && fuel > 0 {
        NoTailSame(fuel - 1, g, t, fl, subj, r1.end);
      }
    case _ =>
  }

  /**
   * Wherever a loop is left through the choice above it in the course of the match, its test would have
   * ended it there.
   */
  predicate Stays(fuel: nat, g: Rules, t: Tree, opt: bool, fl: Charset, subj: Subject, s: nat)
    requires s <= |subj|
    decreases fuel, t
  {
    match t
    case TRep(p) =>
      var inner := PassesOn(g, p, opt, fl);
      var r := Act(fuel, g, p, inner, FULLSET, subj, s);
      && Stays(fuel, g, p, inner, FULLSET, subj, s)
      && (r.Passes? && r.left ==> !AtChar(subj, r.end, FirstOf(g, p, FULLSET).cs))
      && (r.Passes? && !r.left && fuel > 0 ==> Stays(fuel - 1, g, t, opt, fl, subj, r.end))
    case TSeq(p1, p2) =>
      var fl1 := FollowOf(g, p1, p2, fl);
      var r := Act(fuel, g, p1, false, fl1, subj, s);
      Stays(fuel, g, p1, false, fl1, subj, s) && (r.Passes? ==> Stays(fuel, g, p2, opt, fl, subj, r.end))
    case TChoice(p1, p2) =>
      var opt1, fl1 := OptOf(g, p1, p2, fl), FlOf(g, p1, p2, fl);
      && Stays(fuel, g, p1, opt1, fl1, subj, s)
      && (Act(fuel, g, p1, opt1, fl1, subj, s).Fails? ==> Stays(fuel, g, p2, opt, fl, subj, s))
    case TNot(p) => Headfail(g, p) || Stays(fuel, g, p, false, FULLSET, subj, s)
    case TAnd(p) => Stays(fuel, g, p, false, FULLSET, subj, s)
    case TBehind(n, p) => n <= s ==> Stays(fuel, g, p, false, FULLSET, subj, s - n)
    case TCapture(_, _, p) => Stays(fuel, g, p, false, fl, subj, s)
    case TCall(k) => k < |g| && fuel > 0 ==> Stays(fuel - 1, g, g[k], false, FULLSET, subj, s)
    case TGrammar(rules) => rules != [] ==> Stays(fuel, rules, rules[0], false, FULLSET, subj, s)
    case _ => true
  }

  /** Then the code records what the pattern means. */
  lemma {:induction false} StaysAgree(fuel: nat, g: Rules, t: Tree, opt: bool, fl: Charset, subj: Subject, s: nat)
    requires s <= |subj| && Stays(fuel, g, t, opt, fl, subj, s)
    requires !Act(fuel, g, t, opt, fl, subj, s).Going? && !Coded(fuel, g, t, subj, s).Running?
    ensures Same(Act(fuel, g, t, opt, fl, subj, s), Coded(fuel, g, t, subj, s))
    decreases fuel, t
  {
    hide ChoiceByTest, LoopByTest, FollowOf, AndByBehind, CaptureFull, Skips, Headfail, FirstOf;
    match t
    case TRep(p) =>
      var inner := PassesOn(g, p, opt, fl);
      StaysAgree(fuel, g, p, inner, FULLSET, subj, s);
      var r1 := Act(fuel, g, p, inner, FULLSET, subj, s);
      if r1.Passes? && r1.left {
        LoopOver(fuel - 1, g, p, fl, subj, r1.end);
        assert r1.caps + [] == r1.caps;
      } else if r1.Passes? {
        StaysAgree(fuel - 1, g, t, opt, fl, subj, r1.end);
      }
    case TSeq(p1, p2) =>
      StaysAgree(fuel, g, p1, false, FollowOf(g, p1, p2, fl), subj, s);
      var r1 := Coded(fuel, g, p1, subj, s);
      if r1.Match? {
        StaysAgree(fuel, g, p2, opt, fl, subj, r1.end);
      }
    case TChoice(p1, p2) =>
      ActChoice(fuel, g, p1, p2, opt, fl, subj, s);
      StaysAgree(fuel, g, p1, OptOf(g, p1, p2, fl), FlOf(g, p1, p2, fl), subj, s);
      if Coded(fuel, g, p1, subj, s).NoMatch? && !p2.TTrue? {
        StaysAgree(fuel, g, p2, opt, fl, subj, s);
      }
    case TNot(p) =>
      if Headfail(g, p) {
        NotAgrees(fuel, g, p, subj, s);
      } else {
        StaysAgree(fuel, g, p, false, FULLSET, subj, s);
      }
    case TAnd(p) => StaysAgree(fuel, g, p, false, FULLSET, subj, s);
    case TBehind(n, p) => if n <= s { StaysAgree(fuel, g, p, false, FULLSET, subj, s - n); }
    case TCapture(_, _, p) => StaysAgree(fuel, g, p, false, fl, subj, s);
    case TCall(k) => if k < |g| { StaysAgree(fuel - 1, g, g[k], false, FULLSET, subj, s); }
    case TGrammar(rules) => if rules != [] { StaysAgree(fuel, rules, rules[0], false, FULLSET, subj, s); }
    case _ =>
  }

  /** A loop coded with a test makes no round where the test fails. */
  lemma LoopOver(fuel: nat, g: Rules, p: Tree, fl: Charset, subj: Subject, s: nat)
    requires s <= |subj| && LoopByTest(g, p, fl) && !AtChar(subj, s, FirstOf(g, p, FULLSET).cs)
    requires !Coded(fuel, g, TRep(p), subj, s).Running?
    ensures Coded(fuel, g, TRep(p), subj, s) == Match(s, [])
  {
    if Headfail(g, p) {
      HeadfailNotEmpty(g, p, FULLSET, CHASE);
    }
    SameEnd(fuel, g, p, subj, s);
    FirstSound(fuel, g, p, FULLSET, CHASE, subj, s);
  }

  /** Where no loop can be left through a choice above it, none is. */
  lemma {:induction false} TailsStay(fuel: nat, g: Rules, t: Tree, opt: bool, fl: Charset, subj: Subject, s: nat)
    requires s <= |subj| && TailsSafe(g, t, opt, fl) && RulesTailsSafe(g)
    ensures Stays(fuel, g, t, opt, fl, subj, s)
    decreases fuel, t
  {
    hide ChoiceByTest, LoopByTest, FollowOf, AndByBehind, CaptureFull, Skips, OptTail, Headfail, FirstOf, TailsSafe;
    match t
    case TRep(p) =>
      SafeRep(g, p, opt, fl);
      var inner := PassesOn(g, p, opt, fl);
      if inner {
        NoTailSame(fuel, g, p, FULLSET, subj, s);
        StaysAlike(fuel, g, p, FULLSET, subj, s);
      }
      TailsStay(fuel, g, p, false, FULLSET, subj, s);
      var r := Act(fuel, g, p, inner, FULLSET, subj, s);
      if r.Passes? && !r.left && fuel > 0 {
        TailsStay(fuel - 1, g, t, opt, fl, subj, r.end);
      }
    case TSeq(p1, p2) =>
      var fl1 := FollowOf(g, p1, p2, fl);
      SafeSeq(g, p1, p2, opt, fl);
      TailsStay(fuel, g, p1, false, fl1, subj, s);
      var r := Act(fuel, g, p1, false, fl1, subj, s);
      if r.Passes? {
        TailsStay(fuel, g, p2, opt, fl, subj, r.end);
      }
    case TChoice(p1, p2) =>
      SafeChoice(g, p1, p2, opt, fl);
      TailsStay(fuel, g, p1, OptOf(g, p1, p2, fl), FlOf(g, p1, p2, fl), subj, s);
      TailsStay(fuel, g, p2, opt, fl, subj, s);
    case TNot(p) =>
      SafeBody(g, t, opt, fl);
      if !Headfail(g, p) {
        TailsStay(fuel, g, p, false, FULLSET, subj, s);
      }
    case TAnd(p) => SafeBody(g, t, opt, fl); TailsStay(fuel, g, p, false, FULLSET, subj, s);
    case TBehind(n, p) => SafeBody(g, t, opt, fl); if n <= s { TailsStay(fuel, g, p, false, FULLSET, subj, s - n); }
    case TCapture(_, _, p) => SafeBody(g, t, opt, fl); TailsStay(fuel, g, p, false, fl, subj, s);
    case TCall(k) => if k < |g| && fuel > 0 { TailsStay(fuel - 1, g, g[k], false, FULLSET, subj, s); }
    case TGrammar(rules) =>
      SafeBody(g, t, opt, fl);
      if rules != [] { TailsStay(fuel, rules, rules[0], false, FULLSET, subj, s); }
    case _ =>
  }

  lemma SafeRep(g: Rules, p: Tree, opt: bool, fl: Charset)
    requires TailsSafe(g, TRep(p), opt, fl)
    ensures TailsSafe(g, p, false, FULLSET) && (PassesOn(g, p, opt, fl) ==> !OptTail(g, p, FULLSET))
  {
    hide LoopByTest, OptTail;
  }

  lemma SafeSeq(g: Rules, p1: Tree, p2: Tree, opt: bool, fl: Charset)
    requires TailsSafe(g, TSeq(p1, p2), opt, fl)
    ensures TailsSafe(g, p1, false, FollowOf(g, p1, p2, fl)) && TailsSafe(g, p2, opt, fl)
  {
    hide FollowOf;
  }

  lemma SafeChoice(g: Rules, p1: Tree, p2: Tree, opt: bool, fl: Charset)
    requires TailsSafe(g, TChoice(p1, p2), opt, fl)
    ensures TailsSafe(g, p1, OptOf(g, p1, p2, fl), FlOf(g, p1, p2, fl)) && TailsSafe(g, p2, opt, fl)
  {
    hide ChoiceByTest;
  }

  lemma SafeBody(g: Rules, t: Tree, opt: bool, fl: Charset)
    requires TailsSafe(g, t, opt, fl)
    ensures t.TNot? ==> Headfail(g, t.body) || TailsSafe(g, t.body, false, FULLSET)
    ensures t.TAnd? || t.TBehind? ==> TailsSafe(g, t.body, false, FULLSET)
    ensures t.TCapture? ==> TailsSafe(g, t.body, false, fl)
    ensures t.TGrammar? ==> RulesTailsSafe(t.rules)
  {
    hide Headfail;
  }

  /** Where the code does not depend on `opt`, neither does this. */
  lemma {:induction false} StaysAlike(fuel: nat, g: Rules, t: Tree, fl: Charset, subj: Subject, s: nat)
    requires s <= |subj| && !OptTail(g, t, fl)
    ensures Stays(fuel, g, t, true, fl, subj, s) == Stays(fuel, g, t, false, fl, subj, s)
    decreases fuel, t
  {
    hide ChoiceByTest, LoopByTest, FollowOf, AndByBehind, CaptureFull, Skips, FirstOf, Headfail, Act;
    match t
    case TSeq(p1, p2) =>
      var r1 := Act(fuel, g, p1, false, FollowOf(g, p1, p2, fl), subj, s);
      if r1.Passes? {
        StaysAlike(fuel, g, p2, fl, subj, r1.end);
      }
    case TChoice(p1, p2) => StaysAlike(fuel, g, p2, fl, subj, s);
    case TRep(p) =>
      if !IsCharset(p) {
        NoTailSame(fuel, g, p, FULLSET, subj, s);
        StaysAlike(fuel, g, p, FULLSET, subj, s);
      }
      var r1 := Act(fuel, g, p, false, FULLSET, subj, s);
      if r1.Passes? && fuel > 0 {
        StaysAlike(fuel - 1, g, t, fl, subj, r1.end);
      }
    case _ =>
  }

  /** The code of the body of a loop does what the body means. */
  ghost predicate BodyAgrees(g: Rules, p: Tree, subj: Subject)
  {
    forall fuel: nat, s: nat ::
      s <= |subj| && !Act(fuel, g, p, true, FULLSET, subj, s).Going? && !Coded(fuel, g, p, subj, s).Running? ==>
        Same(Act(fuel, g, p, true, FULLSET, subj, s), Coded(fuel, g, p, subj, s))
  }

  /** A loop that is left through the choice above it does what it means if and only if its test fails there. */
  lemma {:induction false} LeaveExact(fuel: nat, g: Rules, p: Tree, subj: Subject, s: nat)
    requires s <= |subj| && BodyAgrees(g, p, subj) && !IsCharset(p) && Headfail(g, p) && !Nullable(g, p)
    requires var r := Act(fuel, g, TRep(p), true, FULLSET, subj, s); r.Passes? && r.left
    requires !Coded(fuel, g, TRep(p), subj, s).Running?
    ensures var r := Act(fuel, g, TRep(p), true, FULLSET, subj, s);
            Same(r, Coded(fuel, g, TRep(p), subj, s)) <==> !AtChar(subj, r.end, FirstOf(g, p, FULLSET).cs)
    decreases fuel
  {
    hide Checkaux, Headfailx, Getfirst, BodyAgrees;
    var t := TRep(p);
    var r1, c1 := Act(fuel, g, p, true, FULLSET, subj, s), Coded(fuel, g, p, subj, s);
    BodySame(fuel, g, p, subj, s);
    assert r1.Passes? && c1.Match? && c1.end == r1.end && c1.caps == r1.caps;
    var c2 := Coded(fuel - 1, g, t, subj, r1.end);
    if r1.left {
      if AtChar(subj, r1.end, FirstOf(g, p, FULLSET).cs) {
        SameEnd(fuel - 1, g, p, subj, r1.end);
        HeadfailExact(fuel - 1, g, p, CHASE, subj, r1.end);
        NullableSound(fuel - 1, g, p, CHASE, subj, r1.end);
      } else {
        LoopOver(fuel - 1, g, p, FULLSET, subj, r1.end);
        assert r1.caps + [] == r1.caps;
      }
    } else {
      LeaveExact(fuel - 1, g, p, subj, r1.end);
      SameEnd(fuel - 1, g, t, subj, r1.end);
      NofailSound(fuel - 1, g, t, 0, subj, r1.end);
      var r2 := Act(fuel - 1, g, t, true, FULLSET, subj, r1.end);
      assert r1.caps + r2.caps == c1.caps + c2.caps <==> r2.caps == c2.caps by {
        AppendSame(r1.caps, r2.caps, c2.caps);
      }
    }
  }

  lemma BodySame(fuel: nat, g: Rules, p: Tree, subj: Subject, s: nat)
    requires s <= |subj| && BodyAgrees(g, p, subj)
    requires !Act(fuel, g, p, true, FULLSET, subj, s).Going? && !Coded(fuel, g, p, subj, s).Running?
    ensures Same(Act(fuel, g, p, true, FULLSET, subj, s), Coded(fuel, g, p, subj, s))
  {
  }

  lemma AppendSame(a: seq<CapTree>, b: seq<CapTree>, c: seq<CapTree>)
    ensures a + b == a + c <==> b == c
  {
    if a + b == a + c {
      assert b == (a + b)[|a|..] && c == (a + c)[|a|..];
    }
  }

  lemma NotAgrees(fuel: nat, g: Rules, p: Tree, subj: Subject, s: nat)
    requires s <= |subj| && Headfail(g, p)
    requires !Act(fuel, g, p, false, FULLSET, subj, s).Going? && !Coded(fuel, g, p, subj, s).Running?
    ensures Act(fuel, g, p, false, FULLSET, subj, s).Passes? <==> Coded(fuel, g, p, subj, s).Match?
  {
    ActHeadfail(fuel, g, p, false, FULLSET, CHASE, subj, s);
    SameEnd(fuel, g, p, subj, s);
    HeadfailExact(fuel, g, p, CHASE, subj, s);
  }
}
