/** The capture list: reading the captures of a match back from it, and finding matching brackets. */
module LpegCaptures {
  import opened LpegTree
  import opened LpegMachine
  import opened LpegAnalysis

  predicate IsClose(c: CapEntry) { c.kind == CCLOSE }

  predicate IsFull(c: CapEntry) { c.siz != 0 }

  /** Captures as every pattern makes them: of a kind other than close, the slice in order. */
  predicate Proper(cs: seq<CapTree>)
  {
    forall i :: 0 <= i < |cs| ==> ProperOne(cs[i])
  }

  predicate ProperOne(c: CapTree)
  {
    c.kind != CCLOSE && c.start <= c.end && Proper(c.inner)
  }

  // ---------- Reading the list ----------

  /** The captures from entry `i` up to the next unmatched close or the end, and where that is. */
  function Read(list: seq<CapEntry>, i: nat): (r: (seq<CapTree>, nat))
    requires i <= |list|
    ensures i <= r.1 <= |list|
    decreases |list| - i
  {
    if i == |list| || IsClose(list[i]) then ([], i)
    else if IsFull(list[i]) then
      var rest := Read(list, i + 1);
      ([CapTree(list[i].kind, list[i].idx, list[i].pos, list[i].pos + list[i].siz - 1, [])] + rest.0, rest.1)
    else
      var inner := Read(list, i + 1);
      if inner.1 == |list| then ([], i)
      else
        var rest := Read(list, inner.1 + 1);
        ([CapTree(list[i].kind, list[i].idx, list[i].pos, list[inner.1].pos, inner.0)] + rest.0, rest.1)
  }

  /** Does `list` hold `part` from entry `i` on? */
  predicate Holds(list: seq<CapEntry>, i: nat, part: seq<CapEntry>)
  {
    i + |part| <= |list| && list[i..i + |part|] == part
  }

  lemma HoldsSplit(list: seq<CapEntry>, i: nat, a: seq<CapEntry>, b: seq<CapEntry>)
    requires Holds(list, i, a + b)
    ensures Holds(list, i, a) && Holds(list, i + |a|, b)
  {
    assert a == (a + b)[..|a|];
    assert b == (a + b)[|a|..];
    assert list[i..i + |a| + |b|][..|a|] == list[i..i + |a|];
    assert list[i..i + |a| + |b|][|a|..] == list[i + |a|..i + |a| + |b|];
  }

  lemma HoldsOne(list: seq<CapEntry>, i: nat, e: CapEntry)
    requires Holds(list, i, [e])
    ensures i < |list| && list[i] == e
  {
    assert list[i..i + 1][0] == e;
  }

  /** The entries of one capture, in place. */
  lemma {:induction false} OneHeld(list: seq<CapEntry>, i: nat, cs: seq<CapTree>)
    requires cs != [] && Holds(list, i, Encode(cs)) && ProperOne(cs[0])
    ensures var c := cs[0];
            var n := |EncodeOne(c)|;
            && Holds(list, i, EncodeOne(c)) && Holds(list, i + n, Encode(cs[1..])) && |Encode(cs)| == n + |Encode(cs[1..])|
            && n > 0 && i < |list| && list[i].kind == c.kind && list[i].idx == c.key && list[i].pos == c.start
            && (c.inner == [] && c.end - c.start < 255 ==> n == 1 && list[i].siz == c.end - c.start + 1)
            && (!(c.inner == [] && c.end - c.start < 255) ==>
                  && n == |Encode(c.inner)| + 2 && list[i].siz == 0 && Holds(list, i + 1, Encode(c.inner))
                  && i + n - 1 < |list| && list[i + n - 1] == CapEntry(c.end, 0, CCLOSE, 1))
  {
    var c := cs[0];
    HoldsSplit(list, i, EncodeOne(c), Encode(cs[1..]));
    if c.inner == [] && c.end - c.start < 255 {
      HoldsOne(list, i, CapEntry(c.start, c.key, c.kind, c.end - c.start + 1));
    } else {
      var open, close := [CapEntry(c.start, c.key, c.kind, 0)], [CapEntry(c.end, 0, CCLOSE, 1)];
      HoldsSplit(list, i, open + Encode(c.inner), close);
      HoldsSplit(list, i, open, Encode(c.inner));
      HoldsOne(list, i, open[0]);
      HoldsOne(list, i + 1 + |Encode(c.inner)|, close[0]);
    }
  }

  lemma {:induction false} ReadFull(list: seq<CapEntry>, i: nat)
    requires i < |list| && !IsClose(list[i]) && IsFull(list[i])
    ensures var rest := Read(list, i + 1);
            Read(list, i) ==
            ([CapTree(list[i].kind, list[i].idx, list[i].pos, list[i].pos + list[i].siz - 1, [])] + rest.0, rest.1)
  {
  }

  lemma {:induction false} ReadPair(list: seq<CapEntry>, i: nat, j: nat, inner: seq<CapTree>)
    requires i < j < |list| && !IsClose(list[i]) && !IsFull(list[i]) && Read(list, i + 1) == (inner, j)
    ensures var rest := Read(list, j + 1);
            Read(list, i) == ([CapTree(list[i].kind, list[i].idx, list[i].pos, list[j].pos, inner)] + rest.0, rest.1)
  {
  }

  lemma {:induction false} ReadEnd(list: seq<CapEntry>, i: nat)
    requires i <= |list|
    ensures Encode([]) == []
    ensures i == |list| || IsClose(list[i]) ==> Read(list, i) == ([], i)
  {
  }

  /** Reading what was recorded gives the captures back. */
  lemma {:induction false} ReadEncoded(list: seq<CapEntry>, i: nat, cs: seq<CapTree>)
    requires Proper(cs) && Holds(list, i, Encode(cs))
    requires var j := i + |Encode(cs)|; j == |list| || IsClose(list[j])
    ensures Read(list, i) == (cs, i + |Encode(cs)|)
    decreases cs
  {
    hide Read, Encode, EncodeOne;
    if cs == [] {
      ReadEnd(list, i);
    } else {
      var c := cs[0];
      OneHeld(list, i, cs);
      ReadEncoded(list, i + |EncodeOne(c)|, cs[1..]);
      if c.inner == [] && c.end - c.start < 255 {
        ReadFull(list, i);
      } else {
        ReadEncoded(list, i + 1, c.inner);
        ReadPair(list, i, i + |EncodeOne(c)| - 1, c.inner);
      }
      assert [c] + cs[1..] == cs;
    }
  }

  /** The capture list of a match determines its captures. */
  lemma ListFaithful(cs: seq<CapTree>)
    requires Proper(cs)
    ensures Read(Encode(cs), 0) == (cs, |Encode(cs)|)
  {
    ReadEncoded(Encode(cs), 0, cs);
  }

  // ---------- Matching brackets ----------

  /** Go back from `i` to the open entry that is not matched in between, skipping `n` more. */
  function OpenBefore(list: seq<CapEntry>, i: nat, n: nat): int
    requires i <= |list|
  {
    if i == 0 then -1
    else
      var cap := list[i - 1];
      if IsClose(cap) then OpenBefore(list, i - 1, n + 1)
      else if IsFull(cap) then OpenBefore(list, i - 1, n)
      else if n == 0 then i - 1
      else OpenBefore(list, i - 1, n - 1)
  }

  method FindOpen(list: seq<CapEntry>, cap: nat) returns (open: nat)
    requires cap <= |list| && OpenBefore(list, cap, 0) >= 0
    ensures open == OpenBefore(list, cap, 0) && open < |list|
  {
    var n: nat := 0;
    open := cap;
    while true
      invariant 0 < open <= |list| && OpenBefore(list, open, n) == OpenBefore(list, cap, 0)
      decreases open
    {
      open := open - 1;
      if IsClose(list[open]) {
        n := n + 1;
      } else if !IsFull(list[open]) {
        if n == 0 {
          return;
        }
        n := n - 1;
      }
    }
  }

  /** Recorded captures are balanced: a search backwards passes over them. */
  lemma {:induction false} OpenSkips(list: seq<CapEntry>, i: nat, cs: seq<CapTree>, n: nat)
    requires Proper(cs) && Holds(list, i, Encode(cs))
    ensures OpenBefore(list, i + |Encode(cs)|, n) == OpenBefore(list, i, n)
    decreases cs
  {
    if cs != [] {
      var c := cs[0];
      OneHeld(list, i, cs);
      OpenSkips(list, i + |EncodeOne(c)|, cs[1..], n);
      if !(c.inner == [] && c.end - c.start < 255) {
        OpenSkips(list, i + 1, c.inner, n + 1);
      }
    }
  }

  /** The close of the next unmatched bracket from `i` on, skipping `n` more. */
  function CloseAfter(list: seq<CapEntry>, i: nat, n: nat): nat
    requires i <= |list|
    decreases |list| - i
  {
    if i == |list| then i
    else if IsClose(list[i]) then if n == 0 then i else CloseAfter(list, i + 1, n - 1)
    else if IsFull(list[i]) then CloseAfter(list, i + 1, n)
    else CloseAfter(list, i + 1, n + 1)
  }

  /** The entry after the capture that starts at `cap`. */
  method NextCap(list: seq<CapEntry>, cap: nat) returns (next: nat)
    requires cap < |list| && (IsFull(list[cap]) || CloseAfter(list, cap + 1, 0) < |list|)
    ensures next == if IsFull(list[cap]) then cap + 1 else CloseAfter(list, cap + 1, 0) + 1
  {
    next := cap;
    if !IsFull(list[cap]) {
      var n: nat := 0;
      next := next + 1;
      while !IsClose(list[next]) || n > 0
        invariant cap < next < |list| && CloseAfter(list, next, n) == CloseAfter(list, cap + 1, 0)
        decreases |list| - next
      {
        if IsClose(list[next]) {
          n := n - 1;
        } else if !IsFull(list[next]) {
          n := n + 1;
        }
        next := next + 1;
      }
    }
    next := next + 1;
  }

  lemma {:induction false} CloseSkips(list: seq<CapEntry>, i: nat, cs: seq<CapTree>, n: nat)
    requires Proper(cs) && Holds(list, i, Encode(cs))
    ensures CloseAfter(list, i, n) == CloseAfter(list, i + |Encode(cs)|, n)
    decreases cs
  {
    if cs != [] {
      var c := cs[0];
      OneHeld(list, i, cs);
      CloseSkips(list, i + |EncodeOne(c)|, cs[1..], n);
      if !(c.inner == [] && c.end - c.start < 255) {
        CloseSkips(list, i + 1, c.inner, n + 1);
      }
    }
  }

  /** Wherever captures stand in a list, both searches land on the matching bracket of the first one. */
  lemma BracketsMatch(list: seq<CapEntry>, i: nat, cs: seq<CapTree>)
    requires cs != [] && Proper(cs) && Holds(list, i, Encode(cs))
    ensures var n := |EncodeOne(cs[0])|;
            && i < |list| && i + n <= |list|
            && (IsFull(list[i]) ==> n == 1)
            && (!IsFull(list[i]) ==>
                  IsClose(list[i + n - 1]) && OpenBefore(list, i + n - 1, 0) == i &&
                  CloseAfter(list, i + 1, 0) == i + n - 1)
  {
    var c := cs[0];
    OneHeld(list, i, cs);
    if !(c.inner == [] && c.end - c.start < 255) {
      OpenSkips(list, i + 1, c.inner, 0);
      CloseSkips(list, i + 1, c.inner, 0);
    }
  }

  // ---------- The captures of a match ----------

  /** No capture pattern of the close kind. */
  predicate KindsOk(t: Tree)
  {
    match t
    case TCapture(kind, _, p) => kind != CCLOSE && KindsOk(p)
    case TRep(p) => KindsOk(p)
    case TSeq(p1, p2) => KindsOk(p1) && KindsOk(p2)
    case TChoice(p1, p2) => KindsOk(p1) && KindsOk(p2)
    case TNot(p) => KindsOk(p)
    case TAnd(p) => KindsOk(p)
    case TBehind(_, p) => KindsOk(p)
    case TGrammar(rules) => RulesKindsOk(rules)
    case _ => true
  }

  predicate RulesKindsOk(g: Rules) { forall i :: 0 <= i < |g| ==> KindsOk(g[i]) }

  /** Captures in the order of the subject, inside a slice, and so all the way down. */
  predicate Ordered(cs: seq<CapTree>, from: nat, to: nat)
  {
    (forall i :: 0 <= i < |cs| ==> from <= cs[i].start <= cs[i].end <= to) &&
    (forall i :: 0 <= i < |cs| - 1 ==> cs[i].end <= cs[i + 1].start) &&
    (forall i :: 0 <= i < |cs| ==> Ordered(cs[i].inner, cs[i].start, cs[i].end))
  }

  lemma {:induction false} OrderedJoin(a: seq<CapTree>, b: seq<CapTree>, from: nat, mid: nat, to: nat)
    requires from <= mid <= to && Ordered(a, from, mid) && Ordered(b, mid, to) && Proper(a) && Proper(b)
    ensures Ordered(a + b, from, to) && Proper(a + b)
  {
    var c := a + b;
    forall i | 0 <= i < |c| ensures from <= c[i].start <= c[i].end <= to && Ordered(c[i].inner, c[i].start, c[i].end) {
      assert c[i] == if i < |a| then a[i] else b[i - |a|];
    }
    forall i | 0 <= i < |c| - 1 ensures c[i].end <= c[i + 1].start {
      if i == |a| - 1 {
        assert c[i] == a[i] && c[i + 1] == b[0];
      } else if i < |a| - 1 {
        assert c[i] == a[i] && c[i + 1] == a[i + 1];
      } else {
        assert c[i] == b[i - |a|] && c[i + 1] == b[i + 1 - |a|];
      }
    }
  }

  /** The captures of a match are proper, in order and inside what was matched. */
  lemma {:induction false} EvalCaptures(fuel: nat, g: Rules, t: Tree, subj: Subject, s: nat)
    requires s <= |subj| && KindsOk(t) && RulesKindsOk(g)
    ensures var r := Eval(fuel, g, t, subj, s); r.Match? ==> Proper(r.caps) && Ordered(r.caps, s, r.end)
    decreases fuel, t
  {
    hide Proper, Ordered;
    var r := Eval(fuel, g, t, subj, s);
    if r.Match? {
      NoneOrdered(s, r.end);
    }
    match t
    case TRep(p) =>
      EvalCaptures(fuel, g, p, subj, s);
      var r1 := Eval(fuel, g, p, subj, s);
      if r1.Match? && fuel > 0 {
        EvalCaptures(fuel - 1, g, t, subj, r1.end);
        var r2 := Eval(fuel - 1, g, t, subj, r1.end);
        if r2.Match? {
          OrderedJoin(r1.caps, r2.caps, s, r1.end, r2.end);
        }
      }
    case TSeq(p1, p2) =>
      EvalCaptures(fuel, g, p1, subj, s);
      var r1 := Eval(fuel, g, p1, subj, s);
      if r1.Match? {
        EvalCaptures(fuel, g, p2, subj, r1.end);
        var r2 := Eval(fuel, g, p2, subj, r1.end);
        if r2.Match? {
          OrderedJoin(r1.caps, r2.caps, s, r1.end, r2.end);
        }
      }
    case TChoice(p1, p2) =>
      EvalCaptures(fuel, g, p1, subj, s);
      EvalCaptures(fuel, g, p2, subj, s);
    case TCapture(kind, key, p) =>
      EvalCaptures(fuel, g, p, subj, s);
      var r1 := Eval(fuel, g, p, subj, s);
      if r1.Match? {
        OneOrdered(CapTree(kind, key, s, r1.end, r1.caps));
      }
    case TCall(k) => if k < |g| && fuel > 0 { EvalCaptures(fuel - 1, g, g[k], subj, s); }
    case TGrammar(rules) => if rules != [] { EvalCaptures(fuel, rules, rules[0], subj, s); }
    case _ =>
  }

  lemma {:induction false} NoneOrdered(from: nat, to: nat)
    ensures Proper([]) && Ordered([], from, to)
  {
  }

  lemma {:induction false} OneOrdered(c: CapTree)
    requires c.kind != CCLOSE && c.start <= c.end && Proper(c.inner) && Ordered(c.inner, c.start, c.end)
    ensures Proper([c]) && Ordered([c], c.start, c.end)
  {
  }
}
