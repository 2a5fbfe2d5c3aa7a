/** The streamed document against converting the whole tree at once. */
module JsonBatch {
  import opened Options
  import opened JsonGrammar
  import opened JsonDump
  import opened JsonConvert
  import opened JsonStream

  // ---------- The events of a tree rebuild the tree ----------

  function AttrEvents(attrs: seq<Attr>): seq<Event>
  {
    seq(|attrs|, i requires 0 <= i < |attrs| => Attribute(attrs[i].name, attrs[i].value))
  }

  /** The events of one element: its attributes, its text, its first `k` children. */
  function ContentEvents(el: Elem, k: nat): seq<Event>
    requires k <= |el.children|
    decreases el, 0, k
  {
    if k == 0 then AttrEvents(el.attrs) + [Characters(el.text)]
    else ContentEvents(el, k - 1) + ElementEvents(el.children[k - 1])
  }

  function ElementEvents(el: Elem): seq<Event>
    decreases el, 1, 0
  {
    [StartElement(el.name)] + ContentEvents(el, |el.children|) + [EndElement]
  }

  lemma {:induction false} RunRun(w: Scan, es: seq<Event>, more: seq<Event>)
    ensures Run(Run(w, es), more) == Run(w, es + more)
    decreases |more|
  {
    hide Step;
    if more == [] {
      assert es + more == es;
    } else {
      var front := more[..|more| - 1];
      RunRun(w, es, front);
      assert (es + more)[..|es + more| - 1] == es + front;
      assert Last(es + more) == Last(more);
    }
  }

  lemma {:induction false} RunOne(w: Scan, e: Event)
    ensures Run(w, [e]) == Step(w, e)
  {
    hide Step;
    assert [e][..0] == [];
    assert Run(w, []) == w;
  }

  /** The state inside the element at the top of the stack. */
  ghost predicate Inside(w: Scan) { !w.finished && w.inRoot && w.open != [] }

  function WithTop(w: Scan, el: Elem): Scan
    requires w.open != []
  {
    w.(open := w.open[|w.open| - 1 := el])
  }

  lemma {:induction false} RunAttrs(w: Scan, attrs: seq<Attr>)
    requires Inside(w)
    ensures Run(w, AttrEvents(attrs)) == WithTop(w, Last(w.open).(attrs := Last(w.open).attrs + attrs))
    decreases |attrs|
  {
    var top := Last(w.open);
    if attrs == [] {
      assert AttrEvents(attrs) == [] && top.attrs + [] == top.attrs;
      assert w.open[|w.open| - 1 := top] == w.open;
    } else {
      var front := attrs[..|attrs| - 1];
      RunAttrs(w, front);
      assert AttrEvents(attrs)[..|attrs| - 1] == AttrEvents(front);
      assert top.attrs + attrs == (top.attrs + front) + [Last(attrs)];
    }
  }

  lemma {:induction false} StepText(w: Scan, text: string)
    requires Inside(w)
    ensures Step(w, Characters(text)) == WithTop(w, Last(w.open).(text := Last(w.open).text + text))
  {
    hide Finish, Complete;
  }

  lemma {:induction false} StepStart(w: Scan, name: string)
    requires !w.finished && w.inRoot
    ensures Step(w, StartElement(name)) == w.(open := w.open + [NewElem(name)])
  {
    hide Finish, Complete;
  }

  lemma {:induction false} StepEnd(w: Scan, el: Elem)
    requires Inside(w)
    ensures Step(w.(open := w.open + [el]), EndElement) ==
            WithTop(w, Last(w.open).(children := Last(w.open).children + [el]))
  {
    hide Finish, Complete;
    var open := w.open + [el];
    assert open[|open| - 2] == Last(w.open) && open[..|open| - 2] == w.open[..|w.open| - 1] && Last(open) == el;
    assert Closed(open) == w.open[|w.open| - 1 := Last(w.open).(children := Last(w.open).children + [el])];
  }

  lemma {:induction false} RunOwn(w: Scan, el: Elem)
    requires Inside(w) && Last(w.open) == NewElem(el.name)
    ensures Run(w, ContentEvents(el, 0)) == WithTop(w, el.(children := []))
  {
    hide Run, Step, AttrEvents;
    RunAttrs(w, el.attrs);
    var v := Run(w, AttrEvents(el.attrs));
    assert [] + el.attrs == el.attrs && "" + el.text == el.text;
    RunRun(w, AttrEvents(el.attrs), [Characters(el.text)]);
    RunOne(v, Characters(el.text));
    StepText(v, el.text);
  }

  lemma {:induction false} RunContent(w: Scan, el: Elem, k: nat)
    requires Inside(w) && k <= |el.children| && Last(w.open) == NewElem(el.name)
    ensures Run(w, ContentEvents(el, k)) == WithTop(w, el.(children := el.children[..k]))
    decreases el, 0, k
  {
    hide Run, ElementEvents;
    if k == 0 {
      RunOwn(w, el);
      assert el.children[..0] == [];
    } else {
      RunContent(w, el, k - 1);
      var v := Run(w, ContentEvents(el, k - 1));
      RunRun(w, ContentEvents(el, k - 1), ElementEvents(el.children[k - 1]));
      RunElement(v, el.children[k - 1]);
      assert el.children[..k - 1] + [el.children[k - 1]] == el.children[..k];
    }
  }

  lemma {:induction false} RunStarted(w: Scan, el: Elem)
    requires !w.finished && w.inRoot
    ensures Run(w, ElementEvents(el)) == Step(w.(open := w.open + [el]), EndElement)
    decreases el, 0, |el.children| + 1
  {
    hide Run, Step, ContentEvents;
    var content := ContentEvents(el, |el.children|);
    RunRun(w, [StartElement(el.name)] + content, [EndElement]);
    RunRun(w, [StartElement(el.name)], content);
    RunOne(w, StartElement(el.name));
    StepStart(w, el.name);
    var v := w.(open := w.open + [NewElem(el.name)]);
    RunContent(v, el, |el.children|);
    assert el.children[..|el.children|] == el.children;
    assert v.open[|v.open| - 1 := el] == w.open + [el];
    RunOne(WithTop(v, el), EndElement);
  }

  /** Mirroring an element inside another one adds it to the children of that one. */
  lemma {:induction false} RunElement(w: Scan, el: Elem)
    requires Inside(w)
    ensures Run(w, ElementEvents(el)) == WithTop(w, Last(w.open).(children := Last(w.open).children + [el]))
    decreases el, 1, 0
  {
    hide Run, Step;
    RunStarted(w, el);
    StepEnd(w, el);
  }

  /** Mirroring a direct child of the root completes it. */
  lemma {:induction false} RunTopLevel(w: Scan, el: Elem)
    requires !w.finished && w.inRoot && w.open == []
    ensures Run(w, ElementEvents(el)) == Complete(w, el)
  {
    hide Complete;
    RunStarted(w, el);
    var u := w.(open := w.open + [el]);
    assert u.open == [el];
    CompleteForgets(u, w, el);
  }

  lemma {:induction false} CompleteForgets(u: Scan, w: Scan, el: Elem)
    requires u == w.(open := u.open)
    ensures Complete(u, el) == Complete(w, el)
  {
  }

  /** The events of the root's children. */
  function ChildEvents(els: seq<Elem>): seq<Event>
  {
    if els == [] then [] else ChildEvents(els[..|els| - 1]) + ElementEvents(Last(els))
  }

  /** A whole document: the root with its attributes first, its children, and its end. */
  function BodyEvents(name: string, attrs: seq<Attr>, els: seq<Elem>): seq<Event>
  {
    [StartElement(name)] + AttrEvents(attrs) + ChildEvents(els)
  }

  lemma {:induction false} RunRootAttrs(w: Scan, attrs: seq<Attr>)
    requires !w.finished && w.inRoot && w.open == []
    ensures Run(w, AttrEvents(attrs)) == w.(attrs := w.attrs + attrs)
    decreases |attrs|
  {
    if attrs == [] {
      assert AttrEvents(attrs) == [] && w.attrs + [] == w.attrs;
    } else {
      var front := attrs[..|attrs| - 1];
      RunRootAttrs(w, front);
      assert AttrEvents(attrs)[..|attrs| - 1] == AttrEvents(front);
      assert w.attrs + attrs == (w.attrs + front) + [Last(attrs)];
    }
  }

  lemma {:induction false} RunChildren(w: Scan, els: seq<Elem>)
    requires !w.finished && w.inRoot && w.open == []
    ensures Run(w, ChildEvents(els)) == w.(done := w.done + els, sink := Run(w, ChildEvents(els)).sink)
    decreases |els|
  {
    hide Step, Flush;
    if els == [] {
      assert w.done + [] == w.done;
    } else {
      var front := els[..|els| - 1];
      RunChildren(w, front);
      RunRun(w, ChildEvents(front), ElementEvents(Last(els)));
      RunTopLevel(Run(w, ChildEvents(front)), Last(els));
      assert w.done + els == (w.done + front) + [Last(els)];
    }
  }

  /** The writer has captured the tree that was mirrored. */
  lemma {:induction false} BodyCaptured(lines: bool, name: string, attrs: seq<Attr>, els: seq<Elem>)
    ensures var es := BodyEvents(name, attrs, els);
            var w := Run(Initial(lines), es);
            && w.attrs == attrs
            && w.done == els
            && !w.finished && w.inRoot && w.open == []
            && Run(Initial(lines), es + [EndElement]) == Finish(w)
            && AttrsFirst(lines, es)
  {
    hide Flush, Finish, Run, AttrEvents, ChildEvents;
    var i := Initial(lines);
    var head, es := [StartElement(name)], BodyEvents(name, attrs, els);
    RunRun(i, head + AttrEvents(attrs), ChildEvents(els));
    RunRun(i, head, AttrEvents(attrs));
    RunOne(i, StartElement(name));
    RunRootAttrs(Step(i, StartElement(name)), attrs);
    assert [] + attrs == attrs && [] + els == els;
    RunChildren(Run(i, head + AttrEvents(attrs)), els);
    RunRun(i, es, [EndElement]);
    RunOne(Run(i, es), EndElement);
    assert es == head + AttrEvents(attrs) + ChildEvents(els);
    var k := |head + AttrEvents(attrs)|;
    assert es[..k] == head + AttrEvents(attrs);
    AttrsFirstBy(lines, es, k);
  }

  lemma {:induction false} StepGrows(w: Scan, e: Event)
    ensures |Step(w, e).attrs| >= |w.attrs| && |Step(w, e).done| >= |w.done|
    ensures e.Attribute? && w.inRoot && w.open == [] && !w.finished ==> |Step(w, e).attrs| > |w.attrs|
  {
    hide Flush, WriteHeader, TailRecords, Collapsed;
  }

  lemma {:induction false} RunGrows(lines: bool, es: seq<Event>, k: nat)
    requires k <= |es|
    ensures var (w, v) := (Run(Initial(lines), es[..k]), Run(Initial(lines), es));
            |v.attrs| >= |w.attrs| && |v.done| >= |w.done|
    decreases |es|
  {
    hide Step;
    if k == |es| {
      assert es[..k] == es;
    } else {
      var front := es[..|es| - 1];
      RunGrows(lines, front, k);
      assert front[..k] == es[..k];
      StepGrows(Run(Initial(lines), front), Last(es));
    }
  }

  /** The attributes were first if there is a point before which nothing was completed and after which none came. */
  lemma {:induction false} AttrsFirstBy(lines: bool, es: seq<Event>, k: nat)
    requires k <= |es| && Run(Initial(lines), es[..k]).done == []
    requires |Run(Initial(lines), es[..k]).attrs| == |Run(Initial(lines), es).attrs|
    ensures AttrsFirst(lines, es)
    decreases |es|
  {
    hide Run, Step;
    if es != [] {
      var front := es[..|es| - 1];
      if k == |es| {
        assert es[..k] == es;
        RunGrows(lines, es, |front|);
        assert front[..|front|] == front && es[..|front|] == front;
        AttrsFirstBy(lines, front, |front|);
      } else {
        assert front[..k] == es[..k];
        RunGrows(lines, front, k);
        RunGrows(lines, es, |front|);
        assert es[..|front|] == front;
        AttrsFirstBy(lines, front, k);
        RunLast(lines, es);
        StepGrows(Run(Initial(lines), front), Last(es));
      }
    }
  }

  lemma {:induction false} RunLast(lines: bool, es: seq<Event>)
    requires es != []
    ensures Run(Initial(lines), es) == Step(Run(Initial(lines), es[..|es| - 1]), Last(es))
  {
    hide Step;
  }

  // ---------- One conversion of the whole tree ----------

  /** What the operations leave under one key. */
  function LookupOps(start: Option<Value>, ops: seq<Op>, key: string): Option<Value>
  {
    if ops == [] then start
    else
      var o, before := Last(ops), LookupOps(start, ops[..|ops| - 1], key);
      if o.key != key then before
      else if before.Some? then Some(Joined(before.value, o.value))
      else Some(if o.asArray then Arr([o.value]) else o.value)
  }

  lemma {:induction false} LookupApply(ms: seq<Member>, ops: seq<Op>, key: string)
    ensures Lookup(Apply(ms, ops), key) == LookupOps(Lookup(ms, key), ops, key)
    decreases |ops|
  {
    hide GroupAdd, Find, Joined;
    if ops != [] {
      var o, front := Last(ops), ops[..|ops| - 1];
      LookupApply(ms, front, key);
      GroupAddLookup(Apply(ms, front), o.key, o.value, o.asArray, key);
    }
  }

  lemma {:induction false} LookupOpsJoin(start: Option<Value>, ops: seq<Op>, more: seq<Op>, key: string)
    ensures LookupOps(start, ops + more, key) == LookupOps(LookupOps(start, ops, key), more, key)
    decreases |more|
  {
    if more == [] {
      assert ops + more == ops;
    } else {
      LookupOpsJoin(start, ops, more[..|more| - 1], key);
      assert (ops + more)[..|ops + more| - 1] == ops + more[..|more| - 1];
    }
  }

  lemma {:induction false} LookupOpsAbsent(start: Option<Value>, ops: seq<Op>, key: string)
    requires key !in OpKeys(ops)
    ensures LookupOps(start, ops, key) == start
    decreases |ops|
  {
    if ops != [] {
      var front := ops[..|ops| - 1];
      assert ops[|ops| - 1].key in OpKeys(ops);
      assert ops == front + [Last(ops)];
      OpKeysJoin(front, [Last(ops)]);
      LookupOpsAbsent(start, front, key);
    }
  }

  ghost function AttrOps(attrs: seq<Attr>): seq<Op>
  {
    seq(|attrs|, i requires 0 <= i < |attrs| => Op(attrs[i].name, Typed(attrs[i]), false))
  }

  lemma {:induction false} AttrsAsOps(attrs: seq<Attr>, k: nat)
    requires k <= |attrs|
    ensures AttrMembers(attrs, k) == Apply([], AttrOps(attrs)[..k])
    decreases k
  {
    hide Typed, GroupAdd;
    if k > 0 {
      AttrsAsOps(attrs, k - 1);
      assert AttrOps(attrs)[..k][..k - 1] == AttrOps(attrs)[..k - 1];
    }
  }

  /** What an element adds to its converted parent: containers make arrays only of what always is one. */
  ghost function BatchOps(el: Elem): seq<Op>
  {
    if IsTransparent(el.name) then
      seq(|Ops(el)|, i requires 0 <= i < |Ops(el)| =>
        Ops(el)[i].(asArray := ChildKey(el.name).Some? || IsArrayElement(el.children[i].name)))
    else Ops(el)
  }

  ghost function BatchOpsOf(els: seq<Elem>): seq<Op>
  {
    if els == [] then [] else BatchOpsOf(els[..|els| - 1]) + BatchOps(Last(els))
  }

  lemma {:induction false} LiftedAsOps(ms: seq<Member>, c: Elem, k: nat)
    requires k <= |c.children| && IsTransparent(c.name)
    ensures |BatchOps(c)| == |Ops(c)| == |c.children|
    ensures LiftedMembers(ms, c, k) == Apply(ms, BatchOps(c)[..k])
    decreases k
  {
    hide Convert, GroupAdd, ArrayKey, IsTransparent, ChildKey;
    if k > 0 {
      LiftedAsOps(ms, c, k - 1);
      assert BatchOps(c)[..k][..k - 1] == BatchOps(c)[..k - 1];
      assert Last(BatchOps(c)[..k]) == BatchOps(c)[k - 1];
    }
  }

  lemma {:induction false} ChildAsOps(ms: seq<Member>, c: Elem)
    ensures (if IsTransparent(c.name) then LiftedMembers(ms, c, |c.children|) else AddChild(ms, c.name, Convert(c), None)) ==
            Apply(ms, BatchOps(c))
  {
    hide Convert, GroupAdd, ArrayKey, IsTransparent, LiftedMembers;
    if IsTransparent(c.name) {
      LiftedAsOps(ms, c, |c.children|);
      assert BatchOps(c)[..|c.children|] == BatchOps(c);
    } else {
      assert BatchOps(c)[..0] == [];
      assert Apply(ms, []) == ms;
    }
  }

  /** Converting a tree adds its attributes and then its children, one after the other, under their keys. */
  lemma {:induction false} ChildrenAsOps(root: Elem, k: nat)
    requires k <= |root.children|
    ensures ChildMembers(root, k) == Apply(Apply([], AttrOps(root.attrs)), BatchOpsOf(root.children[..k]))
    decreases k
  {
    hide Convert, GroupAdd, IsTransparent, LiftedMembers, AddChild, BatchOps, AttrOps, AttrMembers;
    if k == 0 {
      AttrsAsOps(root.attrs, |root.attrs|);
      AttrOpsLength(root.attrs);
      assert AttrOps(root.attrs)[..|root.attrs|] == AttrOps(root.attrs);
      assert BatchOpsOf(root.children[..0]) == [];
    } else {
      var c := root.children[k - 1];
      ChildrenAsOps(root, k - 1);
      ChildAsOps(ChildMembers(root, k - 1), c);
      assert root.children[..k][..k - 1] == root.children[..k - 1];
      ApplyApply(Apply([], AttrOps(root.attrs)), BatchOpsOf(root.children[..k - 1]), BatchOps(c));
    }
  }

  // ---------- When containers agree ----------

  /** The same keys and values, with more of the values put into arrays. */
  ghost predicate Wraps(ops: seq<Op>, wrapped: seq<Op>)
  {
    |ops| == |wrapped| && forall i :: 0 <= i < |ops| ==> WrapsOne(ops[i], wrapped[i])
  }

  predicate WrapsOne(o: Op, w: Op) { o.key == w.key && o.value == w.value && (o.asArray ==> w.asArray) }

  /** The first operation with this key; their number if there is none. */
  function First(ops: seq<Op>, key: string): (i: nat)
    ensures i <= |ops|
    ensures i < |ops| ==> ops[i].key == key
    ensures forall j :: 0 <= j < i ==> ops[j].key != key
  {
    if ops == [] then 0
    else
      var i := First(ops[..|ops| - 1], key);
      if i < |ops| - 1 || Last(ops).key == key then i else |ops|
  }

  /**
   * Where the first value under a key is put into an array only by `wrapped`, it makes no difference
   * if and only if it is no array itself and another value follows under the key.
   */
  ghost predicate Agree(ops: seq<Op>, wrapped: seq<Op>, key: string)
    requires Wraps(ops, wrapped)
  {
    var i := First(ops, key);
    i < |ops| && !ops[i].asArray && wrapped[i].asArray ==>
      !ops[i].value.Arr? && exists j :: i < j < |ops| && ops[j].key == key
  }

  /** Two arrays that come from a value and from that value in an array. */
  ghost predicate Apart(a: Value, b: Value)
  {
    exists v: Value, us: seq<Value> :: v.Arr? && us != [] && a == Arr(v.items + us) && b == Arr([v] + us)
  }

  lemma {:induction false} ApartDiffer(a: Value, b: Value)
    requires Apart(a, b)
    ensures a != b
  {
    var v: Value, us: seq<Value> :| v.Arr? && us != [] && a == Arr(v.items + us) && b == Arr([v] + us);
    NotItself(v);
    assert ([v] + us)[0] == v;
    if v.items != [] {
      assert (v.items + us)[0] == v.items[0];
    }
  }

  /** How deep the first items of arrays go. */
  function FirstDepth(v: Value): nat { if v.Arr? && v.items != [] then 1 + FirstDepth(v.items[0]) else 0 }

  /** No value is the first item of itself. */
  lemma {:induction false} NotItself(v: Value)
    ensures v.Arr? && v.items != [] ==> v.items[0] != v
    ensures v != Arr([v])
  {
    assert FirstDepth(Arr([v])) == 1 + FirstDepth(v);
  }

  lemma {:induction false} ApartJoined(a: Value, b: Value, u: Value)
    requires Apart(a, b)
    ensures Apart(Joined(a, u), Joined(b, u))
  {
    var v: Value, us: seq<Value> :| v.Arr? && us != [] && a == Arr(v.items + us) && b == Arr([v] + us);
    assert v.items + us + [u] == v.items + (us + [u]);
    assert [v] + us + [u] == [v] + (us + [u]);
    assert us + [u] != [];
    assert Joined(a, u) == Arr(v.items + (us + [u])) && Joined(b, u) == Arr([v] + (us + [u]));
  }

  lemma {:induction false} ApartNow(v: Value, u: Value)
    ensures v.Arr? ==> Apart(Joined(v, u), Joined(Arr([v]), u))
    ensures !v.Arr? ==> Joined(v, u) == Joined(Arr([v]), u)
  {
    if v.Arr? {
      assert Joined(v, u) == Arr(v.items + [u]) && Joined(Arr([v]), u) == Arr([v] + [u]);
    }
  }

  /** How the values under a key differ. */
  lemma {:induction false} WrappedValues(ops: seq<Op>, wrapped: seq<Op>, key: string)
    requires Wraps(ops, wrapped)
    ensures var (a, b, i) := (LookupOps(None, ops, key), LookupOps(None, wrapped, key), First(ops, key));
            if i == |ops| then a == b == None
            else
              && a.Some? && b.Some?
              && if ops[i].asArray || !wrapped[i].asArray then a == b
                 else if !exists j :: i < j < |ops| && ops[j].key == key then
                   a.value == ops[i].value && b.value == Arr([ops[i].value])
                 else if ops[i].value.Arr? then Apart(a.value, b.value)
                 else a == b
    decreases |ops|
  {
    hide Apart, Joined;
    if ops != [] {
      var n := |ops| - 1;
      var front, before := ops[..n], wrapped[..n];
      WrappedValues(front, before, key);
      var a, b, i := LookupOps(None, front, key), LookupOps(None, before, key), First(front, key);
      var o := ops[n];
      if o.key == key && a.Some? {
        ApartNow(ops[i].value, o.value);
        if Apart(a.value, b.value) {
          ApartJoined(a.value, b.value, o.value);
        }
        assert i < n < |ops| && ops[n].key == key;
      } else if i < n {
        assert (exists j :: i < j < |ops| && ops[j].key == key) <==> exists j :: i < j < n && front[j].key == key;
      }
    }
  }

  /** The value under a key is the same if and only if the operations agree on it. */
  lemma {:induction false} AgreeExact(start: Option<Value>, ops: seq<Op>, wrapped: seq<Op>, key: string)
    requires Wraps(ops, wrapped)
    ensures start.Some? ==> LookupOps(start, ops, key) == LookupOps(start, wrapped, key)
    ensures LookupOps(None, ops, key) == LookupOps(None, wrapped, key) <==> Agree(ops, wrapped, key)
    decreases |ops|
  {
    hide Joined, Apart;
    WrappedValues(ops, wrapped, key);
    var a, b, i := LookupOps(None, ops, key), LookupOps(None, wrapped, key), First(ops, key);
    if i < |ops| {
      NotItself(ops[i].value);
    }
    if a.Some? && b.Some? && Apart(a.value, b.value) {
      ApartDiffer(a.value, b.value);
    }
    if start.Some? {
      LookupStarted(start.value, ops, wrapped, key);
    }
  }

  lemma {:induction false} LookupStarted(v: Value, ops: seq<Op>, wrapped: seq<Op>, key: string)
    requires Wraps(ops, wrapped)
    ensures LookupOps(Some(v), ops, key) == LookupOps(Some(v), wrapped, key) && LookupOps(Some(v), ops, key).Some?
    decreases |ops|
  {
    hide Joined;
    if ops != [] {
      LookupStarted(v, ops[..|ops| - 1], wrapped[..|ops| - 1], key);
    }
  }

  lemma {:induction false} OpsWrap(el: Elem)
    ensures Wraps(BatchOps(el), Ops(el))
  {
    hide Convert, ArrayKey;
  }

  lemma {:induction false} OpsOfWrap(els: seq<Elem>)
    ensures Wraps(BatchOpsOf(els), OpsOf(els))
  {
    hide BatchOps, Ops;
    if els != [] {
      var front := els[..|els| - 1];
      OpsOfWrap(front);
      OpsWrap(Last(els));
      var a, b := BatchOpsOf(front), BatchOps(Last(els));
      var c, d := OpsOf(front), Ops(Last(els));
      assert |a + b| == |c + d|;
      forall i | 0 <= i < |a| + |b| ensures WrapsOne((a + b)[i], (c + d)[i]) {
        assert (a + b)[i] == if i < |a| then a[i] else b[i - |a|];
        assert (c + d)[i] == if i < |c| then c[i] else d[i - |c|];
      }
    }
  }

  /** The keys of members in their order. */
  function KeyList(ms: seq<Member>): seq<string> { seq(|ms|, i requires 0 <= i < |ms| => ms[i].key) }

  lemma {:induction false} KeyListApply(ms: seq<Member>, ops: seq<Op>, wrapped: seq<Op>)
    requires Wraps(ops, wrapped) && Distinct(ms)
    ensures KeyList(Apply(ms, ops)) == KeyList(Apply(ms, wrapped)) && Distinct(Apply(ms, ops))
    decreases |ops|
  {
    hide GroupAdd;
    if ops != [] {
      var n := |ops| - 1;
      KeyListApply(ms, ops[..n], wrapped[..n]);
      var o, x, y := ops[n], Apply(ms, ops[..n]), Apply(ms, wrapped[..n]);
      KeyListAdd(x, o);
      KeyListAdd(y, wrapped[n]);
      SameFind(x, y, o.key);
      GroupAddKeys(x, o.key, o.value, o.asArray);
    }
  }

  lemma {:induction false} KeyListAdd(ms: seq<Member>, o: Op)
    ensures KeyList(GroupAdd(ms, o.key, o.value, o.asArray)) ==
            if Find(ms, o.key) < |ms| then KeyList(ms) else KeyList(ms) + [o.key]
  {
    hide Joined;
  }

  lemma {:induction false} SameFind(x: seq<Member>, y: seq<Member>, key: string)
    requires KeyList(x) == KeyList(y)
    ensures Find(x, key) == Find(y, key) && |x| == |y|
  {
    assert |x| == |KeyList(x)| == |KeyList(y)| == |y|;
    assert forall i :: 0 <= i < |x| ==> x[i].key == KeyList(x)[i] == KeyList(y)[i] == y[i].key;
    FindIs(y, key, Find(x, key));
  }

  lemma {:induction false} SameMembers(x: seq<Member>, y: seq<Member>)
    requires KeyList(x) == KeyList(y) && Distinct(x)
    requires forall key :: Lookup(x, key) == Lookup(y, key)
    ensures x == y
  {
    SameFind(x, y, "");
    forall i | 0 <= i < |x| ensures x[i] == y[i] {
      assert x[i].key == KeyList(x)[i] == KeyList(y)[i] == y[i].key;
      SameFind(x, y, x[i].key);
      FindIs(x, x[i].key, i);
      assert Lookup(x, x[i].key) == Lookup(y, x[i].key);
    }
  }

  /**
   * A container is written as it is converted if and only if, for every key that is new, its values
   * agree: the first is always an array, or it is none and another one follows.
   */
  lemma {:induction false} ContainerExact(ms: seq<Member>, c: Elem)
    requires IsTransparent(c.name) && Distinct(ms)
    ensures Wraps(BatchOps(c), Ops(c))
    ensures LiftedMembers(ms, c, |c.children|) == Apply(ms, Ops(c)) <==>
            forall key :: key !in Keys(ms) ==> Agree(BatchOps(c), Ops(c), key)
  {
    hide Convert, Ops, BatchOps, Apply, Agree, LiftedMembers, Lookup, Distinct, KeyList, LookupOps, Wraps;
    OpsWrap(c);
    ChildAsOps(ms, c);
    var x, y := Apply(ms, BatchOps(c)), Apply(ms, Ops(c));
    assert LiftedMembers(ms, c, |c.children|) == x;
    KeyListApply(ms, BatchOps(c), Ops(c));
    forall key ensures Lookup(x, key) == Lookup(y, key) <==> (key in Keys(ms) || Agree(BatchOps(c), Ops(c), key)) {
      LookupApply(ms, BatchOps(c), key);
      LookupApply(ms, Ops(c), key);
      LookupAbsent(ms, key);
      AgreeExact(Lookup(ms, key), BatchOps(c), Ops(c), key);
    }
    if forall key :: key !in Keys(ms) ==> Agree(BatchOps(c), Ops(c), key) {
      SameMembers(x, y);
    }
  }

  /** They do not agree on a single child that is not always an array: it is written as one nevertheless. */
  lemma {:induction false} ContainerDiffers(child: Elem)
    requires !IsArrayElement(child.name)
    ensures var c := Elem("hostscript", [], "", [child]);
            && LiftedMembers([], c, 1) == [Member(child.name, Convert(child))]
            && Apply([], Ops(c)) == [Member(child.name, Arr([Convert(child)]))]
            && LiftedMembers([], c, 1) != Apply([], Ops(c))
  {
    hide Convert, ArrayKey;
    var c := Elem("hostscript", [], "", [child]);
    assert LiftedMembers([], c, 0) == [];
    assert Find([], child.name) == 0;
    assert LiftedMembers([], c, 1) == [] + [Member(child.name, Convert(child))];
    var o := Op(child.name, Convert(child), true);
    assert Ops(c) == [o];
    assert [o][..0] == [];
    assert Apply([], []) == [];
    assert Apply([], [o]) == [] + [Member(child.name, Arr([Convert(child)]))];
    var v := Convert(child);
    NotItself(v);
    assert LiftedMembers([], c, 1)[0] != Apply([], Ops(c))[0];
  }

  /** A container without a key of its own holds only elements that are always arrays. */
  predicate ArraysInContainers(el: Elem)
  {
    IsTransparent(el.name) && ChildKey(el.name).None? ==>
      forall i :: 0 <= i < |el.children| ==> IsArrayElement(el.children[i].name)
  }

  /** That is enough. */
  lemma {:induction false} ArraysAgree(els: seq<Elem>, key: string)
    requires forall i :: 0 <= i < |els| ==> ArraysInContainers(els[i])
    ensures Wraps(BatchOpsOf(els), OpsOf(els)) && BatchOpsOf(els) == OpsOf(els) && Agree(BatchOpsOf(els), OpsOf(els), key)
  {
    hide BatchOps, Ops, ArraysInContainers;
    if els != [] {
      var front := els[..|els| - 1];
      forall i | 0 <= i < |front| ensures ArraysInContainers(front[i]) {
        assert front[i] == els[i];
      }
      ArraysAgree(front, key);
      ArraysSame(els[|els| - 1]);
    }
    OpsOfWrap(els);
  }

  lemma {:induction false} ArraysSame(el: Elem)
    requires ArraysInContainers(el)
    ensures BatchOps(el) == Ops(el)
  {
    hide Convert, ArrayKey;
  }

  lemma {:induction false} AttrOpsLength(attrs: seq<Attr>)
    ensures |AttrOps(attrs)| == |attrs|
  {
  }

  lemma {:induction false} LookupJoin(ms: seq<Member>, more: seq<Member>, key: string)
    ensures Lookup(ms + more, key) == if Lookup(ms, key).Some? then Lookup(ms, key) else Lookup(more, key)
  {
    var all := ms + more;
    var i, j := Find(ms, key), Find(more, key);
    assert forall n :: 0 <= n < |ms| ==> all[n] == ms[n];
    assert forall n :: 0 <= n < |more| ==> all[|ms| + n] == more[n];
    FindIs(all, key, if i < |ms| then i else |ms| + j);
  }

  lemma {:induction false} LookupAbsent(ms: seq<Member>, key: string)
    ensures Lookup(ms, key).None? <==> key !in Keys(ms)
  {
    var i := Find(ms, key);
    if i < |ms| {
      assert ms[i].key == key;
    }
  }

  lemma {:induction false} DistinctLast(ms: seq<Member>, m: Member)
    requires Distinct(ms + [m])
    ensures Distinct(ms) && Lookup(ms, m.key).None?
  {
    var all := ms + [m];
    assert all[|ms|] == m;
    assert forall i :: 0 <= i < |ms| ==> all[i] == ms[i];
    FindIs(ms, m.key, |ms|);
  }

  /** Distinct attributes: one member each, whether they are written or added. */
  lemma {:induction false} LookupTyped(attrs: seq<Attr>, key: string)
    requires Distinct(TypedMembers(attrs))
    ensures Lookup(TypedMembers(attrs), key) == LookupOps(None, AttrOps(attrs), key)
    decreases |attrs|
  {
    hide Typed;
    var ms := TypedMembers(attrs);
    if attrs == [] {
      assert ms == [] && AttrOps(attrs) == [];
    } else {
      var front, a := attrs[..|attrs| - 1], Last(attrs);
      var m := Member(a.name, Typed(a));
      assert ms == TypedMembers(front) + [m];
      assert forall i :: 0 <= i < |front| ==> TypedMembers(front)[i] == ms[i];
      LookupTyped(front, key);
      LookupJoin(TypedMembers(front), [m], key);
      FindIs([m], key, if a.name == key then 0 else 1);
      assert AttrOps(attrs)[..|attrs| - 1] == AttrOps(front);
      assert Last(AttrOps(attrs)) == Op(a.name, Typed(a), false);
      DistinctLast(TypedMembers(front), m);
    }
  }

  function SomeArray(vs: seq<Value>): Option<Value> { if vs == [] then None else Some(Arr(vs)) }

  /**
   * The header, the hosts and what is held back do not touch each other's keys, so it does not matter
   * in which order they come.
   */
  lemma {:induction false} LookupParts(start: Option<Value>, els: seq<Elem>, key: string)
    requires var (p, r) := (OpKeys(OpsOf(HeadElems(els))), OpKeys(OpsOf(LateElems(false, els))));
             p !! r && "hosts" !in p && "hosts" !in r
    ensures var (p, r) := (OpsOf(HeadElems(els)), OpsOf(LateElems(false, els)));
            && (key == "hosts" && start.None? ==> LookupOps(start, OpsOf(els), key) == SomeArray(HostValues(els)))
            && (key != "hosts" && key !in OpKeys(p) ==> LookupOps(start, OpsOf(els), key) == LookupOps(start, r, key))
            && (key != "hosts" && key !in OpKeys(r) ==> LookupOps(start, OpsOf(els), key) == LookupOps(start, p, key))
    decreases |els|
  {
    hide Convert, ArrayKey, Ops, OpsOf, HeaderOut, OpKeys, HeadElems, LateElems, HostValues, LookupOps, Joined, SomeArray;
    if els == [] {
      NoParts(start, key);
    } else {
      var front, el := els[..|els| - 1], Last(els);
      assert front + [el] == els;
      var p, r := HeadElems(front), LateElems(false, front);
      PartsStep(front, el);
      OpsGrow(front, els, el);
      OpsGrow(p, HeadElems(els), el);
      OpsGrow(r, LateElems(false, els), el);
      LookupParts(start, front, key);
      LookupOpsJoin(start, OpsOf(front), Ops(el), key);
      LookupOpsJoin(start, OpsOf(p), Ops(el), key);
      LookupOpsJoin(start, OpsOf(r), Ops(el), key);
      if el.name == "host" {
        HostAdded(front, el);
        OneOp(LookupOps(start, OpsOf(front), key), Op("hosts", Convert(el), true), key);
        SomeArrayIs(HostValues(front));
      } else if key !in OpKeys(Ops(el)) {
        LookupOpsAbsent(LookupOps(start, OpsOf(front), key), Ops(el), key);
        LookupOpsAbsent(LookupOps(start, OpsOf(p), key), Ops(el), key);
        LookupOpsAbsent(LookupOps(start, OpsOf(r), key), Ops(el), key);
      }
    }
  }

  lemma {:induction false} NoParts(start: Option<Value>, key: string)
    ensures LookupOps(start, OpsOf([]), key) == start && HeadElems([]) == LateElems(false, []) == []
    ensures SomeArray(HostValues([])) == None
  {
  }

  lemma {:induction false} SomeArrayIs(vs: seq<Value>)
    ensures SomeArray(vs) == if vs == [] then None else Some(Arr(vs))
  {
  }

  /** An element goes to the hosts, to the header, or is held back. */
  lemma {:induction false} PartsStep(front: seq<Elem>, el: Elem)
    ensures var (p, r, els) := (HeadElems(front), LateElems(false, front), front + [el]);
            if el.name == "host" then
              HeadElems(els) == p && LateElems(false, els) == r && Ops(el) == [Op("hosts", Convert(el), true)]
            else
              && HostValues(els) == HostValues(front)
              && ((HeadElems(els) == p + [el] && LateElems(false, els) == r) ||
                  (HeadElems(els) == p && LateElems(false, els) == r + [el]))
  {
    hide Convert, HeaderOut;
    assert (front + [el])[..|front|] == front;
    assert Last(front + [el]) == el;
    assert HeadElems(front) + [] == HeadElems(front) && LateElems(false, front) + [] == LateElems(false, front);
  }

  lemma {:induction false} OpsGrow(before: seq<Elem>, after: seq<Elem>, el: Elem)
    requires after == before || after == before + [el]
    ensures OpKeys(OpsOf(before)) <= OpKeys(OpsOf(after))
    ensures after == before + [el] ==>
              OpsOf(after) == OpsOf(before) + Ops(el) && OpKeys(OpsOf(after)) == OpKeys(OpsOf(before)) + OpKeys(Ops(el))
  {
    hide Ops;
    OpKeysJoin(OpsOf(before), Ops(el));
    assert (before + [el])[..|before|] == before;
    assert Last(before + [el]) == el;
    if after == before + [el] {
      assert OpsOf(after) == OpsOf(before) + Ops(el);
    }
  }

  lemma {:induction false} HostAdded(front: seq<Elem>, el: Elem)
    requires el.name == "host"
    ensures HostValues(front + [el]) == HostValues(front) + [Convert(el)]
    ensures SomeArray(HostValues(front + [el])) ==
            if HostValues(front) == [] then Some(Arr([Convert(el)])) else Some(Joined(Arr(HostValues(front)), Convert(el)))
  {
    hide Convert;
    assert (front + [el])[..|front|] == front;
    assert Last(front + [el]) == el;
    if HostValues(front) == [] {
      assert HostValues(front + [el]) == [Convert(el)];
    }
  }

  lemma {:induction false} OneOp(start: Option<Value>, o: Op, key: string)
    ensures LookupOps(start, [o], key) ==
            if o.key != key then start
            else if start.Some? then Some(Joined(start.value, o.value))
            else Some(if o.asArray then Arr([o.value]) else o.value)
  {
    assert [o][..0] == [];
    assert LookupOps(start, [], key) == start;
  }

  /** No key is used in two parts of the document, and no attribute is repeated. */
  ghost predicate NoCollision(attrs: seq<Attr>, els: seq<Elem>)
  {
    var (a, p, r) := (Keys(TypedMembers(attrs)), OpKeys(OpsOf(HeadElems(els))), OpKeys(OpsOf(LateElems(false, els))));
    && Distinct(TypedMembers(attrs))
    && a !! p && a !! r && p !! r
    && "hosts" !in a && "hosts" !in p && "hosts" !in r
  }

  /** The document laid out for streaming. */
  ghost function Streamed(attrs: seq<Attr>, els: seq<Elem>): seq<Member>
  {
    TypedMembers(attrs) + HeadMembers(els) + [Member("hosts", Arr(HostValues(els)))] + LateMembers(false, els)
  }

  /** What the streamed document has under a key: what the operations leave there, and `hosts` always. */
  lemma {:induction false} LookupStreamed(attrs: seq<Attr>, els: seq<Elem>, key: string)
    requires NoCollision(attrs, els)
    ensures Lookup(Streamed(attrs, els), key) ==
            if key == "hosts" && HostValues(els) == [] then Some(Arr([]))
            else LookupOps(LookupOps(None, AttrOps(attrs), key), OpsOf(els), key)
  {
    hide Convert, Ops, OpsOf, HeadElems, LateElems, HostValues, Apply, LookupOps, TypedMembers, AttrOps, Lookup, Distinct;
    var po, ro := OpsOf(HeadElems(els)), OpsOf(LateElems(false, els));
    var t := LookupOps(None, AttrOps(attrs), key);
    LookupTyped(attrs, key);
    LookupParts(t, els, key);
    var h := [Member("hosts", Arr(HostValues(els)))];
    LookupJoin(TypedMembers(attrs) + HeadMembers(els) + h, LateMembers(false, els), key);
    LookupJoin(TypedMembers(attrs) + HeadMembers(els), h, key);
    LookupJoin(TypedMembers(attrs), HeadMembers(els), key);
    NoMember(key);
    LookupApply([], po, key);
    LookupApply([], ro, key);
    LookupAbsent(TypedMembers(attrs), key);
    OneMember("hosts", Arr(HostValues(els)), key);
    if key !in OpKeys(po) {
      LookupOpsAbsent(None, po, key);
    } else {
      Present(po, key);
    }
    if key !in OpKeys(ro) {
      LookupOpsAbsent(t, ro, key);
      LookupOpsAbsent(None, ro, key);
    }
  }

  /**
   * The streamed document has the value of the converted tree under a key if and only if the containers
   * agree with their conversion on that key; `hosts` is always there.
   */
  lemma {:induction false} SameAsWhole(root: Elem, key: string)
    requires NoCollision(root.attrs, root.children)
    ensures Wraps(BatchOpsOf(root.children), OpsOf(root.children))
    ensures Lookup(Streamed(root.attrs, root.children), key) ==
            (if key == "hosts" && HostValues(root.children) == [] then Some(Arr([]))
             else Lookup(ChildMembers(root, |root.children|), key)) <==>
            Agree(BatchOpsOf(root.children), OpsOf(root.children), key)
  {
    hide Convert, OpsOf, BatchOpsOf, HostValues, Apply, LookupOps, ChildMembers, TypedMembers, AttrOps, Lookup, Distinct,
      Agree, Wraps, Streamed, HeadElems, LateElems;
    var els, ao := root.children, AttrOps(root.attrs);
    var t := LookupOps(None, ao, key);
    ChildrenAsOps(root, |els|);
    assert els[..|els|] == els;
    ApplyApply([], ao, BatchOpsOf(els));
    LookupApply([], ao + BatchOpsOf(els), key);
    NoMember(key);
    LookupOpsJoin(None, ao, BatchOpsOf(els), key);
    LookupStreamed(root.attrs, els, key);
    OpsOfWrap(els);
    AgreeExact(t, BatchOpsOf(els), OpsOf(els), key);
    LookupTyped(root.attrs, key);
    LookupAbsent(TypedMembers(root.attrs), key);
    OpsOfKeys(els);
    if t.Some? || (key == "hosts" && HostValues(els) == []) {
      AbsentAgree(BatchOpsOf(els), OpsOf(els), key);
    }
  }

  /** Every key is one of the header, of what is held back, or of the hosts. */
  lemma {:induction false} OpsOfKeys(els: seq<Elem>)
    ensures OpKeys(OpsOf(els)) <=
            OpKeys(OpsOf(HeadElems(els))) + OpKeys(OpsOf(LateElems(false, els))) +
            if HostValues(els) == [] then {} else {"hosts"}
  {
    hide Convert, Ops, HeaderOut, OpKeys;
    if els != [] {
      var front, el := els[..|els| - 1], Last(els);
      OpsOfKeys(front);
      assert front + [el] == els;
      PartsStep(front, el);
      OpsGrow(front, els, el);
      OpsGrow(HeadElems(front), HeadElems(els), el);
      OpsGrow(LateElems(false, front), LateElems(false, els), el);
      OneKey(Op("hosts", Convert(el), true));
    }
  }

  lemma {:induction false} OneKey(o: Op)
    ensures OpKeys([o]) == {o.key}
  {
    assert [o][0] == o;
  }

  lemma {:induction false} AbsentAgree(ops: seq<Op>, wrapped: seq<Op>, key: string)
    requires Wraps(ops, wrapped) && key !in OpKeys(wrapped)
    ensures Agree(ops, wrapped, key)
  {
    var i := First(ops, key);
    assert i < |ops| ==> WrapsOne(ops[i], wrapped[i]);
  }

  lemma {:induction false} Present(ops: seq<Op>, key: string)
    requires key in OpKeys(ops)
    ensures LookupOps(None, ops, key).Some?
    decreases |ops|
  {
    var front := ops[..|ops| - 1];
    if Last(ops).key != key {
      var i :| 0 <= i < |ops| && ops[i].key == key;
      assert front[i].key == key;
      Present(front, key);
    }
  }

  lemma {:induction false} NoMember(key: string)
    ensures Lookup([], key) == None
  {
  }

  lemma {:induction false} OneMember(name: string, v: Value, key: string)
    ensures Lookup([Member(name, v)], key) == if name == key then Some(v) else None
  {
    FindIs([Member(name, v)], key, if name == key then 0 else 1);
  }

  /**
   * Every run, streamed, against converting its whole tree at once. With the attributes first and no key
   * used twice, the document has the promised layout, and under each key the value that converting the
   * tree of everything that was reported gives, if and only if the containers agree on that key. There
   * is no other premise: text may come in pieces, and the run may end anywhere.
   */
  lemma {:induction false} StreamingIsBatch(es: seq<Event>, name: string, key: string)
    requires name !in {"script", "table", "elem"} && AttrsFirst(false, es)
    requires var w := Finish(Run(Initial(false), es)); NoCollision(w.attrs, w.done)
    ensures var w := Finish(Run(Initial(false), es));
            var whole := Convert(Elem(name, w.attrs, "", w.done));
            && Document(w) == Obj(Streamed(w.attrs, w.done))
            && whole.Obj?
            && Wraps(BatchOpsOf(w.done), OpsOf(w.done))
            && (Lookup(Document(w).members, key) ==
                (if key == "hosts" && HostValues(w.done) == [] then Some(Arr([])) else Lookup(whole.members, key)) <==>
                Agree(BatchOpsOf(w.done), OpsOf(w.done), key))
  {
    hide Run, Streamed, NoCollision, ChildMembers, Lookup, Finish, HostValues, AttrsFirst, Agree, Wraps, OpsOf, BatchOpsOf,
      HeaderAttrs;
    var w := Finish(Run(Initial(false), es));
    DocumentOf(es);
    HeaderHasAttrs(false, es);
    StreamedIs(w.attrs, w.done);
    SameAsWhole(Elem(name, w.attrs, "", w.done), key);
    ConvertRoot(name, w.attrs, w.done);
  }

  lemma {:induction false} StreamedIs(attrs: seq<Attr>, els: seq<Elem>)
    ensures Streamed(attrs, els) ==
            TypedMembers(attrs) + HeadMembers(els) + [Member("hosts", Arr(HostValues(els)))] + LateMembers(false, els)
  {
  }

  lemma {:induction false} ConvertRoot(name: string, attrs: seq<Attr>, els: seq<Elem>)
    requires name !in {"script", "table", "elem"}
    ensures var root := Elem(name, attrs, "", els); Convert(root) == Obj(ChildMembers(root, |els|))
  {
    hide ChildMembers;
  }
}
