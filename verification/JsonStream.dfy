/**
 * What the streaming writer has to write, whatever sequence of XML events it mirrors: the state it
 * keeps between events, and the document or the records that come out.
 */
module JsonStream {
  import opened Options
  import opened JsonGrammar
  import opened JsonQuoting
  import opened JsonDump
  import opened JsonConvert

  datatype Event = StartElement(name: string) | Attribute(name: string, value: string) | Characters(text: string) | EndElement

  // ---------- Where a finished top-level element goes ----------

  /** One value to be stored under a key of the document. */
  datatype Op = Op(key: string, value: Value, asArray: bool)

  function Apply(ms: seq<Member>, ops: seq<Op>): seq<Member>
  {
    if ops == [] then ms
    else
      var o := ops[|ops| - 1];
      GroupAdd(Apply(ms, ops[..|ops| - 1]), o.key, o.value, o.asArray)
  }

  predicate IsPreamble(name: string) { name == "scaninfo" || name == "verbose" || name == "debugging" }

  /** What a top-level element adds to the document. */
  ghost function Ops(el: Elem): seq<Op>
  {
    if IsTransparent(el.name) then
      seq(|el.children|, i requires 0 <= i < |el.children| =>
        var c := el.children[i];
        Op(if ChildKey(el.name).Some? then ChildKey(el.name).value else KeyFor(c.name), Convert(c), true))
    else [Op(KeyFor(el.name), Convert(el), IsArrayElement(el.name))]
  }

  /**
   * Output so far. `header` holds the members written before any host, once they are written; in line
   * mode `records` holds all records and the header is empty.
   */
  datatype Sink = Sink(lines: bool, header: Option<seq<Member>>, hosts: seq<Value>, pending: seq<Member>, records: seq<Value>)

  ghost function TypedMembers(attrs: seq<Attr>): seq<Member>
  {
    seq(|attrs|, i requires 0 <= i < |attrs| => Member(attrs[i].name, Typed(attrs[i])))
  }

  /** The pending members that are, or are not, held back until the end. */
  function Held(pending: seq<Member>, runstats: bool): seq<Member>
  {
    if pending == [] then []
    else
      var m := pending[|pending| - 1];
      Held(pending[..|pending| - 1], runstats) + if (m.key == "runstats") == runstats then [m] else []
  }

  function SetAll(ms: seq<Member>, more: seq<Member>): seq<Member>
  {
    if more == [] then ms
    else
      var m := more[|more| - 1];
      SetMember(SetAll(ms, more[..|more| - 1]), m.key, m.value)
  }

  /** A record of line mode: members of an object are put after the type, other values under `value`. */
  function LineRecord(kind: string, v: Value): Value
  {
    var ms := [Member("type", Str(kind))];
    if v.Obj? then Obj(SetAll(ms, v.members)) else if v.Null? then Obj(ms) else Obj(SetMember(ms, "value", v))
  }

  ghost function ScanRecord(attrs: seq<Attr>, pending: seq<Member>): Value
  {
    Obj(SetAll(SetAll([Member("type", Str("scan"))], TypedMembers(attrs)), Held(pending, false)))
  }

  ghost function WriteHeader(s: Sink, attrs: seq<Attr>): Sink
  {
    if s.header.Some? then s
    else if s.lines then
      s.(header := Some([]), pending := Held(s.pending, true), records := s.records + [ScanRecord(attrs, s.pending)])
    else s.(header := Some(TypedMembers(attrs) + Held(s.pending, false)), pending := Held(s.pending, true))
  }

  /** A direct child of the root is complete. */
  ghost function Flush(s: Sink, attrs: seq<Attr>, el: Elem): Sink
  {
    var h := if IsPreamble(el.name) then s else WriteHeader(s, attrs);
    if el.name == "host" then
      if s.lines then h.(records := h.records + [LineRecord("host", Convert(el))]) else h.(hosts := h.hosts + [Convert(el)])
    else if s.lines && !IsPreamble(el.name) then h.(records := h.records + [LineRecord(el.name, Convert(el))])
    else
      var p := h.(pending := Apply(h.pending, Ops(el)));
      if el.name == "debugging" then WriteHeader(p, attrs) else p
  }

  // ---------- The writer between events ----------

  /**
   * `open` is the stack above the root; an element joins its parent when it ends. `attrs` are those of
   * the root, `done` the top-level elements completed so far, and `tail` the members written after the
   * header when a document is finished.
   */
  datatype Scan = Scan(finished: bool, started: bool, inRoot: bool, attrs: seq<Attr>, open: seq<Elem>, done: seq<Elem>,
                       sink: Sink, tail: seq<Member>)

  function Initial(lines: bool): Scan { Scan(false, false, false, [], [], [], Sink(lines, None, [], [], []), []) }

  function Last<T>(s: seq<T>): T
    requires s != []
  {
    s[|s| - 1]
  }

  /** The top of the stack ends and becomes the last child of the element below it. */
  function Closed(open: seq<Elem>): (r: seq<Elem>)
    requires |open| >= 2
    ensures |r| == |open| - 1
  {
    var parent := open[|open| - 2];
    open[..|open| - 2] + [parent.(children := parent.children + [Last(open)])]
  }

  /** The whole element under construction, with everything that is open in it ended. */
  function Collapsed(open: seq<Elem>): Elem
    requires open != []
    decreases |open|
  {
    if |open| == 1 then open[0] else Collapsed(Closed(open))
  }

  ghost function Complete(w: Scan, el: Elem): Scan
  {
    w.(open := [], done := w.done + [el], sink := Flush(w.sink, w.attrs, el))
  }

  /** The records of a value held back until the end of line mode, one per item of an array. */
  function TailRecords(pending: seq<Member>): seq<Value>
  {
    if pending == [] then []
    else
      var m := Last(pending);
      TailRecords(pending[..|pending| - 1]) +
      if m.value.Arr? then seq(|m.value.items|, i requires 0 <= i < |m.value.items| => LineRecord(m.key, m.value.items[i]))
      else [LineRecord(m.key, m.value)]
  }

  ghost function Finish(w: Scan): Scan
  {
    if w.finished then w
    else
      var c := if w.open == [] then w else Complete(w, Collapsed(w.open));
      var s := WriteHeader(c.sink, c.attrs);
      var f := c.(finished := true, inRoot := false);
      if s.lines then f.(sink := s.(pending := [], records := s.records + TailRecords(s.pending)))
      else f.(sink := s.(pending := []), tail := [Member("hosts", Arr(s.hosts))] + s.pending)
  }

  function NewElem(name: string): Elem { Elem(name, [], "", []) }

  ghost function Step(w: Scan, e: Event): Scan
  {
    if w.finished then w
    else
      match e
      case StartElement(name) =>
        if !w.inRoot then w.(inRoot := true, started := true) else w.(open := w.open + [NewElem(name)])
      case Attribute(name, value) =>
        if !w.inRoot then w
        else if w.open == [] then w.(attrs := w.attrs + [Attr(name, value)])
        else w.(open := w.open[|w.open| - 1 := Last(w.open).(attrs := Last(w.open).attrs + [Attr(name, value)])])
      case Characters(text) =>
        if w.open == [] then w
        else w.(open := w.open[|w.open| - 1 := Last(w.open).(text := Last(w.open).text + text)])
      case EndElement =>
        if !w.inRoot then w
        else if w.open == [] then Finish(w)
        else if |w.open| == 1 then Complete(w, w.open[0])
        else w.(open := Closed(w.open))
  }

  ghost function Run(w: Scan, es: seq<Event>): Scan
  {
    if es == [] then w else Step(Run(w, es[..|es| - 1]), Last(es))
  }

  // ---------- What is in the output ----------

  function Lines(records: seq<Value>): string
  {
    if records == [] then "" else Lines(records[..|records| - 1]) + (Dump(Last(records), -1, 0) + "\n")
  }

  /** The start of a document: the members written so far, without the end of the object. */
  function Opening(ms: seq<Member>): string
  {
    if ms == [] then "{\n" else "{" + MembersText(Obj(ms), |ms|, 2, 0)
  }

  function HostsText(hosts: seq<Value>, comma: bool): string
  {
    if hosts == [] then ""
    else (if comma then ",\n" else "") + "  \"hosts\": [" + ItemsText(Arr(hosts), |hosts|, 2, 1)
  }

  function Document(w: Scan): Value
  {
    Obj((if w.sink.header.Some? then w.sink.header.value else []) + w.tail)
  }

  /** The output before the end of the scan. */
  function SinkText(s: Sink): string
  {
    if s.lines then Lines(s.records)
    else if s.header.None? then ""
    else Opening(s.header.value) + HostsText(s.hosts, s.header.value != [])
  }

  function Emitted(w: Scan): string
  {
    if w.finished && !w.sink.lines then Dump(Document(w), 2, 0) + "\n" else SinkText(w.sink)
  }

  // ---------- Every value that is kept is well formed ----------

  ghost predicate AllValid(vs: seq<Value>) { forall i :: 0 <= i < |vs| ==> NumbersValid(vs[i]) }

  ghost predicate AllObjects(vs: seq<Value>) { forall i :: 0 <= i < |vs| ==> vs[i].Obj? }

  ghost predicate SinkValid(s: Sink)
  {
    && (s.header.Some? ==> MembersValid(s.header.value))
    && AllValid(s.hosts)
    && MembersValid(s.pending)
    && AllValid(s.records)
    && AllObjects(s.records)
  }

  lemma {:induction false} ApplyValid(ms: seq<Member>, ops: seq<Op>)
    requires MembersValid(ms) && forall i :: 0 <= i < |ops| ==> NumbersValid(ops[i].value)
    ensures MembersValid(Apply(ms, ops))
  {
    hide NumbersValid, GroupAdd, MembersValid;
    if ops != [] {
      ApplyValid(ms, ops[..|ops| - 1]);
      GroupAddValid(Apply(ms, ops[..|ops| - 1]), Last(ops).key, Last(ops).value, Last(ops).asArray);
    }
  }

  lemma {:induction false} OpsValid(el: Elem)
    ensures forall i :: 0 <= i < |Ops(el)| ==> NumbersValid(Ops(el)[i].value)
  {
    hide NumbersValid, Convert, ArrayKey;
    ConvertValid(el);
    forall i | 0 <= i < |el.children| ensures NumbersValid(Convert(el.children[i])) {
      ConvertValid(el.children[i]);
    }
  }

  lemma {:induction false} HeldValid(pending: seq<Member>, runstats: bool)
    requires MembersValid(pending)
    ensures MembersValid(Held(pending, runstats))
  {
    hide NumbersValid;
    if pending != [] {
      HeldValid(pending[..|pending| - 1], runstats);
    }
  }

  lemma {:induction false} SetAllValid(ms: seq<Member>, more: seq<Member>)
    requires MembersValid(ms) && MembersValid(more)
    ensures MembersValid(SetAll(ms, more))
  {
    hide NumbersValid, SetMember;
    if more != [] {
      SetAllValid(ms, more[..|more| - 1]);
      SetValid(SetAll(ms, more[..|more| - 1]), Last(more).key, Last(more).value);
    }
  }

  lemma {:induction false} TypedMembersValid(attrs: seq<Attr>)
    ensures MembersValid(TypedMembers(attrs))
  {
    hide NumbersValid, Typed;
    forall i | 0 <= i < |attrs| ensures NumbersValid(Typed(attrs[i])) {
      TypedValid(attrs[i]);
    }
  }

  lemma {:induction false} ObjValid(ms: seq<Member>)
    ensures NumbersValid(Obj(ms)) <==> MembersValid(ms)
    ensures MembersValid([])
  {
  }

  lemma {:induction false} KindValid(kind: string)
    ensures MembersValid([Member("type", Str(kind))])
  {
  }

  lemma {:induction false} LineRecordValid(kind: string, v: Value)
    requires NumbersValid(v)
    ensures NumbersValid(LineRecord(kind, v)) && LineRecord(kind, v).Obj?
  {
    hide NumbersValid, SetMember, MembersValid;
    var ms := [Member("type", Str(kind))];
    KindValid(kind);
    if v.Obj? {
      ObjValid(v.members);
      SetAllValid(ms, v.members);
      ObjValid(SetAll(ms, v.members));
    } else {
      SetValid(ms, "value", v);
      ObjValid(SetMember(ms, "value", v));
      ObjValid(ms);
    }
  }

  lemma {:induction false} ScanRecordValid(attrs: seq<Attr>, pending: seq<Member>)
    requires MembersValid(pending)
    ensures NumbersValid(ScanRecord(attrs, pending)) && ScanRecord(attrs, pending).Obj?
  {
    hide NumbersValid, MembersValid, SetAll, TypedMembers, Held;
    var ms := [Member("type", Str("scan"))];
    KindValid("scan");
    TypedMembersValid(attrs);
    HeldValid(pending, false);
    SetAllValid(ms, TypedMembers(attrs));
    SetAllValid(SetAll(ms, TypedMembers(attrs)), Held(pending, false));
    ObjValid(SetAll(SetAll(ms, TypedMembers(attrs)), Held(pending, false)));
  }

  lemma {:induction false} HeaderValid(s: Sink, attrs: seq<Attr>)
    requires SinkValid(s)
    ensures SinkValid(WriteHeader(s, attrs)) && WriteHeader(s, attrs).header.Some?
  {
    hide NumbersValid, Held, TypedMembers, ScanRecord;
    HeldValid(s.pending, true);
    HeldValid(s.pending, false);
    TypedMembersValid(attrs);
    ScanRecordValid(attrs, s.pending);
  }

  lemma {:induction false} FlushValid(s: Sink, attrs: seq<Attr>, el: Elem)
    requires SinkValid(s)
    ensures SinkValid(Flush(s, attrs, el))
  {
    hide NumbersValid, WriteHeader, Convert, Apply, Ops, LineRecord, MembersValid;
    HeaderValid(s, attrs);
    var h := if IsPreamble(el.name) then s else WriteHeader(s, attrs);
    assert h.lines == s.lines by { HeaderKeeps(s, attrs); }
    ConvertValid(el);
    LineRecordValid("host", Convert(el));
    LineRecordValid(el.name, Convert(el));
    OpsValid(el);
    ApplyValid(h.pending, Ops(el));
    HeaderValid(h.(pending := Apply(h.pending, Ops(el))), attrs);
  }

  lemma {:induction false} HeaderKeeps(s: Sink, attrs: seq<Attr>)
    ensures WriteHeader(s, attrs).lines == s.lines && WriteHeader(s, attrs).hosts == s.hosts
  {
  }

  lemma {:induction false} TailRecordsValid(pending: seq<Member>)
    requires MembersValid(pending)
    ensures AllValid(TailRecords(pending)) && AllObjects(TailRecords(pending))
  {
    hide LineRecord;
    if pending != [] {
      TailRecordsValid(pending[..|pending| - 1]);
      var m := Last(pending);
      if m.value.Arr? {
        forall i | 0 <= i < |m.value.items|
          ensures NumbersValid(LineRecord(m.key, m.value.items[i])) && LineRecord(m.key, m.value.items[i]).Obj?
        {
          LineRecordValid(m.key, m.value.items[i]);
        }
      } else {
        LineRecordValid(m.key, m.value);
      }
    }
  }

  /** What holds in every state of every run. */
  ghost predicate Sound(w: Scan)
  {
    && SinkValid(w.sink)
    && MembersValid(w.tail)
    && (w.finished ==> w.sink.header.Some? && w.open == [])
    && (w.finished && !w.sink.lines ==> w.tail != [])
    && (w.sink.hosts != [] ==> w.sink.header.Some?)
    && (!w.inRoot ==> w.open == [])
    && (!w.finished ==> w.tail == [])
  }

  lemma {:induction false} FlushHosts(s: Sink, attrs: seq<Attr>, el: Elem)
    requires s.hosts != [] ==> s.header.Some?
    ensures var r := Flush(s, attrs, el); (r.hosts != [] ==> r.header.Some?) && r.lines == s.lines
  {
    hide Apply, Ops, LineRecord, Convert, Held, TypedMembers, ScanRecord;
  }

  lemma {:induction false} CompleteSound(w: Scan, el: Elem)
    requires Sound(w) && !w.finished
    ensures Sound(Complete(w, el)) && Complete(w, el).sink.lines == w.sink.lines
  {
    hide SinkValid, Flush, MembersValid;
    FlushValid(w.sink, w.attrs, el);
    FlushHosts(w.sink, w.attrs, el);
  }

  lemma {:induction false} FinishSound(w: Scan)
    requires Sound(w)
    ensures Sound(Finish(w)) && Finish(w).finished && Finish(w).sink.lines == w.sink.lines
  {
    hide NumbersValid, Complete, Collapsed, WriteHeader, TailRecords, MembersValid;
    if !w.finished {
      if w.open != [] {
        CompleteSound(w, Collapsed(w.open));
      }
      var c := if w.open == [] then w else Complete(w, Collapsed(w.open));
      assert c.open == [] by { CompleteOpen(w); }
      HeaderValid(c.sink, c.attrs);
      HeaderKeeps(c.sink, c.attrs);
      var s := WriteHeader(c.sink, c.attrs);
      TailRecordsValid(s.pending);
      HostsMember(s.hosts, s.pending);
      ObjValid([]);
    }
  }

  lemma {:induction false} CompleteOpen(w: Scan)
    ensures w.open != [] ==> Complete(w, Collapsed(w.open)).open == []
  {
  }

  lemma {:induction false} HostsMember(hosts: seq<Value>, pending: seq<Member>)
    requires AllValid(hosts) && MembersValid(pending)
    ensures MembersValid([Member("hosts", Arr(hosts))] + pending)
  {
  }

  lemma {:induction false} StepSound(w: Scan, e: Event)
    requires Sound(w)
    ensures Sound(Step(w, e)) && Step(w, e).sink.lines == w.sink.lines
  {
    hide SinkValid, Finish, Complete, MembersValid;
    FinishSound(w);
    if !w.finished && |w.open| == 1 {
      CompleteSound(w, w.open[0]);
      CompleteNow(w);
    }
  }

  lemma {:induction false} CompleteNow(w: Scan)
    requires |w.open| == 1
    ensures Complete(w, w.open[0]).open == [] && Complete(w, w.open[0]).inRoot == w.inRoot
  {
  }

  lemma {:induction false} RunSound(lines: bool, es: seq<Event>)
    ensures Sound(Run(Initial(lines), es)) && Run(Initial(lines), es).sink.lines == lines
  {
    hide Step;
    if es != [] {
      RunSound(lines, es[..|es| - 1]);
      StepSound(Run(Initial(lines), es[..|es| - 1]), Last(es));
    }
  }

  // ---------- Interruption ----------

  /**
   * However the scan is interrupted, and whatever it has reported, balanced or not, finishing leaves
   * exactly one JSON text, and nothing comes after it.
   */
  lemma {:induction false} Interrupted(es: seq<Event>, more: seq<Event>)
    ensures var w := Finish(Run(Initial(false), es));
            && IsText(Emitted(w), RepairedValue(Document(w)))
            && Finish(w) == w
            && Run(w, more) == w
  {
    hide Run, IsText, Dump, RepairedValue, SinkValid;
    RunSound(false, es);
    var w0 := Run(Initial(false), es);
    FinishSound(w0);
    FinishedIsText(Finish(w0));
    FinishedStays(Finish(w0), more);
  }

  lemma {:induction false} FinishedIsText(w: Scan)
    requires Sound(w) && w.finished && !w.sink.lines
    ensures IsText(Emitted(w), RepairedValue(Document(w)))
  {
    hide IsText, Dump, RepairedValue, NumbersValid;
    var ms := w.sink.header.value + w.tail;
    assert MembersValid(ms);
    ObjValid(ms);
    DumpIsText(Document(w), 2, 0);
  }

  lemma {:induction false} FinishedStays(w: Scan, more: seq<Event>)
    requires w.finished
    ensures Run(w, more) == w && Finish(w) == w
  {
    if more != [] {
      FinishedStays(w, more[..|more| - 1]);
    }
  }

  // ---------- Line mode ----------

  /** Complete lines, each one the compact text of an object. */
  ghost predicate WholeLines(out: string, records: seq<Value>)
  {
    if records == [] then out == ""
    else
      exists k: nat ::
        && k < |out|
        && WholeLines(out[..k], records[..|records| - 1])
        && out[|out| - 1] == '\n'
        && OneLine(out[k..|out| - 1])
        && Last(records).Obj?
        && IsText(out[k..], RepairedValue(Last(records)))
  }

  lemma {:induction false} LinesWhole(records: seq<Value>)
    requires AllValid(records) && AllObjects(records)
    ensures WholeLines(Lines(records), records)
  {
    hide Dump, NumbersValid, IsText, RepairedValue, OneLine, WholeLines;
    if records == [] {
      NoLines();
    } else {
      var front := records[..|records| - 1];
      LinesWhole(front);
      CompactOneLine(Last(records), -1, 0);
      DumpIsText(Last(records), -1, 0);
      OneMoreLine(Lines(front), Dump(Last(records), -1, 0), records);
    }
  }

  lemma {:induction false} NoLines()
    ensures WholeLines("", [])
  {
  }

  lemma {:induction false} OneMoreLine(before: string, line: string, records: seq<Value>)
    requires records != [] && WholeLines(before, records[..|records| - 1]) && Last(records).Obj?
    requires OneLine(line) && IsText(line + "\n", RepairedValue(Last(records)))
    ensures WholeLines(before + (line + "\n"), records)
  {
    hide OneLine, IsText, RepairedValue;
    var out := before + (line + "\n");
    var k := |before|;
    assert out[..k] == before && out[k..] == line + "\n" && out[k..|out| - 1] == line;
  }

  // ---------- Adding under keys ----------

  lemma {:induction false} ApplyApply(ms: seq<Member>, ops: seq<Op>, more: seq<Op>)
    ensures Apply(Apply(ms, ops), more) == Apply(ms, ops + more)
    decreases |more|
  {
    hide GroupAdd;
    if more == [] {
      assert ops + more == ops;
    } else {
      var front := more[..|more| - 1];
      ApplyApply(ms, ops, front);
      assert (ops + more)[..|ops + more| - 1] == ops + front;
      assert Last(ops + more) == Last(more);
    }
  }

  lemma {:induction false} ApplyKeys(ms: seq<Member>, ops: seq<Op>)
    ensures Keys(Apply(ms, ops)) == Keys(ms) + OpKeys(ops)
    decreases |ops|
  {
    hide GroupAdd;
    if ops != [] {
      var front := ops[..|ops| - 1];
      ApplyKeys(ms, front);
      GroupAddKeys(Apply(ms, front), Last(ops).key, Last(ops).value, Last(ops).asArray);
      assert ops == front + [Last(ops)];
      OpKeysJoin(front, [Last(ops)]);
      assert OpKeys([Last(ops)]) == {Last(ops).key} by {
        assert [Last(ops)][0] == Last(ops);
      }
    }
  }

  function OpKeys(ops: seq<Op>): set<string> { set i | 0 <= i < |ops| :: ops[i].key }

  lemma {:induction false} OpKeysJoin(ops: seq<Op>, more: seq<Op>)
    ensures OpKeys(ops + more) == OpKeys(ops) + OpKeys(more)
  {
    var all := ops + more;
    forall k | k in OpKeys(ops) + OpKeys(more) ensures k in OpKeys(all) {
      if k in OpKeys(ops) {
        var i :| 0 <= i < |ops| && ops[i].key == k;
        assert all[i].key == k;
      } else {
        var i :| 0 <= i < |more| && more[i].key == k;
        assert all[|ops| + i].key == k;
      }
    }
  }

  lemma {:induction false} PreambleOps(els: seq<Elem>)
    requires forall i :: 0 <= i < |els| ==> IsPreamble(els[i].name)
    ensures "runstats" !in OpKeys(OpsOf(els))
  {
    hide Ops, IsPreamble;
    if els != [] {
      PreambleOps(els[..|els| - 1]);
      OpKeysJoin(OpsOf(els[..|els| - 1]), Ops(Last(els)));
      PreambleOp(Last(els));
    }
  }

  lemma {:induction false} PreambleOp(el: Elem)
    requires IsPreamble(el.name)
    ensures "runstats" !in OpKeys(Ops(el))
  {
    hide Convert;
    assert |Ops(el)| == 1 && Ops(el)[0].key == el.name;
  }

  lemma {:induction false} HeldNothing(ms: seq<Member>)
    requires "runstats" !in Keys(ms)
    ensures Held(ms, false) == ms && Held(ms, true) == []
  {
    if ms != [] {
      var front := ms[..|ms| - 1];
      assert ms[|ms| - 1].key in Keys(ms);
      KeysFront(ms);
      HeldNothing(front);
      assert ms == front + [Last(ms)];
    }
  }

  lemma {:induction false} KeysFront(ms: seq<Member>)
    requires ms != []
    ensures Keys(ms[..|ms| - 1]) <= Keys(ms)
  {
    var front := ms[..|ms| - 1];
    forall k | k in Keys(front) ensures k in Keys(ms) {
      var i :| 0 <= i < |front| && front[i].key == k;
      assert ms[i].key == k;
    }
  }

  lemma {:induction false} NoKeys()
    ensures Keys([]) == {}
  {
  }

  // ---------- What has been written, as a function of what was completed ----------

  ghost function OpsOf(els: seq<Elem>): seq<Op>
  {
    if els == [] then [] else OpsOf(els[..|els| - 1]) + Ops(Last(els))
  }

  ghost function HostValues(els: seq<Elem>): seq<Value>
  {
    if els == [] then [] else HostValues(els[..|els| - 1]) + if Last(els).name == "host" then [Convert(Last(els))] else []
  }

  /** The records of line mode that completed elements give at once. */
  ghost function RecordsOf(els: seq<Elem>): seq<Value>
  {
    if els == [] then []
    else RecordsOf(els[..|els| - 1]) + if IsPreamble(Last(els).name) then [] else [LineRecord(Last(els).name, Convert(Last(els)))]
  }

  /** Is the header out? What is not of the preamble is behind it, and `debugging` ends the preamble. */
  predicate HeaderOut(els: seq<Elem>)
  {
    els != [] && (HeaderOut(els[..|els| - 1]) || !IsPreamble(Last(els).name) || Last(els).name == "debugging")
  }

  /** The elements in the header: the preamble, as far as it came before the header was written. */
  function HeadElems(els: seq<Elem>): seq<Elem>
  {
    if els == [] then []
    else
      var front := els[..|els| - 1];
      HeadElems(front) + if !HeaderOut(front) && IsPreamble(Last(els).name) then [Last(els)] else []
  }

  /** The elements held back until the end: all but the hosts, or in line mode what came late of the preamble. */
  function LateElems(lines: bool, els: seq<Elem>): seq<Elem>
  {
    if els == [] then []
    else
      var front, el := els[..|els| - 1], Last(els);
      LateElems(lines, front) + if IsLate(lines, HeaderOut(front), el) then [el] else []
  }

  predicate IsLate(lines: bool, out: bool, el: Elem)
  {
    if lines then out && IsPreamble(el.name) else (out || !IsPreamble(el.name)) && el.name != "host"
  }

  ghost function HeadMembers(els: seq<Elem>): seq<Member> { Apply([], OpsOf(HeadElems(els))) }

  ghost function LateMembers(lines: bool, els: seq<Elem>): seq<Member> { Apply([], OpsOf(LateElems(lines, els))) }

  /** With the header written, if need be for the attributes `attrs`. */
  ghost function Headed(lines: bool, attrs: seq<Attr>, els: seq<Elem>): Sink
  {
    if lines then
      Sink(true, Some([]), [], LateMembers(true, els), [ScanRecord(attrs, HeadMembers(els))] + RecordsOf(els))
    else Sink(false, Some(TypedMembers(attrs) + HeadMembers(els)), HostValues(els), LateMembers(false, els), [])
  }

  /** What has been written once `els` are complete, if `attrs` were known when the header was written. */
  ghost function Written(lines: bool, attrs: seq<Attr>, els: seq<Elem>): Sink
  {
    if HeaderOut(els) then Headed(lines, attrs, els) else Sink(lines, None, [], HeadMembers(els), [])
  }

  lemma {:induction false} HeadMembersPlain(els: seq<Elem>)
    ensures Held(HeadMembers(els), false) == HeadMembers(els) && Held(HeadMembers(els), true) == []
  {
    hide Ops, IsPreamble, Keys, OpKeys, Apply;
    HeadIsPreamble(els);
    PreambleOps(HeadElems(els));
    ApplyKeys([], OpsOf(HeadElems(els)));
    NoKeys();
    HeldNothing(HeadMembers(els));
  }

  lemma {:induction false} HeadIsPreamble(els: seq<Elem>)
    ensures forall i :: 0 <= i < |HeadElems(els)| ==> IsPreamble(HeadElems(els)[i].name)
  {
    hide IsPreamble;
    if els != [] {
      HeadIsPreamble(els[..|els| - 1]);
    }
  }

  /** Before the header nothing is behind it. */
  lemma {:induction false} NothingBehind(lines: bool, els: seq<Elem>)
    requires !HeaderOut(els)
    ensures RecordsOf(els) == [] && HostValues(els) == [] && LateElems(lines, els) == [] && LateMembers(lines, els) == []
  {
    hide Convert, LineRecord;
    if els != [] {
      NothingBehind(lines, els[..|els| - 1]);
    }
  }

  /** Writing the header of what has been written. */
  lemma {:induction false} HeaderWritten(lines: bool, attrs: seq<Attr>, late: seq<Attr>, els: seq<Elem>)
    ensures WriteHeader(Written(lines, attrs, els), late) == Headed(lines, if HeaderOut(els) then attrs else late, els)
  {
    hide HeadMembers, LateMembers, RecordsOf, HostValues, ScanRecord, TypedMembers, Held, HeaderOut;
    HeadMembersPlain(els);
    if !HeaderOut(els) {
      NothingBehind(lines, els);
    }
  }

  lemma {:induction false} MembersAdded(lines: bool, els: seq<Elem>, el: Elem)
    ensures HeadMembers(els + [el]) ==
            if !HeaderOut(els) && IsPreamble(el.name) then Apply(HeadMembers(els), Ops(el)) else HeadMembers(els)
    ensures LateMembers(lines, els + [el]) ==
            if IsLate(lines, HeaderOut(els), el) then Apply(LateMembers(lines, els), Ops(el)) else LateMembers(lines, els)
    ensures RecordsOf(els + [el]) ==
            RecordsOf(els) + if IsPreamble(el.name) then [] else [LineRecord(el.name, Convert(el))]
    ensures HostValues(els + [el]) == HostValues(els) + if el.name == "host" then [Convert(el)] else []
    ensures HeaderOut(els + [el]) <==> HeaderOut(els) || !IsPreamble(el.name) || el.name == "debugging"
  {
    hide Ops, Convert, LineRecord, Apply, IsPreamble, IsLate;
    assert (els + [el])[..|els|] == els;
    assert Last(els + [el]) == el;
    var head, late := HeadElems(els), LateElems(lines, els);
    assert (head + [el])[..|head|] == head && (late + [el])[..|late|] == late;
    ApplyApply([], OpsOf(head), Ops(el));
    ApplyApply([], OpsOf(late), Ops(el));
    assert head + [] == head && late + [] == late;
  }

  /** One more element, which may make the writer write the header for the attributes known by then. */
  lemma {:induction false} FlushWritten(lines: bool, attrs: seq<Attr>, now: seq<Attr>, els: seq<Elem>, el: Elem)
    ensures Flush(Written(lines, attrs, els), now, el) ==
            Written(lines, if HeaderOut(els) then attrs else now, els + [el])
  {
    hide Written, Headed, WriteHeader, Convert, LineRecord, HeaderOut, Ops, Apply;
    MembersAdded(lines, els, el);
    HeaderWritten(lines, attrs, now, els);
    WrittenIs(lines, attrs, els);
    HeadedParts(lines, attrs, els);
    var a := if HeaderOut(els) then attrs else now;
    if IsPreamble(el.name) {
      FlushPreamble(lines, attrs, now, els, el);
    } else {
      FlushBehind(lines, a, els, el);
      WrittenIs(lines, a, els + [el]);
    }
  }

  lemma {:induction false} WrittenIs(lines: bool, attrs: seq<Attr>, els: seq<Elem>)
    ensures Written(lines, attrs, els) ==
            if HeaderOut(els) then Headed(lines, attrs, els) else Sink(lines, None, [], HeadMembers(els), [])
  {
  }

  lemma {:induction false} FlushBehind(lines: bool, a: seq<Attr>, els: seq<Elem>, el: Elem)
    requires !IsPreamble(el.name)
    ensures var h := Headed(lines, a, els);
            Headed(lines, a, els + [el]) ==
            if el.name == "host" then
              (if lines then h.(records := h.records + [LineRecord("host", Convert(el))])
               else h.(hosts := h.hosts + [Convert(el)]))
            else if lines then h.(records := h.records + [LineRecord(el.name, Convert(el))])
            else h.(pending := Apply(h.pending, Ops(el)))
  {
    hide Convert, LineRecord, IsPreamble, HeadMembers, LateMembers, RecordsOf, HostValues, HeaderOut, Ops, Apply,
      ScanRecord, TypedMembers;
    MembersAdded(lines, els, el);
    var r := LineRecord(el.name, Convert(el));
    var scan := ScanRecord(a, HeadMembers(els));
    assert [scan] + (RecordsOf(els) + [r]) == ([scan] + RecordsOf(els)) + [r];
    assert HostValues(els) + [] == HostValues(els);
  }

  lemma {:induction false} FlushPreamble(lines: bool, attrs: seq<Attr>, now: seq<Attr>, els: seq<Elem>, el: Elem)
    requires IsPreamble(el.name)
    ensures Flush(Written(lines, attrs, els), now, el) ==
            Written(lines, if HeaderOut(els) then attrs else now, els + [el])
  {
    hide Convert, LineRecord, HeadMembers, LateMembers, RecordsOf, HostValues, HeaderOut, Ops, Apply, ScanRecord,
      TypedMembers, Held;
    MembersAdded(lines, els, el);
    assert RecordsOf(els) + [] == RecordsOf(els) && HostValues(els) + [] == HostValues(els);
    if !HeaderOut(els) {
      HeadMembersPlain(els + [el]);
      NothingBehind(lines, els);
    }
  }

  /** The root's attributes known when the header was written, or until now. */
  ghost function HeaderAttrs(lines: bool, es: seq<Event>): seq<Attr>
  {
    if es == [] then []
    else
      var front := es[..|es| - 1];
      if Run(Initial(lines), front).sink.header.None? then Run(Initial(lines), es).attrs else HeaderAttrs(lines, front)
  }

  lemma {:induction false} HeaderAttrsNow(lines: bool, es: seq<Event>)
    ensures var w := Run(Initial(lines), es);
            w.sink.header.None? ==> HeaderAttrs(lines, es) == w.attrs
  {
    hide Step;
    if es != [] {
      HeaderStays(Run(Initial(lines), es[..|es| - 1]), Last(es));
    }
  }

  lemma {:induction false} HeaderStays(w: Scan, e: Event)
    ensures w.sink.header.Some? ==> Step(w, e).sink.header.Some?
  {
    hide Apply, Ops, Convert, LineRecord, Held, ScanRecord, TypedMembers, TailRecords, Collapsed;
  }

  lemma {:induction false} FinishEnds(w: Scan)
    ensures Finish(w).finished
  {
    hide Complete, WriteHeader, TailRecords, Collapsed;
  }

  /** In every run, what has been written depends on the attributes and the completed elements alone. */
  lemma {:induction false} SinkOfRun(lines: bool, es: seq<Event>)
    ensures var w := Run(Initial(lines), es);
            !w.finished ==> w.sink == Written(lines, HeaderAttrs(lines, es), w.done)
  {
    hide Flush, Finish, Written, HeaderOut;
    if es == [] {
      WrittenNothing(lines, HeaderAttrs(lines, es));
    } else {
      var front, e := es[..|es| - 1], Last(es);
      SinkOfRun(lines, front);
      HeaderAttrsNow(lines, front);
      var w := Run(Initial(lines), front);
      if !w.finished {
        WrittenHeader(lines, HeaderAttrs(lines, front), w.done);
        if !HeaderOut(w.done) {
          WrittenAny(lines, HeaderAttrs(lines, front), HeaderAttrs(lines, es), w.done);
        }
        if e.EndElement? && w.inRoot && w.open == [] {
          FinishEnds(w);
        } else if e.EndElement? && w.inRoot && |w.open| == 1 {
          FlushWritten(lines, HeaderAttrs(lines, front), w.attrs, w.done, w.open[0]);
        }
      }
    }
  }

  lemma {:induction false} WrittenNothing(lines: bool, attrs: seq<Attr>)
    ensures Written(lines, attrs, []) == Initial(lines).sink
  {
  }

  lemma {:induction false} WrittenHeader(lines: bool, attrs: seq<Attr>, els: seq<Elem>)
    ensures Written(lines, attrs, els).header.Some? <==> HeaderOut(els)
  {
    hide HeaderOut, HeadMembers, LateMembers, RecordsOf, HostValues, ScanRecord, TypedMembers;
  }

  lemma {:induction false} WrittenAny(lines: bool, attrs: seq<Attr>, other: seq<Attr>, els: seq<Elem>)
    requires !HeaderOut(els)
    ensures Written(lines, attrs, els) == Written(lines, other, els)
  {
    hide HeadMembers;
  }

  ghost function AllClosed(w: Scan): Scan
  {
    if w.open == [] then w else Complete(w, Collapsed(w.open))
  }

  /** The end of a run that was not finished yet. */
  lemma {:induction false} EndOf(lines: bool, es: seq<Event>)
    requires !Run(Initial(lines), es).finished
    ensures var w := Finish(Run(Initial(lines), es));
            var h := Headed(lines, HeaderAttrs(lines, es), w.done);
            && w.sink == h.(pending := [], records := w.sink.records)
            && (lines ==> w.sink.records == h.records + TailRecords(h.pending))
            && (!lines ==> w.sink.records == [] && w.tail == [Member("hosts", Arr(h.hosts))] + h.pending)
  {
    hide Run, Written, WriteHeader, Headed, Flush, TailRecords, Collapsed, HeaderOut, HeaderAttrs;
    var w, a := Run(Initial(lines), es), HeaderAttrs(lines, es);
    SinkOfRun(lines, es);
    HeaderAttrsNow(lines, es);
    WrittenHeader(lines, a, w.done);
    var c := AllClosed(w);
    assert c.attrs == w.attrs && c.done == if w.open == [] then w.done else w.done + [Collapsed(w.open)];
    if w.open != [] {
      FlushWritten(lines, a, w.attrs, w.done, Collapsed(w.open));
      MembersAdded(lines, w.done, Collapsed(w.open));
      assert c.sink == Written(lines, a, c.done);
    }
    HeaderWritten(lines, a, c.attrs, c.done);
    HeadedParts(lines, a, c.done);
  }

  lemma {:induction false} HeadedParts(lines: bool, attrs: seq<Attr>, els: seq<Elem>)
    ensures Headed(lines, attrs, els).lines == lines && (!lines ==> Headed(lines, attrs, els).records == [])
  {
    hide HeadMembers, LateMembers, RecordsOf, HostValues, ScanRecord, TypedMembers;
  }

  /** Whether the scan had ended or is interrupted, the end is that of a run that was not finished yet. */
  lemma {:induction false} Unfinished(lines: bool, es: seq<Event>) returns (front: seq<Event>)
    ensures !Run(Initial(lines), front).finished
    ensures Finish(Run(Initial(lines), es)) == Finish(Run(Initial(lines), front))
    ensures HeaderAttrs(lines, es) == HeaderAttrs(lines, front)
  {
    hide Step, Finish;
    front := es;
    if Run(Initial(lines), es).finished {
      var before := es[..|es| - 1];
      front := Unfinished(lines, before);
      var w := Run(Initial(lines), before);
      StepEnds(w, Last(es));
      HeaderAttrsNow(lines, before);
      RunSound(lines, before);
      assert w.finished ==> w.sink.header.Some?;
    }
  }

  /** Nothing but the end of the root finishes a run, and it stays finished. */
  lemma {:induction false} StepEnds(w: Scan, e: Event)
    requires Step(w, e).finished
    ensures Finish(Step(w, e)) == Finish(w) && Step(w, e).attrs == w.attrs
  {
    hide WriteHeader, TailRecords, Collapsed, Flush;
  }

  // ---------- Line mode, and the document ----------

  /**
   * After every event of line mode the output is whole lines: the record of the scan, with the
   * attributes and the preamble before it, then one record for each completed element that is not of
   * the preamble, in order of arrival.
   */
  lemma {:induction false} LineModeInOrder(es: seq<Event>)
    ensures var w := Run(Initial(true), es);
            && WholeLines(Emitted(w), w.sink.records)
            && (!w.finished ==>
                  w.sink.records ==
                  if HeaderOut(w.done) then [ScanRecord(HeaderAttrs(true, es), HeadMembers(w.done))] + RecordsOf(w.done)
                  else [])
            && (!HeaderOut(w.done) ==> RecordsOf(w.done) == [])
  {
    hide WholeLines, Lines, Sound, Run, SinkValid, ScanRecord, HeadMembers, LateMembers, RecordsOf, HeaderOut;
    RunSound(true, es);
    var w := Run(Initial(true), es);
    assert SinkValid(w.sink) by { SoundSink(w); }
    SinkRecords(w.sink);
    LinesWhole(w.sink.records);
    SinkOfRun(true, es);
    if !HeaderOut(w.done) {
      NothingBehind(true, w.done);
    }
  }

  lemma {:induction false} SoundSink(w: Scan)
    requires Sound(w)
    ensures SinkValid(w.sink)
  {
  }

  lemma {:induction false} SinkRecords(s: Sink)
    requires SinkValid(s)
    ensures AllValid(s.records) && AllObjects(s.records)
  {
  }

  /**
   * At the end of every run of line mode the records are that of the scan, those of all elements in
   * order, also of those still open, and those of what came late of the preamble.
   */
  lemma {:induction false} LineModeFinished(es: seq<Event>)
    ensures var w := Finish(Run(Initial(true), es));
            w.sink.records == [ScanRecord(HeaderAttrs(true, es), HeadMembers(w.done))] + RecordsOf(w.done) +
                              TailRecords(LateMembers(true, w.done))
  {
    hide Run, Finish, ScanRecord, HeadMembers, LateMembers, RecordsOf, TailRecords, HeaderAttrs;
    var front := Unfinished(true, es);
    EndOf(true, front);
  }

  /**
   * The document of every run, however it ends: the attributes, the preamble, the hosts in order of
   * arrival, and the other elements grouped by key in order of first appearance.
   */
  lemma {:induction false} DocumentOf(es: seq<Event>)
    ensures var w := Finish(Run(Initial(false), es));
            Document(w) == Obj(TypedMembers(HeaderAttrs(false, es)) + HeadMembers(w.done) +
                               [Member("hosts", Arr(HostValues(w.done)))] + LateMembers(false, w.done))
  {
    hide Run, Finish, TypedMembers, HeadMembers, LateMembers, HostValues, HeaderAttrs;
    var front := Unfinished(false, es);
    EndOf(false, front);
    var w := Finish(Run(Initial(false), es));
    var ms, hosts, late := TypedMembers(HeaderAttrs(false, es)) + HeadMembers(w.done), HostValues(w.done),
      LateMembers(false, w.done);
    assert ms + ([Member("hosts", Arr(hosts))] + late) == ms + [Member("hosts", Arr(hosts))] + late;
  }

  /** Were the root's attributes all reported before its first child was complete? */
  ghost predicate AttrsFirst(lines: bool, es: seq<Event>)
  {
    es == [] ||
    var w := Run(Initial(lines), es[..|es| - 1]);
    && AttrsFirst(lines, es[..|es| - 1])
    && (Last(es).Attribute? && w.inRoot && w.open == [] && !w.finished ==> w.done == [])
  }

  /** Then the header has all of them. */
  lemma {:induction false} HeaderHasAttrs(lines: bool, es: seq<Event>)
    requires AttrsFirst(lines, es)
    ensures HeaderAttrs(lines, es) == Run(Initial(lines), es).attrs
    ensures HeaderAttrs(lines, es) == Finish(Run(Initial(lines), es)).attrs
  {
    hide Written, Finish, Flush;
    if es != [] {
      var front := es[..|es| - 1];
      HeaderHasAttrs(lines, front);
      var w := Run(Initial(lines), front);
      if w.sink.header.Some? && !w.finished {
        SinkOfRun(lines, front);
        WrittenHeader(lines, HeaderAttrs(lines, front), w.done);
      }
      FinishKeepsAttrs(w);
    }
    FinishKeepsAttrs(Run(Initial(lines), es));
  }

  lemma {:induction false} FinishKeepsAttrs(w: Scan)
    ensures Finish(w).attrs == w.attrs
  {
    hide WriteHeader, TailRecords, Collapsed, Flush;
  }
}
