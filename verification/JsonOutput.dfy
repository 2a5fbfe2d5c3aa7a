/** The writing half of the streaming writer: what it emits, piece by piece. */
module JsonOutput {
  import opened Options
  import opened JsonGrammar
  import opened JsonQuoting
  import opened JsonDump
  import opened JsonConvert
  import opened JsonStream
  import opened JsonLayout
  import opened JsonElements

  /** `out` is what has been emitted; `sink` is what it has to say. */
  class Output {
    const lines: bool
    var headerWritten: bool
    var hostsOpen: bool
    var wroteAHost: bool
    var needComma: bool
    var pending: seq<Member>
    var out: string
    ghost var sink: Sink

    constructor (lines: bool)
      ensures Valid() && this.lines == lines && sink == Initial(lines).sink && out == ""
    {
      this.lines := lines;
      headerWritten, hostsOpen, wroteAHost, needComma := false, false, false, false;
      pending, out := [], "";
      sink := Initial(lines).sink;
    }

    ghost predicate Valid()
      reads this
    {
      && lines == sink.lines
      && headerWritten == sink.header.Some?
      && pending == sink.pending
      && (sink.hosts != [] ==> sink.header.Some?)
      && (!lines ==>
            && hostsOpen == wroteAHost == (sink.hosts != [])
            && needComma == (sink.header.Some? && (sink.header.value != [] || sink.hosts != [])))
      && out == SinkText(sink)
    }

    method Emit(text: string)
      modifies this`out
      ensures out == old(out) + text
    {
      out := out + text;
    }

    method WriteTopMember(m: Member)
      modifies this`out, this`needComma
      ensures needComma && out == old(out) + ((if old(needComma) then ",\n" else "") + TopMember(m))
    {
      hide Dump, Quoted;
      var text := if needComma then ",\n" else "";
      var key := JsonQuote(m.key);
      var value := DumpValue(m.value, 2, 1);
      assert text + "  " + key + ": " + value == text + TopMember(m);
      Emit(text + "  " + key + ": " + value);
      needComma := true;
    }

    method EmitRecord(v: Value)
      requires lines && lines == sink.lines && out == SinkText(sink)
      modifies this`out, this`sink
      ensures sink == old(sink).(records := old(sink).records + [v]) && out == SinkText(sink)
    {
      hide Dump;
      var text := DumpValue(v, -1, 0);
      Emit(text + "\n");
      LinesStep(sink.records, v);
      sink := sink.(records := sink.records + [v]);
    }

    method WriteLineRecord(kind: string, v: Value)
      requires lines && lines == sink.lines && out == SinkText(sink)
      modifies this`out, this`sink
      ensures sink == old(sink).(records := old(sink).records + [LineRecord(kind, v)]) && out == SinkText(sink)
    {
      hide SinkText, SetMember;
      var obj := new JsonObject();
      obj.members := [Member("type", Str(kind))];
      if v.Obj? {
        SetMembers(obj, v.members);
      } else if !v.Null? {
        obj.Set("value", v);
      }
      EmitRecord(Obj(obj.members));
    }

    /** Adds a top-level value to those held back, under its key. */
    method BufferPending(key: string, value: Value, asArray: bool)
      modifies this`pending
      ensures pending == GroupAdd(old(pending), key, value, asArray)
    {
      var i: nat := 0;
      while i < |pending|
        invariant i <= |pending| && pending == old(pending) && forall j :: 0 <= j < i ==> pending[j].key != key
      {
        if pending[i].key == key {
          FindIs(pending, key, i);
          pending := pending[i := Member(key, Joined(pending[i].value, value))];
          return;
        }
        i := i + 1;
      }
      FindIs(pending, key, i);
      pending := pending + [Member(key, if asArray then Arr([value]) else value)];
    }

    method WriteHeader(root: JsonElement?, ghost attrs: seq<Attr>)
      requires Valid() && attrs == (if root == null then [] else root.attrs)
      modifies this
      ensures Valid() && sink == JsonStream.WriteHeader(old(sink), attrs) && headerWritten
    {
      hide Typed, GroupAdd, SetMember, ScanRecord, Dump;
      if headerWritten {
        return;
      }
      headerWritten := true;
      var list := if root == null then [] else root.attrs;
      if lines {
        LineHeader(list);
      } else {
        DocumentHeader(list);
      }
    }

    method LineHeader(attrs: seq<Attr>)
      requires lines && lines == sink.lines && pending == sink.pending && sink.header.None? && headerWritten && sink.hosts == []
      requires out == SinkText(sink)
      modifies this
      ensures Valid() && sink == JsonStream.WriteHeader(old(sink), attrs)
    {
      hide Typed, SetMember, SinkText, TypedMembers, SetAll, Held;
      var obj := new JsonObject();
      obj.members := [Member("type", Str("scan"))];
      SetAttributes(obj, attrs);
      var rest := SetPending(obj, pending);
      pending := rest;
      EmitRecord(Obj(obj.members));
      LinesText(sink, sink.(header := Some([]), pending := rest));
      sink := sink.(header := Some([]), pending := rest);
    }

    method DocumentHeader(attrs: seq<Attr>)
      requires !lines && !sink.lines && pending == sink.pending && sink.header.None? && headerWritten && sink.hosts == []
      requires !hostsOpen && !wroteAHost && !needComma && out == ""
      modifies this
      ensures Valid() && sink == JsonStream.WriteHeader(old(sink), attrs)
    {
      hide Typed, TypedMembers, Opening, TopMember, Held;
      Emit("{\n");
      OpeningEmpty();
      WriteAttributes(attrs);
      var rest := WritePending(TypedMembers(attrs));
      sink := sink.(header := Some(TypedMembers(attrs) + Held(pending, false)), pending := rest);
      pending := rest;
      NoHosts(sink.header.value != []);
      assert out + "" == out;
    }

    method WriteAttributes(attrs: seq<Attr>)
      requires out == Opening([]) && !needComma
      modifies this`out, this`needComma
      ensures out == Opening(TypedMembers(attrs)) && needComma == (TypedMembers(attrs) != [])
    {
      hide Typed, TypedMembers, Opening, TopMember;
      TypedPrefix(attrs, 0);
      for i := 0 to |attrs|
        invariant out == Opening(TypedMembers(attrs[..i])) && needComma == (TypedMembers(attrs[..i]) != [])
      {
        var v := TypedAttribute(attrs[i]);
        TypedPrefix(attrs, i + 1);
        OpeningStep(TypedMembers(attrs[..i]), Member(attrs[i].name, v));
        WriteTopMember(Member(attrs[i].name, v));
      }
      assert attrs[..|attrs|] == attrs;
    }

    /** Writes the pending members that belong in the header and returns the others. */
    method WritePending(ghost typed: seq<Member>) returns (rest: seq<Member>)
      requires out == Opening(typed) && needComma == (typed != [])
      modifies this`out, this`needComma
      ensures rest == Held(pending, true)
      ensures out == Opening(typed + Held(pending, false)) && needComma == (typed + Held(pending, false) != [])
    {
      hide Opening, TopMember, Held;
      rest := [];
      HeldPrefix(pending, 0);
      assert typed + [] == typed;
      for i := 0 to |pending|
        invariant rest == Held(pending[..i], true)
        invariant out == Opening(typed + Held(pending[..i], false)) && needComma == (typed + Held(pending[..i], false) != [])
      {
        HeldPrefix(pending, i + 1);
        if pending[i].key == "runstats" {
          rest := rest + [pending[i]];
        } else {
          ghost var before := typed + Held(pending[..i], false);
          OpeningStep(before, pending[i]);
          assert before + [pending[i]] == typed + Held(pending[..i + 1], false);
          WriteTopMember(pending[i]);
        }
      }
      assert pending[..|pending|] == pending;
    }

    method WriteHost(el: JsonElement, root: JsonElement?, ghost attrs: seq<Attr>)
      requires Valid() && el.Complete() && attrs == (if root == null then [] else root.attrs)
      modifies this
      ensures Valid()
      ensures var h := JsonStream.WriteHeader(old(sink), attrs);
              sink == if h.lines then h.(records := h.records + [LineRecord("host", Convert(el.tree))])
              else h.(hosts := h.hosts + [Convert(el.tree)])
    {
      hide Convert, LineRecord, Opening, HostsText, ScanRecord, TypedMembers, Held, Lines, Dump;
      var value := ConvertElement(el);
      WriteHeader(root, attrs);
      if lines {
        WriteLineRecord("host", value);
        wroteAHost := true;
        return;
      }
      ghost var before := sink;
      HostsStep(sink.hosts, value, sink.header.value != []);
      ghost var text := out;
      if !hostsOpen {
        Emit((if needComma then ",\n" else "") + "  \"hosts\": [");
        hostsOpen := true;
        needComma := true;
      }
      var item := DumpValue(value, 2, 2);
      Emit((if wroteAHost then ",\n" else "\n") + "    " + item);
      wroteAHost := true;
      sink := sink.(hosts := sink.hosts + [value]);
      HostEmitted(Opening(before.header.value), HostsText(before.hosts, before.header.value != []), before.hosts == [],
                  if before.header.value != [] then ",\n" else "", item, out);
    }

    /** A direct child of the root is complete. */
    method FlushSubtree(el: JsonElement, root: JsonElement?, ghost attrs: seq<Attr>)
      requires Valid() && el.Complete() && attrs == (if root == null then [] else root.attrs)
      modifies this
      ensures Valid() && sink == Flush(old(sink), attrs, el.tree)
    {
      hide Convert, LineRecord, SinkText, JsonStream.WriteHeader, Apply, Ops, IsTransparent, ChildKey, ArrayKey;
      HeaderKeeps(sink, attrs);
      if !IsPreamble(el.name) {
        WriteHeader(root, attrs);
      }
      if el.name == "host" {
        HeaderOnce(old(sink), attrs);
        WriteHost(el, root, attrs);
        return;
      }
      if lines && !IsPreamble(el.name) {
        var value := ConvertElement(el);
        WriteLineRecord(el.name, value);
        return;
      }
      BufferElement(el);
      if el.name == "debugging" {
        WriteHeader(root, attrs);
      }
    }

    method BufferElement(el: JsonElement)
      requires Valid() && el.Complete()
      modifies this
      ensures Valid() && sink == old(sink).(pending := Apply(old(sink).pending, Ops(el.tree)))
    {
      hide Convert, GroupAdd, Opening, HostsText, Lines, IsTransparent, ChildKey, ArrayKey;
      ghost var start := pending;
      ghost var ops := Ops(el.tree);
      if IsTransparent(el.name) {
        var key := ChildKey(el.name);
        assert ops[..0] == [];
        for i := 0 to |el.children|
          invariant |ops| == |el.children| && pending == Apply(start, ops[..i])
          invariant unchanged(this`headerWritten, this`hostsOpen, this`wroteAHost, this`needComma, this`out, this`sink)
          invariant el.Complete()
        {
          ChildTree(el, i);
          var child := el.children[i];
          var value := ConvertElement(child);
          BufferPending(if key.Some? then key.value else KeyFor(child.name), value, true);
          assert ops[..i + 1][..i] == ops[..i];
        }
        assert ops[..|el.children|] == ops;
      } else {
        var value := ConvertElement(el);
        BufferPending(KeyFor(el.name), value, IsArrayElement(el.name));
        assert ops[..0] == [];
        assert Apply(start, ops[..0]) == start;
      }
      sink := sink.(pending := pending);
    }

    /** The end of the output, in either mode. */
    method Close(root: JsonElement?, ghost attrs: seq<Attr>)
      requires Valid() && attrs == (if root == null then [] else root.attrs)
      modifies this
      ensures var s := JsonStream.WriteHeader(old(sink), attrs);
              && s.lines == lines
              && s.header.Some?
              && out == if lines then Lines(s.records + TailRecords(s.pending))
                 else Dump(Obj(s.header.value + ([Member("hosts", Arr(s.hosts))] + s.pending)), 2, 0) + "\n"
    {
      hide JsonStream.WriteHeader, Opening, HostsText, Lines, Dump, TailRecords;
      HeaderKeeps(sink, attrs);
      WriteHeader(root, attrs);
      if lines {
        CloseLines();
      } else {
        CloseDocument();
      }
    }

    method CloseLines()
      requires Valid() && lines
      modifies this
      ensures out == Lines(old(sink).records + TailRecords(old(sink).pending))
    {
      hide LineRecord, SinkText, ItemRecords, TailRecords;
      ghost var records := sink.records;
      TailPrefix(pending, 0);
      assert records + [] == records;
      for i := 0 to |pending|
        invariant pending == old(pending) && i <= |pending|
        invariant sink.lines && sink.records == records + TailRecords(pending[..i]) && out == SinkText(sink)
      {
        TailPrefix(pending, i + 1);
        var key, value := pending[i].key, pending[i].value;
        ghost var before := sink.records;
        if value.Arr? {
          WriteItems(key, value.items);
        } else {
          WriteLineRecord(key, value);
        }
      }
      assert pending[..|pending|] == pending;
      LinesOf(sink);
      pending := [];
    }

    /** One record for each item. */
    method WriteItems(key: string, items: seq<Value>)
      requires lines && sink.lines && out == SinkText(sink)
      modifies this`out, this`sink
      ensures sink == old(sink).(records := old(sink).records + ItemRecords(key, items)) && out == SinkText(sink)
    {
      hide LineRecord, SinkText;
      ghost var before := sink;
      assert before.records + ItemRecords(key, items[..0]) == before.records;
      for j := 0 to |items|
        invariant out == SinkText(sink) && sink == before.(records := before.records + ItemRecords(key, items[..j]))
      {
        WriteLineRecord(key, items[j]);
        ItemRecordsStep(key, items, j);
      }
      assert items[..|items|] == items;
    }

    method CloseDocument()
      requires Valid() && !lines && headerWritten
      modifies this
      ensures out ==
              Dump(Obj(old(sink).header.value + ([Member("hosts", Arr(old(sink).hosts))] + old(sink).pending)), 2, 0) + "\n"
    {
      hide Dump, Opening, HostsText, TopMember;
      ghost var header, hosts := sink.header.value, Member("hosts", Arr(sink.hosts));
      ghost var front := header + [hosts];
      if hostsOpen {
        HostsClosed(header, sink.hosts);
        Emit("\n  ]");
        hostsOpen := false;
      } else {
        OpeningStep(header, hosts);
        NoHosts(header != []);
        WriteTopMember(Member("hosts", Arr([])));
      }
      assert front + [] == front;
      assert pending[..0] == [];
      for i := 0 to |pending|
        invariant pending == old(pending) && i <= |pending|
        invariant out == Opening(front + pending[..i]) && needComma
      {
        OpeningStep(front + pending[..i], pending[i]);
        assert (front + pending[..i]) + [pending[i]] == front + pending[..i + 1];
        WriteTopMember(pending[i]);
      }
      assert front + pending[..|pending|] == header + ([hosts] + pending);
      DocumentClosed(header + ([hosts] + pending));
      Emit("\n}\n");
      pending := [];
    }
  }

  /** Copies members into an object, one by one. */
  method SetMembers(obj: JsonObject, ms: seq<Member>)
    modifies obj
    ensures obj.members == SetAll(old(obj.members), ms)
  {
    hide SetMember;
    ghost var start := obj.members;
    assert ms[..0] == [];
    for i := 0 to |ms|
      invariant obj.members == SetAll(start, ms[..i])
    {
      obj.Set(ms[i].key, ms[i].value);
      assert ms[..i + 1][..i] == ms[..i];
    }
    assert ms[..|ms|] == ms;
  }

  method SetAttributes(obj: JsonObject, attrs: seq<Attr>)
    modifies obj
    ensures obj.members == SetAll(old(obj.members), TypedMembers(attrs))
  {
    hide Typed, SetMember, TypedMembers, SetAll;
    ghost var start := obj.members;
    TypedPrefix(attrs, 0);
    SetAllStep(start, [], Member("", Null));
    for i := 0 to |attrs|
      invariant obj.members == SetAll(start, TypedMembers(attrs[..i]))
    {
      var v := TypedAttribute(attrs[i]);
      obj.Set(attrs[i].name, v);
      TypedPrefix(attrs, i + 1);
      SetAllStep(start, TypedMembers(attrs[..i]), Member(attrs[i].name, v));
    }
    assert attrs[..|attrs|] == attrs;
  }

  /** Sets the pending members that belong in the header and returns the others. */
  method SetPending(obj: JsonObject, pending: seq<Member>) returns (rest: seq<Member>)
    modifies obj
    ensures obj.members == SetAll(old(obj.members), Held(pending, false)) && rest == Held(pending, true)
  {
    hide SetMember, SetAll, Held;
    ghost var start := obj.members;
    rest := [];
    HeldPrefix(pending, 0);
    SetAllStep(start, [], Member("", Null));
    for i := 0 to |pending|
      invariant rest == Held(pending[..i], true) && obj.members == SetAll(start, Held(pending[..i], false))
    {
      HeldPrefix(pending, i + 1);
      if pending[i].key == "runstats" {
        rest := rest + [pending[i]];
      } else {
        obj.Set(pending[i].key, pending[i].value);
        SetAllStep(start, Held(pending[..i], false), pending[i]);
      }
    }
    assert pending[..|pending|] == pending;
  }

  lemma {:induction false} SetAllStep(ms: seq<Member>, more: seq<Member>, m: Member)
    ensures SetAll(ms, more + [m]) == SetMember(SetAll(ms, more), m.key, m.value)
    ensures SetAll(ms, []) == ms
  {
    hide SetMember;
    assert (more + [m])[..|more|] == more;
  }

  lemma {:induction false} TypedPrefix(attrs: seq<Attr>, k: nat)
    requires k <= |attrs|
    ensures TypedMembers(attrs[..0]) == []
    ensures k > 0 ==> TypedMembers(attrs[..k]) == TypedMembers(attrs[..k - 1]) + [Member(attrs[k - 1].name, Typed(attrs[k - 1]))]
  {
    hide Typed;
  }

  lemma {:induction false} HeldPrefix(pending: seq<Member>, k: nat)
    requires k <= |pending|
    ensures Held(pending[..0], true) == [] && Held(pending[..0], false) == []
    ensures k > 0 && pending[k - 1].key == "runstats" ==>
              Held(pending[..k], true) == Held(pending[..k - 1], true) + [pending[k - 1]] &&
              Held(pending[..k], false) == Held(pending[..k - 1], false)
    ensures k > 0 && pending[k - 1].key != "runstats" ==>
              Held(pending[..k], false) == Held(pending[..k - 1], false) + [pending[k - 1]] &&
              Held(pending[..k], true) == Held(pending[..k - 1], true)
  {
    if k > 0 {
      assert pending[..k][..k - 1] == pending[..k - 1];
    }
  }

  lemma {:induction false} OpeningEmpty()
    ensures Opening([]) == "{\n"
  {
  }

  lemma {:induction false} LinesText(s: Sink, t: Sink)
    requires s.lines && t.lines && s.records == t.records
    ensures SinkText(s) == SinkText(t)
  {
  }

  lemma {:induction false} LinesOf(s: Sink)
    requires s.lines
    ensures SinkText(s) == Lines(s.records)
  {
  }

  lemma {:induction false} NoHosts(comma: bool)
    ensures HostsText([], comma) == ""
  {
  }

  /** A header is written once. */
  lemma {:induction false} HeaderOnce(s: Sink, attrs: seq<Attr>)
    ensures JsonStream.WriteHeader(JsonStream.WriteHeader(s, attrs), attrs) == JsonStream.WriteHeader(s, attrs)
  {
    hide ScanRecord, TypedMembers, Held;
  }

  lemma {:induction false} HostEmitted(opening: string, hosts: string, first: bool, sep: string, item: string, out: string)
    requires out == if first then (opening + hosts) + (sep + "  \"hosts\": [") + ("\n" + "    " + item)
                    else (opening + hosts) + (",\n" + "    " + item)
    ensures out == opening + (hosts + ((if first then sep + "  \"hosts\": [" + "\n" else ",\n") + "    " + item))
  {
  }

  function ItemRecords(key: string, items: seq<Value>): seq<Value>
  {
    seq(|items|, i requires 0 <= i < |items| => LineRecord(key, items[i]))
  }

  lemma {:induction false} ItemRecordsStep(key: string, items: seq<Value>, j: nat)
    requires j < |items|
    ensures ItemRecords(key, items[..j + 1]) == ItemRecords(key, items[..j]) + [LineRecord(key, items[j])]
  {
    hide LineRecord;
  }

  lemma {:induction false} TailPrefix(pending: seq<Member>, k: nat)
    requires k <= |pending|
    ensures TailRecords(pending[..0]) == []
    ensures k > 0 ==>
              TailRecords(pending[..k]) ==
              TailRecords(pending[..k - 1]) +
              if pending[k - 1].value.Arr? then ItemRecords(pending[k - 1].key, pending[k - 1].value.items)
              else [LineRecord(pending[k - 1].key, pending[k - 1].value)]
  {
    hide LineRecord;
    if k > 0 {
      assert pending[..k][..k - 1] == pending[..k - 1];
    }
  }
}
