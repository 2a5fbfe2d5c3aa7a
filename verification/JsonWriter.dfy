/** The streaming writer, driven by the events of the XML writer. */
module JsonWriter {
  import opened Options
  import opened JsonGrammar
  import opened JsonDump
  import opened JsonConvert
  import opened JsonStream
  import opened JsonElements
  import opened JsonOutput

  /**
   * The elements that are open are on `stack`, the root at its bottom; each one above the root is the
   * last child of the one below. `done` are the elements that have ended and `model` is what the
   * writer stands for.
   */
  class Writer {
    const output: Output
    var finished: bool
    var root: JsonElement?
    var subtree: JsonElement?
    var stack: seq<JsonElement>
    ghost var done: set<JsonElement>
    ghost var model: Scan

    constructor (lines: bool)
      ensures Valid() && model == Initial(lines) && fresh(output) && stack == []
    {
      output := new Output(lines);
      finished, root, subtree, stack := false, null, null, [];
      done, model := {}, Initial(lines);
    }

    /** Is the element at `i`, above the root, what the model has there? */
    ghost predicate OpenAt(i: nat)
      requires 1 <= i < |stack| && |model.open| == |stack| - 1
      reads this, stack, done
    {
      var el := stack[i];
      if i + 1 == |stack| then Shows(el, el.children, model.open[i - 1])
      else
        && el.children != []
        && el.children[|el.children| - 1] == stack[i + 1]
        && Shows(el, el.children[..|el.children| - 1], model.open[i - 1])
    }

    /** Is `e` the element so far, with its `ended` children? */
    ghost predicate Shows(el: JsonElement, ended: seq<JsonElement>, e: Elem)
      reads this, el, done
    {
      (forall c :: c in ended ==> c in done) && e == Elem(el.name, el.attrs, el.text, Trees(ended))
    }

    ghost predicate AllEnded()
      reads this, stack, done
    {
      && (forall c :: c in done ==> c.repr <= done && c.Complete())
      && (forall el :: el in stack ==> el !in done)
      && (root != null ==> root !in done)
    }

    ghost predicate Capturing()
      reads this, root, stack, done
    {
      && AllEnded()
      && (root == null <==> !model.started)
      && (root != null ==> root.attrs == model.attrs)
      && (root == null ==> model.attrs == [] && !model.inRoot)
      && (stack == [] <==> !model.inRoot)
      && (stack != [] ==> stack[0] == root && |model.open| == |stack| - 1)
      && (stack == [] ==> model.open == [])
      && (forall i, j :: 0 <= i < j < |stack| ==> stack[i] != stack[j])
      && subtree == (if |stack| > 1 then stack[1] else null)
      && (forall i :: 1 <= i < |stack| ==> OpenAt(i))
    }

    ghost predicate Valid()
      reads this, output, root, stack, done
    {
      && finished == model.finished
      && output.lines == model.sink.lines
      && (finished ==> output.out == Emitted(model))
      && (!finished ==> Capturing() && output.Valid() && output.sink == model.sink && model.tail == [])
    }

    /** The output is always that of the model. */
    lemma Text()
      requires Valid()
      ensures output.out == Emitted(model)
    {
    }

    method StartElement(name: string)
      requires Valid()
      modifies this, stack
      ensures Valid() && model == Step(old(model), Event.StartElement(name))
      ensures forall el :: el in stack ==> el in old(stack) || fresh(el) || el == old(root)
      ensures root == old(root) || fresh(root)
    {
      if finished {
        return;
      }
      if stack == [] {
        if root == null {
          root := new JsonElement(name);
        }
        stack := [root];
        model := model.(inRoot := true, started := true);
        return;
      }
      PushElement(name);
    }

    method PushElement(name: string)
      requires Capturing() && stack != []
      modifies this`stack, this`subtree, this`model, stack
      ensures Capturing() && model == old(model).(open := old(model.open) + [NewElem(name)])
      ensures |stack| == |old(stack)| + 1 && stack[..|old(stack)|] == old(stack) && fresh(stack[|old(stack)|])
    {
      hide Emitted, Step;
      ghost var n := |stack|;
      assert stack[n - 1] in stack && stack[n - 1] !in done;
      if |stack| == 1 {
        subtree := new JsonElement(name);
        stack := stack + [subtree];
      } else {
        assert OpenAt(n - 1);
        var child := stack[|stack| - 1].AddChild(name);
        stack := stack + [child];
      }
      model := model.(open := model.open + [NewElem(name)]);
      assert AllEnded();
      forall i | 1 <= i < |stack| ensures OpenAt(i) {
        if i < n {
          assert old(OpenAt(i));
          assert stack[i] == old(stack[i]);
        }
      }
    }

    method AddAttribute(name: string, value: string)
      requires Valid()
      modifies this`model, stack
      ensures Valid() && model == Step(old(model), Event.Attribute(name, value))
    {
      hide Step, Emitted;
      AttributeStep(model, name, value);
      if finished || stack == [] {
        return;
      }
      ghost var top := |stack| - 1;
      assert top > 0 ==> OpenAt(top);
      assert stack[top] in stack && stack[top] !in done;
      stack[|stack| - 1].AddAttribute(name, value);
      model := Step(model, Event.Attribute(name, value));
      assert AllEnded();
      forall i | 1 <= i < |stack| ensures OpenAt(i) {
        assert old(OpenAt(i));
      }
    }

    method AddCharacters(text: string)
      requires Valid()
      modifies this`model, stack
      ensures Valid() && model == Step(old(model), Event.Characters(text))
    {
      if finished || |stack| < 2 {
        return;
      }
      assert OpenAt(|stack| - 1);
      var top := stack[|stack| - 1];
      top.text := top.text + text;
      model := Step(model, Event.Characters(text));
      assert AllEnded();
      forall i | 1 <= i < |stack| ensures OpenAt(i) {
        assert old(OpenAt(i));
      }
    }

    /** The top of the stack ends and joins the elements below it. */
    ghost method EndTop()
      requires Capturing() && |stack| >= 2
      modifies this`done, stack
      ensures AllEnded'() && stack[|stack| - 1] in done
      ensures stack[|stack| - 1].tree == model.open[|stack| - 2]
      ensures old(done) <= done
      ensures forall el :: el in stack ==>
                && el.name == old(el.name)
                && el.attrs == old(el.attrs)
                && el.text == old(el.text)
                && el.children == old(el.children)
      ensures forall i :: 1 <= i < |stack| ==> OpenAt(i)
    {
      var n := |stack|;
      var top := stack[n - 1];
      assert OpenAt(n - 1);
      top.End(done);
      done := done + {top};
      forall c | c in done ensures c.repr <= done && c.Complete() {
        if c != top {
          assert c in old(done);
        }
      }
      forall i | 1 <= i < n ensures OpenAt(i) {
        assert old(OpenAt(i));
      }
    }

    /** Like AllEnded, except for the top of the stack. */
    ghost predicate AllEnded'()
      requires stack != []
      reads this, stack, done
    {
      && (forall c :: c in done ==> c.repr <= done && c.Complete())
      && (forall i :: 0 <= i < |stack| - 1 ==> stack[i] !in done)
      && (root != null ==> root !in done)
    }

    /** The top of the stack is popped; a direct child of the root is written out. */
    method PopElement()
      requires Capturing() && |stack| >= 2 && output.Valid() && output.sink == model.sink
      modifies this`stack, this`subtree, this`model, this`done, stack, output
      ensures Capturing() && output.Valid() && output.sink == model.sink
      ensures stack == old(stack)[..|old(stack)| - 1] && root == old(root)
      ensures model == if |old(model).open| == 1 then JsonStream.Complete(old(model), old(model).open[0])
                       else old(model).(open := Closed(old(model).open))
    {
      hide Flush, Closed;
      EndTop();
      if |stack| == 2 {
        stack := stack[..1];
        FlushTop();
      } else {
        PopInner();
      }
    }

    /** Pops an element that has ended inside another one. */
    method PopInner()
      requires |stack| >= 3 && Opened() && AllEnded'() && stack[|stack| - 1] in done
      requires stack[|stack| - 1].tree == model.open[|stack| - 2]
      requires forall i :: 1 <= i < |stack| ==> OpenAt(i)
      modifies this`stack, this`model
      ensures stack == old(stack)[..|old(stack)| - 1] && model == old(model).(open := Closed(old(model).open))
      ensures Capturing()
    {
      hide Closed;
      ghost var n := |stack|;
      assert OpenAt(n - 2);
      JoinBelow(model, stack[n - 2], stack[n - 1]);
      stack := stack[..|stack| - 1];
      model := model.(open := Closed(model.open));
      assert forall el :: el in stack ==> exists i :: 0 <= i < n - 1 && stack[i] == el;
      assert AllEnded();
      forall i | 1 <= i < n - 1 ensures OpenAt(i) {
        assert old(OpenAt(i));
      }
    }

    /** Capturing, but for what is on the stack. */
    ghost predicate Opened()
      reads this, root
    {
      && root != null && model.started && model.inRoot && root.attrs == model.attrs
      && stack != [] && stack[0] == root && |model.open| == |stack| - 1
      && (forall i, j :: 0 <= i < j < |stack| ==> stack[i] != stack[j])
      && subtree == (if |stack| > 1 then stack[1] else null)
    }

    /** Writes out the direct child of the root that has just ended. */
    method FlushTop()
      requires |stack| == 1 && stack[0] == root && AllEnded() && subtree != null && subtree.Complete()
      requires |model.open| == 1 && subtree.tree == model.open[0] && model.inRoot && model.started && root.attrs == model.attrs
      requires output.Valid() && output.sink == model.sink
      modifies this`subtree, this`model, output
      ensures Capturing() && output.Valid() && output.sink == model.sink
      ensures model == JsonStream.Complete(old(model), old(model).open[0])
    {
      hide Flush;
      output.FlushSubtree(subtree, root, model.attrs);
      model := JsonStream.Complete(model, model.open[0]);
      subtree := null;
      assert AllEnded();
    }

    method EndElement()
      requires Valid()
      modifies this, stack, output
      ensures Valid() && model == Step(old(model), Event.EndElement)
      ensures (forall el :: el in stack ==> el in old(stack)) && (root == old(root) || root == null)
    {
      hide JsonStream.Finish, JsonStream.Complete;
      if finished || stack == [] {
        return;
      }
      if |stack| == 1 {
        stack := [];
        model := model.(inRoot := false);
        subtree := null;
        Finish();
        RootGone(old(model));
        return;
      }
      PopElement();
      CompleteKeeps(old(model));
    }

    /** Ends all elements above the root. */
    method CloseOpen()
      requires Capturing() && output.Valid() && output.sink == model.sink
      modifies this`stack, this`subtree, this`model, this`done, stack, output
      ensures Capturing() && output.Valid() && output.sink == model.sink && model == AllClosed(old(model))
      ensures |stack| <= 1 && stack == old(stack)[..|stack|]
    {
      hide Flush;
      ghost var start := model;
      while |stack| > 1
        invariant Capturing() && output.Valid() && output.sink == model.sink
        invariant |stack| <= |old(stack)| && stack == old(stack)[..|stack|]
        invariant if |stack| > 1 then model == start.(open := model.open) && Collapsed(model.open) == Collapsed(start.open)
                  else model == AllClosed(start)
        decreases |stack|
      {
        PopElement();
      }
    }

    /** Ends what is open, writes what was held back, and closes the output; a second call does nothing. */
    method Finish()
      requires Valid()
      modifies this, stack, output
      ensures Valid() && model == JsonStream.Finish(old(model)) && finished
      ensures old(finished) ==> output.out == old(output.out)
      ensures (forall el :: el in stack ==> el in old(stack)) && (root == old(root) || root == null)
    {
      hide Flush, JsonStream.WriteHeader, TailRecords, Dump;
      if finished {
        return;
      }
      ghost var start := model;
      finished := true;
      assert AllEnded();
      forall i | 1 <= i < |stack| ensures OpenAt(i) {
        assert old(OpenAt(i));
      }
      CloseOpen();
      stack := [];
      output.Close(root, model.attrs);
      FinishText(start);
      model := JsonStream.Finish(start);
      root := null;
    }
  }

  lemma {:induction false} AttributeStep(w: Scan, name: string, value: string)
    ensures Step(w, Event.Attribute(name, value)) ==
            if w.finished || !w.inRoot then w
            else if w.open == [] then w.(attrs := w.attrs + [Attr(name, value)])
            else w.(open := w.open[|w.open| - 1 := Last(w.open).(attrs := Last(w.open).attrs + [Attr(name, value)])])
  {
  }

  /** What the output says once the scan is finished. */
  lemma {:induction false} FinishText(w: Scan)
    requires !w.finished && w.tail == []
    ensures var c, f := AllClosed(w), JsonStream.Finish(w);
            var s := JsonStream.WriteHeader(c.sink, c.attrs);
            && f.finished
            && (s.header.Some? && s.lines == c.sink.lines ==>
                  f.sink.lines == c.sink.lines &&
                  Emitted(f) == if s.lines then Lines(s.records + TailRecords(s.pending))
                                else Dump(Obj(s.header.value + ([Member("hosts", Arr(s.hosts))] + s.pending)), 2, 0) + "\n")
  {
    hide JsonStream.WriteHeader, TailRecords, Dump, Lines, Flush, Collapsed;
  }

  /** The element that ended is the last child of the one below it. */
  lemma {:induction false} JoinBelow(w: Scan, below: JsonElement, top: JsonElement)
    ensures below.children != [] && below.children[|below.children| - 1] == top ==>
              Trees(below.children) == Trees(below.children[..|below.children| - 1]) + [top.tree]
    ensures |w.open| >= 2 ==>
              var r := Closed(w.open);
              && |r| == |w.open| - 1
              && r[..|r| - 1] == w.open[..|w.open| - 2]
              && r[|r| - 1] == w.open[|w.open| - 2].(children := w.open[|w.open| - 2].children + [w.open[|w.open| - 1]])
  {
  }

  /**
   * A scan that reports `es` and is then over, or is interrupted. A document is one JSON text; in line
   * mode every line is one.
   */
  method Mirror(lines: bool, es: seq<Event>) returns (out: string)
    ensures out == Emitted(JsonStream.Finish(Run(Initial(lines), es)))
    ensures !lines ==> IsText(out, RepairedValue(Document(JsonStream.Finish(Run(Initial(false), es)))))
    ensures lines ==> WholeLines(out, JsonStream.Finish(Run(Initial(true), es)).sink.records)
  {
    hide Step, JsonStream.Finish, IsText, WholeLines, Emitted, Document, RepairedValue;
    var w := new Writer(lines);
    assert es[..0] == [];
    assert Run(Initial(lines), []) == Initial(lines);
    for i := 0 to |es|
      invariant w.Valid() && w.model == Run(Initial(lines), es[..i])
      invariant fresh(w) && fresh(w.output) && (forall j :: 0 <= j < |w.stack| ==> fresh(w.stack[j]))
      invariant w.root != null ==> fresh(w.root)
    {
      assert es[..i + 1][..i] == es[..i] && es[..i + 1][i] == es[i];
      ghost var stack := w.stack;
      assert forall el :: el in stack ==> fresh(el);
      match es[i] {
        case StartElement(name) =>
          w.StartElement(name);
          assert forall el :: el in w.stack ==> fresh(el);
        case Attribute(name, value) =>
          w.AddAttribute(name, value);
          assert w.stack == stack;
        case Characters(text) =>
          w.AddCharacters(text);
          assert w.stack == stack;
        case EndElement =>
          w.EndElement();
          assert forall el :: el in w.stack ==> el in stack;
      }
      assert forall j :: 0 <= j < |w.stack| ==> w.stack[j] in w.stack;
    }
    assert es[..|es|] == es;
    w.Finish();
    w.Text();
    out := w.output.out;
    if lines {
      FinishedLines(es);
    } else {
      Interrupted(es, []);
    }
  }

  lemma {:induction false} FinishedLines(es: seq<Event>)
    ensures WholeLines(Emitted(JsonStream.Finish(Run(Initial(true), es))), JsonStream.Finish(Run(Initial(true), es)).sink.records)
  {
    hide Run, JsonStream.Finish, WholeLines, Lines, Sound, SinkValid;
    RunSound(true, es);
    var w := Run(Initial(true), es);
    FinishSound(w);
    SoundSink(JsonStream.Finish(w));
    SinkRecords(JsonStream.Finish(w).sink);
    LinesWhole(JsonStream.Finish(w).sink.records);
  }

  /** Ending the root finishes the scan. */
  lemma {:induction false} RootGone(w: Scan)
    requires !w.finished && w.inRoot && w.open == []
    ensures JsonStream.Finish(w.(inRoot := false)) == Step(w, Event.EndElement)
  {
    hide JsonStream.WriteHeader, TailRecords;
  }

  lemma {:induction false} CompleteKeeps(w: Scan)
    requires w.open != []
    ensures JsonStream.Complete(w, w.open[0]).finished == w.finished && JsonStream.Complete(w, w.open[0]).tail == w.tail
    ensures JsonStream.Complete(w, w.open[0]).sink.lines == w.sink.lines
  {
    hide JsonStream.WriteHeader, Apply, Ops, LineRecord, Convert;
    HeaderKeeps(w.sink, w.attrs);
    FlushLines(w.sink, w.attrs, w.open[0]);
  }

  lemma {:induction false} FlushLines(s: Sink, attrs: seq<Attr>, el: Elem)
    ensures Flush(s, attrs, el).lines == s.lines
  {
    hide Held, Apply, Ops, LineRecord, Convert, ScanRecord, TypedMembers;
  }
}
