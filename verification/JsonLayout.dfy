/** How the pieces the writer emits add up to one serialized object. */
module JsonLayout {
  import opened JsonGrammar
  import opened JsonQuoting
  import opened JsonDump
  import opened JsonConvert
  import opened JsonStream

  lemma {:induction false} MembersPrefix(ms: seq<Member>, more: seq<Member>, k: nat, indent: int, level: nat)
    requires k <= |ms|
    ensures MembersText(Obj(ms + more), k, indent, level) == MembersText(Obj(ms), k, indent, level)
    decreases k
  {
    hide Dump, Quoted, NewLine;
    if k > 0 {
      MembersPrefix(ms, more, k - 1, indent, level);
      assert (ms + more)[k - 1] == ms[k - 1];
    }
  }

  lemma {:induction false} ItemsPrefix(vs: seq<Value>, more: seq<Value>, k: nat, indent: int, level: nat)
    requires k <= |vs|
    ensures ItemsText(Arr(vs + more), k, indent, level) == ItemsText(Arr(vs), k, indent, level)
    decreases k
  {
    hide Dump, NewLine;
    if k > 0 {
      ItemsPrefix(vs, more, k - 1, indent, level);
      assert (vs + more)[k - 1] == vs[k - 1];
    }
  }

  lemma {:induction false} Breaks()
    ensures NewLine(2, 1) == "\n  " && NewLine(2, 2) == "\n    " && NewLine(2, 0) == "\n"
  {
    assert Spaces(2) == "  " && Spaces(4) == "    " && Spaces(0) == "";
  }

  function TopMember(m: Member): string { "  " + Quoted(m.key) + ": " + Dump(m.value, 2, 1) }

  lemma {:induction false} OpeningStep(ms: seq<Member>, m: Member)
    ensures Opening(ms + [m]) == Opening(ms) + ((if ms == [] then "" else ",\n") + TopMember(m))
  {
    hide Dump, Quoted, NewLine;
    var n := |ms|;
    var all := Obj(ms + [m]);
    MembersPrefix(ms, [m], n, 2, 0);
    Breaks();
    var text := Quoted(m.key) + Colon(2) + Dump(m.value, 2, 1);
    assert MemberText(all, n, 2, 0) == "\n  " + text by {
      assert all.members[n] == m;
      assert NewLine(2, 1) + Quoted(m.key) + Colon(2) + Dump(m.value, 2, 1) == NewLine(2, 1) + text;
    }
    assert MembersText(all, n + 1, 2, 0) ==
           MembersText(Obj(ms), n, 2, 0) + (if n > 0 then "," else "") + MemberText(all, n, 2, 0);
    assert "  " + text == TopMember(m);
    if n == 0 {
      assert MembersText(Obj(ms), 0, 2, 0) == "";
      assert "{" + ("" + "" + ("\n  " + text)) == "{\n" + ("" + ("  " + text));
    } else {
      assert "{" + (MembersText(Obj(ms), n, 2, 0) + "," + ("\n  " + text)) ==
             ("{" + MembersText(Obj(ms), n, 2, 0)) + (",\n" + ("  " + text));
    }
  }

  lemma {:induction false} HostsStep(hosts: seq<Value>, v: Value, comma: bool)
    ensures HostsText(hosts + [v], comma) ==
            HostsText(hosts, comma) +
            ((if hosts == [] then (if comma then ",\n" else "") + "  \"hosts\": [" + "\n" else ",\n") + "    " + Dump(v, 2, 2))
  {
    hide Dump, NewLine;
    var n := |hosts|;
    var all := Arr(hosts + [v]);
    ItemsPrefix(hosts, [v], n, 2, 1);
    Breaks();
    assert all.items[n] == v;
    var text := Dump(v, 2, 2);
    assert ItemText(all, n, 2, 1) == "\n    " + text;
    assert ItemsText(all, n + 1, 2, 1) == ItemsText(Arr(hosts), n, 2, 1) + (if n > 0 then "," else "") + ItemText(all, n, 2, 1);
    var front := (if comma then ",\n" else "") + "  \"hosts\": [";
    if n == 0 {
      assert ItemsText(Arr(hosts), 0, 2, 1) == "";
      assert front + ("" + "" + ("\n    " + text)) == "" + ((front + "\n") + "    " + text);
    } else {
      assert front + (ItemsText(Arr(hosts), n, 2, 1) + "," + ("\n    " + text)) ==
             (front + ItemsText(Arr(hosts), n, 2, 1)) + (",\n" + "    " + text);
    }
  }

  lemma {:induction false} HostsKey()
    ensures Quoted("hosts") == "\"hosts\""
  {
    hide Escaped;
    var n: string := [];
    var s := ['s'] + n;
    var ts := ['t'] + s;
    var sts := ['s'] + ts;
    var osts := ['o'] + sts;
    PlainFirst('s', n);
    PlainFirst('t', s);
    PlainFirst('s', ts);
    PlainFirst('o', sts);
    PlainFirst('h', osts);
    PlainNothing();
    assert ['h'] + osts == "hosts";
    assert "\"" + "hosts" + "\"" == "\"hosts\"";
  }

  lemma {:induction false} PlainNothing()
    ensures Escaped([]) == []
  {
  }

  lemma {:induction false} PlainFirst(c: char, s: string)
    requires 'a' <= c <= 'z'
    ensures Escaped([c] + s) == [c] + Escaped(s)
  {
    assert ([c] + s)[1..] == s;
  }

  /** Closing the array of hosts completes the member `hosts`. */
  lemma {:induction false} HostsClosed(ms: seq<Member>, hosts: seq<Value>)
    requires hosts != []
    ensures Opening(ms + [Member("hosts", Arr(hosts))]) == Opening(ms) + HostsText(hosts, ms != []) + "\n  ]"
  {
    hide NewLine, Quoted, Opening;
    OpeningStep(ms, Member("hosts", Arr(hosts)));
    HostsKey();
    Breaks();
    var text := ItemsText(Arr(hosts), |hosts|, 2, 1);
    assert Dump(Arr(hosts), 2, 1) == "[" + text + "\n  " + "]";
    var sep := if ms == [] then "" else ",\n";
    assert sep + ("  " + "\"hosts\"" + ": " + ("[" + text + "\n  " + "]")) == (sep + "  \"hosts\": [" + text) + "\n  ]";
    assert HostsText(hosts, ms != []) == sep + "  \"hosts\": [" + text;
    var before := Opening(ms);
    assert before + ((sep + "  \"hosts\": [" + text) + "\n  ]") == before + (sep + "  \"hosts\": [" + text) + "\n  ]";
  }

  /** The end of the document completes the object. */
  lemma {:induction false} DocumentClosed(ms: seq<Member>)
    requires ms != []
    ensures Opening(ms) + "\n}\n" == Dump(Obj(ms), 2, 0) + "\n"
  {
    hide NewLine, MembersText;
    Breaks();
    var text := MembersText(Obj(ms), |ms|, 2, 0);
    assert Dump(Obj(ms), 2, 0) == "{" + text + "\n" + "}";
    assert ("{" + text) + "\n}\n" == ("{" + text + "\n" + "}") + "\n";
  }

  lemma {:induction false} LinesStep(records: seq<Value>, r: Value)
    ensures Lines(records + [r]) == Lines(records) + (Dump(r, -1, 0) + "\n")
  {
    hide Dump;
    assert (records + [r])[..|records|] == records;
  }
}
