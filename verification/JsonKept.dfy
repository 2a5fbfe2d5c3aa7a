/** What converting an element keeps of all that was reported for it, and under which keys. */
module JsonKept {
  import opened Options
  import opened JsonGrammar
  import opened JsonQuoting
  import opened JsonConvert
  import opened JsonStream

  // ---------- Attributes ----------

  /** Only numbers of numeric attributes become numbers, and a truth value only `timedout`; no text is lost. */
  lemma {:induction false} TypedExact(a: Attr)
    ensures Typed(a).Number? <==> IsNumeric(a.name) && IsNumber(a.value)
    ensures Typed(a).Bool? <==> a.name == "timedout" && (a.value == "true" || a.value == "false")
    ensures Typed(a).Number? || Typed(a).Bool? || Typed(a).Str?
    ensures Leaves(Typed(a)) == multiset{a.value}
  {
    hide IsNumber;
  }

  function AttrTexts(attrs: seq<Attr>, k: nat): multiset<string>
    requires k <= |attrs|
  {
    if k == 0 then multiset{} else AttrTexts(attrs, k - 1) + multiset{attrs[k - 1].value}
  }

  /** The values of the attributes of one name. */
  function AttrsNamed(attrs: seq<Attr>, k: nat, name: string): multiset<string>
    requires k <= |attrs|
  {
    if k == 0 then multiset{}
    else AttrsNamed(attrs, k - 1, name) + if attrs[k - 1].name == name then multiset{attrs[k - 1].value} else multiset{}
  }

  /** All values of attributes are kept, each under its name. */
  lemma {:induction false} AttrLeaves(attrs: seq<Attr>, k: nat, name: string)
    requires k <= |attrs|
    ensures Leaves(Obj(AttrMembers(attrs, k))) == AttrTexts(attrs, k)
    ensures Under(AttrMembers(attrs, k), name) == AttrsNamed(attrs, k, name)
    decreases k
  {
    hide Leaves, Under, GroupAdd, Typed;
    if k == 0 {
      LeavesOne(Null);
      UnderNothing(name);
    } else {
      var a := attrs[k - 1];
      AttrLeaves(attrs, k - 1, name);
      TypedExact(a);
      GroupAddLeaves(AttrMembers(attrs, k - 1), a.name, Typed(a), false);
      GroupAddUnder(AttrMembers(attrs, k - 1), a.name, Typed(a), false, name);
    }
  }

  // ---------- Where script output is kept ----------

  lemma {:induction false} NodeIs(el: Elem)
    ensures NseNode(el) == Convert(el)
  {
    hide NseChildren, ConvertScript, ChildMembers;
  }

  /** The values of the first `k` children that have this key, or have none. */
  ghost function ValuesOf(el: Elem, key: Option<string>, k: nat): seq<Value>
    requires k <= |el.children|
  {
    if k == 0 then []
    else
      var c := el.children[k - 1];
      ValuesOf(el, key, k - 1) + if AttrFind(c.attrs, "key") == key then [Convert(c)] else []
  }

  /** How values with the same key are kept: one as it is, more as an array, into which a first array is merged. */
  function Together(vs: seq<Value>): Option<Value>
  {
    if vs == [] then None
    else if |vs| == 1 then Some(vs[0])
    else Some(Arr((if vs[0].Arr? then vs[0].items else [vs[0]]) + vs[1..]))
  }

  lemma {:induction false} TogetherStep(vs: seq<Value>, v: Value)
    ensures Together(vs + [v]) == Some(if vs == [] then v else Joined(Together(vs).value, v))
  {
    if |vs| == 1 {
      assert (vs + [v])[1..] == [v] && [vs[0]] + [v] == [vs[0], v];
    } else if vs != [] {
      assert (vs + [v])[1..] == vs[1..] + [v];
      var head := if vs[0].Arr? then vs[0].items else [vs[0]];
      assert head + (vs[1..] + [v]) == (head + vs[1..]) + [v];
    }
  }

  lemma {:induction false} PartsAre(el: Elem, key: string, k: nat)
    requires k <= |el.children|
    ensures UnkeyedItems(el, k) == ValuesOf(el, None, k)
    ensures Lookup(KeyedMembers(el, k), key) == Together(ValuesOf(el, Some(key), k))
    ensures Distinct(KeyedMembers(el, k))
    decreases k
  {
    hide Convert, NseNode, GroupAdd, Joined, Find;
    if k > 0 {
      var c := el.children[k - 1];
      var value, before := NseNode(c), KeyedMembers(el, k - 1);
      PartsAre(el, key, k - 1);
      NodeIs(c);
      if Keyed(c) {
        var kc := AttrFind(c.attrs, "key").value;
        GroupAddLookup(before, kc, value, false, key);
        GroupAddKeys(before, kc, value, false);
        TogetherStep(ValuesOf(el, Some(key), k - 1), value);
        assert ValuesOf(el, None, k) == ValuesOf(el, None, k - 1);
        if key == kc {
          assert ValuesOf(el, Some(key), k) == ValuesOf(el, Some(key), k - 1) + [value];
        } else {
          assert ValuesOf(el, Some(key), k) == ValuesOf(el, Some(key), k - 1);
        }
      } else {
        assert ValuesOf(el, Some(key), k) == ValuesOf(el, Some(key), k - 1);
      }
    }
  }

  /**
   * Without keys script output is the list of its values. Otherwise it is an object that has under each key
   * the values of that key, in order, and under `_` the list of those without a key, if there are any.
   */
  lemma {:induction false} NseShape(el: Elem, key: string)
    ensures var (v, n) := (NseChildren(el), |el.children|);
            if forall i :: 0 <= i < n ==> !Keyed(el.children[i]) then v == Arr(ValuesOf(el, None, n))
            else
              && v.Obj? && Distinct(v.members)
              && Lookup(v.members, key) ==
                 if key == "_" && HasUnkeyed(el) then Some(Arr(ValuesOf(el, None, n))) else Together(ValuesOf(el, Some(key), n))
  {
    hide ValuesOf, KeyedMembers, UnkeyedItems, Together, SetMember, Find;
    PartsAre(el, key, |el.children|);
    NseChildrenIs(el);
    SetLookup(KeyedMembers(el, |el.children|), "_", Arr(UnkeyedItems(el, |el.children|)), key);
  }

  lemma {:induction false} SetLookup(ms: seq<Member>, key: string, value: Value, k: string)
    ensures Lookup(SetMember(ms, key, value), k) == if k == key then Some(value) else Lookup(ms, k)
    ensures Distinct(ms) ==> Distinct(SetMember(ms, key, value))
  {
    var r := SetMember(ms, key, value);
    var i := Find(ms, key);
    assert forall j :: 0 <= j < |ms| && j != i ==> r[j] == ms[j];
    FindIs(r, k, if k == key then i else if Find(ms, k) < |ms| then Find(ms, k) else |r|);
  }

  // ---------- Scripts ----------

  /** A script becomes an object; `data` is its structured output, else its text, else what an attribute of that name says. */
  lemma {:induction false} ScriptShape(el: Elem, key: string)
    requires el.name == "script"
    ensures Convert(el).Obj?
    ensures Lookup(Convert(el).members, key) ==
            if key == "data" && Structured(el) then Some(NseChildren(el))
            else if key == "data" && el.text != "" then Some(Str(el.text))
            else Lookup(AttrMembers(el.attrs, |el.attrs|), key)
  {
    hide NseChildren, Structured, AttrMembers, SetMember, Find;
    var ms := AttrMembers(el.attrs, |el.attrs|);
    SetLookup(ms, "data", NseChildren(el), key);
    SetLookup(ms, "data", Str(el.text), key);
  }

  /** The strings of the attributes, less any that `data` replaces, and those of the output. */
  lemma {:induction false} SetAccount(ms: seq<Member>, key: string, value: Value, texts: multiset<string>)
    requires Leaves(Obj(ms)) == texts
    ensures Leaves(Obj(SetMember(ms, key, value))) + Under(ms, key) == texts + Leaves(value)
  {
    hide Leaves, Under, SetMember;
    SetLeaves(ms, key, value);
  }

  /**
   * The value of a script has exactly the values of its attributes and the texts of its elems, except for those
   * overwritten under the key `_` of its tables or by `data`.
   */
  lemma {:induction false} ScriptLeaves(el: Elem)
    requires el.name == "script" && forall i :: 0 <= i < |el.children| ==> NseTree(el.children[i])
    ensures var (attrs, named) := (AttrTexts(el.attrs, |el.attrs|), AttrsNamed(el.attrs, |el.attrs|, "data"));
            var kept := Leaves(Convert(el));
            if Structured(el) then
              && kept + named + Lost(el) == attrs + Texts(el)
              && (kept + named == attrs + Texts(el) <==> NoClash(el))
            else kept + (if el.text == "" then multiset{} else named) ==
                 attrs + if el.text == "" then multiset{} else multiset{el.text}
  {
    hide Leaves, Under, SetMember, AttrMembers, ChildTexts, ChildLost, NseChildren, NoClash, Structured;
    var ms := AttrMembers(el.attrs, |el.attrs|);
    AttrLeaves(el.attrs, |el.attrs|, "data");
    LeavesOne(Str(el.text));
    SetAccount(ms, "data", Str(el.text), AttrTexts(el.attrs, |el.attrs|));
    SetAccount(ms, "data", NseChildren(el), AttrTexts(el.attrs, |el.attrs|));
    if Structured(el) {
      NseChildrenLeaves(el);
      LostExact(el);
      assert Lost(el) == ChildLost(el, |el.children|) && Texts(el) == ChildTexts(el, |el.children|);
      assert Convert(el) == Obj(SetMember(ms, "data", NseChildren(el)));
      Accounts(Leaves(Convert(el)), AttrsNamed(el.attrs, |el.attrs|, "data"), Lost(el), AttrTexts(el.attrs, |el.attrs|),
               Leaves(NseChildren(el)), Texts(el));
    }
  }

  lemma {:induction false} Accounts(kept: multiset<string>, named: multiset<string>, lost: multiset<string>,
                                    attrs: multiset<string>, output: multiset<string>, texts: multiset<string>)
    requires kept + named == attrs + output && output + lost == texts
    ensures kept + named + lost == attrs + texts
    ensures kept + named == attrs + texts <==> lost == multiset{}
  {
    assert attrs + output + lost == attrs + (output + lost);
    if kept + named == attrs + texts {
      assert lost + (kept + named) == multiset{} + (kept + named);
      Cancel(lost, multiset{}, kept + named);
    }
  }

  // ---------- Keys ----------

  /** Scripts before and after the hosts have keys of their own. */
  lemma ScriptKeysApart(a: string, b: string)
    requires ChildKey(a).Some?
    ensures IsTransparent(a) && (ChildKey(b) == ChildKey(a) ==> a == b)
    ensures KeyFor(b) == ChildKey(a).value ==> b == ChildKey(a).value
  {
  }

  /** A port, a name of a host and a script before the hosts are where the tests of the program look for them. */
  lemma KeysTested()
    ensures IsTransparent("ports") && ChildKey("ports") == None && IsArrayElement("port") && KeyFor("port") == "ports"
    ensures IsTransparent("hostnames") && ChildKey("hostnames") == None && KeyFor("hostname") == "hostnames"
    ensures ChildKey("prescript") == Some("prescripts") && ChildKey("postscript") == Some("postscripts")
    ensures IsTransparent("hostscript") && ChildKey("hostscript") == None && KeyFor("script") == "scripts"
    ensures KeyFor("host") == "hosts" && KeyFor("osmatch") == "osmatches" && KeyFor("cpe") == "cpe" && IsArrayElement("cpe")
    ensures KeyFor("status") == "status" && !IsArrayElement("status") && !IsTransparent("os")
  {
  }

  // ---------- All elements ----------

  /** Does the element have neither attributes nor, but for empty containers, children? */
  predicate OnlyText(el: Elem, k: nat)
    requires k <= |el.children|
  {
    el.attrs == [] && forall i :: 0 <= i < k ==> IsTransparent(el.children[i].name) && el.children[i].children == []
  }

  lemma {:induction false} NoMembers(el: Elem, k: nat)
    requires k <= |el.children|
    ensures ChildMembers(el, k) == [] <==> OnlyText(el, k)
    decreases k
  {
    hide Convert, ArrayKey, IsTransparent, Typed, Find;
    if k > 0 {
      var c := el.children[k - 1];
      NoMembers(el, k - 1);
      if c.children == [] {
        assert LiftedMembers(ChildMembers(el, k - 1), c, 0) == ChildMembers(el, k - 1);
      }
    }
  }

  /** The text of other elements is their value if there is nothing else, and otherwise under `_text`. */
  lemma {:induction false} ElementShape(el: Elem, key: string)
    requires el.name != "script" && el.name != "table" && el.name != "elem"
    ensures var (v, n) := (Convert(el), |el.children|);
            if el.text != "" && OnlyText(el, n) then v == Str(el.text)
            else
              && v.Obj?
              && Lookup(v.members, key) ==
                 if key == "_text" && el.text != "" then Some(Str(el.text)) else Lookup(ChildMembers(el, n), key)
  {
    hide ChildMembers, SetMember, Find, OnlyText;
    NoMembers(el, |el.children|);
    SetLookup(ChildMembers(el, |el.children|), "_text", Str(el.text), key);
  }

  /** All that was reported for an element: values of attributes, texts, and what its children report. */
  function Said(el: Elem): multiset<string>
    decreases el, 1, 0
  {
    AttrTexts(el.attrs, |el.attrs|) + OwnText(el) + ChildrenSaid(el, |el.children|)
  }

  /** The text of an elem counts also when it is empty. */
  function OwnText(el: Elem): multiset<string>
  {
    if el.name == "elem" || el.text != "" then multiset{el.text} else multiset{}
  }

  function ChildrenSaid(el: Elem, k: nat): multiset<string>
    requires k <= |el.children|
    decreases el, 0, k
  {
    if k == 0 then multiset{} else ChildrenSaid(el, k - 1) + Said(el.children[k - 1])
  }

  /**
   * What does not reach the value of an element: of an elem all but its text; of a table its attributes and its
   * text; of a script an attribute `data`, its text beside structure, and its children without structure; of
   * other elements what stands under `_text` if it has a text, and the attributes and texts of containers in it.
   */
  function Dropped(el: Elem): multiset<string>
    decreases el, 1, 0
  {
    var (attrs, n) := (AttrTexts(el.attrs, |el.attrs|), |el.children|);
    if el.name == "elem" then attrs + ChildrenSaid(el, n)
    else if el.name == "table" then attrs + OwnText(el) + NseDropped(el, n)
    else if el.name == "script" then
      if Structured(el) then AttrsNamed(el.attrs, |el.attrs|, "data") + OwnText(el) + NseDropped(el, n)
      else (if el.text == "" then multiset{} else AttrsNamed(el.attrs, |el.attrs|, "data")) + ChildrenSaid(el, n)
    else (if el.text == "" then multiset{} else AttrsNamed(el.attrs, |el.attrs|, "_text")) + PartsDropped(el, n)
  }

  /** Of script output: children under the key `_` beside others without a key, and what is dropped inside. */
  function NseDropped(el: Elem, k: nat): multiset<string>
    requires k <= |el.children|
    decreases el, 0, k
  {
    if k == 0 then multiset{}
    else
      var c := el.children[k - 1];
      NseDropped(el, k - 1) + if Overwritten(el, c) then Said(c) else Dropped(c)
  }

  /** Of the children of other elements. */
  function PartsDropped(el: Elem, k: nat): multiset<string>
    requires k <= |el.children|
    decreases el, 0, k
  {
    if k == 0 then multiset{}
    else
      var c := el.children[k - 1];
      PartsDropped(el, k - 1) +
      if IsTransparent(c.name) then AttrTexts(c.attrs, |c.attrs|) + OwnText(c) + LiftedDropped(el.text != "", c, |c.children|)
      else if el.text != "" && c.name == "_text" then Said(c)
      else Dropped(c)
  }

  /** Of the children of a container, in an element with text or without. */
  function LiftedDropped(hasText: bool, c: Elem, k: nat): multiset<string>
    requires k <= |c.children|
    decreases c, 0, k
  {
    if k == 0 then multiset{}
    else
      var d := c.children[k - 1];
      LiftedDropped(hasText, c, k - 1) + if hasText && ChildKey(c.name).None? && d.name == "_text" then Said(d) else Dropped(d)
  }

  /** What the text of an element overwrites. */
  function TextTakes(hasText: bool, ms: seq<Member>): multiset<string> { if hasText then Under(ms, "_text") else multiset{} }

  lemma {:induction false} PartStep(hasText: bool, ms: seq<Member>, name: string, value: Value, key: Option<string>,
                                    lost: multiset<string>, all: multiset<string>, dropped: multiset<string>,
                                    said: multiset<string>)
    requires Leaves(Obj(ms)) + lost == all + TextTakes(hasText, ms) && Leaves(value) + dropped == said && key != Some("_text")
    ensures var r := AddChild(ms, name, value, key);
            Leaves(Obj(r)) + (lost + if hasText && key.None? && name == "_text" then said else dropped) ==
            (all + said) + TextTakes(hasText, r)
  {
    hide Leaves, Under, GroupAdd;
    var k := if key.Some? then key.value else KeyFor(name);
    var asArray := key.Some? || IsArrayElement(name);
    assert k == "_text" <==> key.None? && name == "_text";
    hide ArrayKey;
    assert AddChild(ms, name, value, key) == GroupAdd(ms, k, value, asArray);
    GroupAddLeaves(ms, k, value, asArray);
    GroupAddUnder(ms, k, value, asArray, "_text");
    KeyedAccount(multiset{}, Leaves(Obj(ms)), lost, all, TextTakes(hasText, ms), Leaves(value), dropped, said);
  }

  lemma {:induction false} LiftedAccount(hasText: bool, ms: seq<Member>, c: Elem, k: nat, lost: multiset<string>,
                                         all: multiset<string>)
    requires k <= |c.children| && Leaves(Obj(ms)) + lost == all + TextTakes(hasText, ms)
    ensures var r := LiftedMembers(ms, c, k);
            Leaves(Obj(r)) + (lost + LiftedDropped(hasText, c, k)) == (all + ChildrenSaid(c, k)) + TextTakes(hasText, r)
    decreases c, 0, k
  {
    hide Leaves, TextTakes, Convert, AddChild, Said, Dropped;
    if k == 0 {
      assert lost + multiset{} == lost && all + multiset{} == all;
    } else {
      var d := c.children[k - 1];
      LiftedAccount(hasText, ms, c, k - 1, lost, all);
      Account(d);
      PartStep(hasText, LiftedMembers(ms, c, k - 1), d.name, Convert(d), ChildKey(c.name),
               lost + LiftedDropped(hasText, c, k - 1), all + ChildrenSaid(c, k - 1), Dropped(d), Said(d));
      Regroup(lost, LiftedDropped(hasText, c, k - 1),
              if hasText && ChildKey(c.name).None? && d.name == "_text" then Said(d) else Dropped(d));
      Regroup(all, ChildrenSaid(c, k - 1), Said(d));
    }
  }

  lemma Regroup(a: multiset<string>, b: multiset<string>, c: multiset<string>)
    ensures (a + b) + c == a + (b + c)
  {
  }

  lemma {:induction false} PartsAccount(el: Elem, k: nat)
    requires k <= |el.children|
    ensures var (ms, hasText) := (ChildMembers(el, k), el.text != "");
            var named := if hasText then AttrsNamed(el.attrs, |el.attrs|, "_text") else multiset{};
            Leaves(Obj(ms)) + (named + PartsDropped(el, k)) ==
            (AttrTexts(el.attrs, |el.attrs|) + ChildrenSaid(el, k)) + TextTakes(hasText, ms)
    decreases el, 0, k
  {
    hide Leaves, Convert, AddChild, Said, Dropped, IsTransparent, Under, AttrMembers, AttrTexts, AttrsNamed;
    var hasText, attrs := el.text != "", AttrTexts(el.attrs, |el.attrs|);
    var named := if hasText then AttrsNamed(el.attrs, |el.attrs|, "_text") else multiset{};
    if k == 0 {
      AttrLeaves(el.attrs, |el.attrs|, "_text");
    } else {
      var c := el.children[k - 1];
      var ms, lost, all := ChildMembers(el, k - 1), named + PartsDropped(el, k - 1), attrs + ChildrenSaid(el, k - 1);
      PartsAccount(el, k - 1);
      if IsTransparent(c.name) {
        LiftedAccount(hasText, ms, c, |c.children|, lost, all);
        var more := AttrTexts(c.attrs, |c.attrs|) + OwnText(c);
        SaidIs(c);
        Insert(Leaves(Obj(ChildMembers(el, k))), lost, LiftedDropped(hasText, c, |c.children|), all,
               ChildrenSaid(c, |c.children|), TextTakes(hasText, ChildMembers(el, k)), more);
        Regroup(named, PartsDropped(el, k - 1), more + LiftedDropped(hasText, c, |c.children|));
      } else {
        Account(c);
        PartStep(hasText, ms, c.name, Convert(c), None, lost, all, Dropped(c), Said(c));
        Regroup(named, PartsDropped(el, k - 1), if hasText && c.name == "_text" then Said(c) else Dropped(c));
      }
      Regroup(attrs, ChildrenSaid(el, k - 1), Said(c));
    }
  }

  lemma {:induction false} SaidIs(el: Elem)
    ensures Said(el) == AttrTexts(el.attrs, |el.attrs|) + OwnText(el) + ChildrenSaid(el, |el.children|)
  {
    hide AttrTexts, OwnText, ChildrenSaid;
  }

  lemma Insert(l: multiset<string>, lost: multiset<string>, d: multiset<string>, all: multiset<string>, said: multiset<string>,
               u: multiset<string>, more: multiset<string>)
    requires l + (lost + d) == (all + said) + u
    ensures l + (lost + (more + d)) == (all + (more + said)) + u
  {
    assert l + (lost + (more + d)) == (l + (lost + d)) + more;
    assert (all + (more + said)) + u == ((all + said) + u) + more;
  }

  lemma {:induction false} NseParts(el: Elem, k: nat)
    requires k <= |el.children|
    ensures Leaves(Arr(UnkeyedItems(el, k))) + Leaves(Obj(KeyedMembers(el, k))) + NseDropped(el, k) ==
            ChildrenSaid(el, k) + if HasUnkeyed(el) then Under(KeyedMembers(el, k), "_") else multiset{}
    decreases el, 0, k
  {
    hide Leaves, Said, Dropped, NseNode, Convert, Under, GroupAdd;
    if k == 0 {
      LeavesOne(Null);
      UnderNothing("_");
    } else {
      var c := el.children[k - 1];
      var node := NseNode(c);
      var takes := if HasUnkeyed(el) then Under(KeyedMembers(el, k - 1), "_") else multiset{};
      NseParts(el, k - 1);
      NodeIs(c);
      Account(c);
      if Keyed(c) {
        var key := AttrFind(c.attrs, "key").value;
        GroupAddLeaves(KeyedMembers(el, k - 1), key, node, false);
        GroupAddUnder(KeyedMembers(el, k - 1), key, node, false, "_");
        assert UnkeyedItems(el, k) == UnkeyedItems(el, k - 1);
        KeyedAccount(Leaves(Arr(UnkeyedItems(el, k))), Leaves(Obj(KeyedMembers(el, k - 1))), NseDropped(el, k - 1),
                     ChildrenSaid(el, k - 1), takes, Leaves(node), Dropped(c), Said(c));
      } else {
        LeavesAppend(UnkeyedItems(el, k - 1), node);
        UnkeyedAccount(Leaves(Arr(UnkeyedItems(el, k - 1))), Leaves(Obj(KeyedMembers(el, k))), NseDropped(el, k - 1),
                       ChildrenSaid(el, k - 1), takes, Leaves(node), Dropped(c), Said(c));
      }
    }
  }

  /** Script output at any element. */
  lemma {:induction false} NseAccount(el: Elem)
    ensures Leaves(NseChildren(el)) + NseDropped(el, |el.children|) == ChildrenSaid(el, |el.children|)
    decreases el, 1, 0
  {
    NseParts(el, |el.children|);
    NseTotal(el, NseDropped(el, |el.children|), ChildrenSaid(el, |el.children|));
  }

  lemma {:induction false} ScriptAccount(el: Elem)
    requires el.name == "script"
    ensures Leaves(ConvertScript(el)) + Dropped(el) == Said(el)
    decreases el, 1, 1
  {
    hide Leaves, Under, SetMember, AttrMembers, AttrTexts, AttrsNamed, NseChildren, ChildrenSaid, NseDropped, Structured;
    var attrs, named, n := AttrTexts(el.attrs, |el.attrs|), AttrsNamed(el.attrs, |el.attrs|, "data"), |el.children|;
    var v := Leaves(ConvertScript(el));
    AttrLeaves(el.attrs, |el.attrs|, "data");
    LeavesOne(Str(el.text));
    if Structured(el) {
      NseAccount(el);
      SetAccount(AttrMembers(el.attrs, |el.attrs|), "data", NseChildren(el), attrs);
      Accounts(v, named, NseDropped(el, n), attrs, Leaves(NseChildren(el)), ChildrenSaid(el, n));
      assert v + (named + OwnText(el) + NseDropped(el, n)) == (v + named + NseDropped(el, n)) + OwnText(el);
      assert attrs + OwnText(el) + ChildrenSaid(el, n) == (attrs + ChildrenSaid(el, n)) + OwnText(el);
    } else if el.text != "" {
      SetAccount(AttrMembers(el.attrs, |el.attrs|), "data", Str(el.text), attrs);
      assert v + (named + ChildrenSaid(el, n)) == (v + named) + ChildrenSaid(el, n);
    } else {
      assert v + (multiset{} + ChildrenSaid(el, n)) == attrs + ChildrenSaid(el, n);
    }
  }

  lemma {:induction false} OtherAccount(el: Elem)
    requires el.name != "script" && el.name != "table" && el.name != "elem"
    ensures Leaves(Convert(el)) + Dropped(el) == Said(el)
    decreases el, 1, 1
  {
    hide Leaves, Under, SetMember, AttrMembers, AttrTexts, AttrsNamed, NseChildren, ChildMembers, ChildrenSaid, NseDropped,
      PartsDropped, Structured, ConvertScript;
    var (attrs, n) := (AttrTexts(el.attrs, |el.attrs|), |el.children|);
    LeavesOne(Str(el.text));
    PartsAccount(el, n);
    var ms := ChildMembers(el, n);
    UnderNothing("_text");
    SetLeaves(ms, "_text", Str(el.text));
    if el.text == "" {
      assert Leaves(Convert(el)) + (multiset{} + PartsDropped(el, n)) == attrs + ChildrenSaid(el, n) + multiset{};
    } else if ms == [] {
      assert Leaves(Obj(ms)) == multiset{};
    } else {
      var named := AttrsNamed(el.attrs, |el.attrs|, "_text");
      var kept, lost := Leaves(Obj(ms)), named + PartsDropped(el, n);
      assert Convert(el) == Obj(SetMember(ms, "_text", Str(el.text)));
      assert attrs + multiset{el.text} + ChildrenSaid(el, n) == (attrs + ChildrenSaid(el, n)) + multiset{el.text};
      assert multiset{el.text} + kept + lost == (kept + lost) + multiset{el.text};
      MixedAccount(Leaves(Convert(el)), Under(ms, "_text"), kept, multiset{el.text}, lost, Said(el));
    }
  }

  /** Every text and every value of an attribute reaches the value of its element or is dropped as said, and as often. */
  lemma {:induction false} Account(el: Elem)
    ensures Leaves(Convert(el)) + Dropped(el) == Said(el)
    decreases el, 2, 0
  {
    hide Leaves, Under, SetMember, AttrMembers, AttrTexts, AttrsNamed, NseChildren, ChildMembers, ChildrenSaid, NseDropped,
      PartsDropped, Structured;
    var (attrs, n) := (AttrTexts(el.attrs, |el.attrs|), |el.children|);
    LeavesOne(Str(el.text));
    if el.name == "elem" {
    } else if el.name == "table" {
      NseAccount(el);
    } else if el.name == "script" {
      ScriptAccount(el);
    } else {
      OtherAccount(el);
    }
  }

  // ---------- Records ----------

  lemma {:induction false} SetAllLookup(ms: seq<Member>, more: seq<Member>, key: string)
    requires Distinct(more)
    ensures Lookup(SetAll(ms, more), key) == if Lookup(more, key).Some? then Lookup(more, key) else Lookup(ms, key)
    decreases |more|
  {
    hide SetMember, Find;
    if more != [] {
      var front, m := more[..|more| - 1], more[|more| - 1];
      SetAllLookup(ms, front, key);
      SetLookup(SetAll(ms, front), m.key, m.value, key);
      LookupLast(front, m, key);
      assert more == front + [m];
    } else {
      NoLookup(key);
    }
  }

  lemma NoLookup(key: string)
    ensures Lookup([], key) == None
  {
  }

  lemma {:induction false} LookupLast(front: seq<Member>, m: Member, key: string)
    requires Distinct(front + [m])
    ensures Lookup(front + [m], key) == if key == m.key then Some(m.value) else Lookup(front, key)
  {
    var ms := front + [m];
    assert forall j :: 0 <= j < |front| ==> ms[j] == front[j];
    assert ms[|front|] == m;
    FindIs(ms, key, if key == m.key then |front| else if Find(front, key) < |front| then Find(front, key) else |ms|);
  }

  /** A record has the members of its value, the type if they leave it, and `value` if the value is no object. */
  lemma {:induction false} LineRecordExact(kind: string, v: Value, key: string)
    requires v.Obj? ==> Distinct(v.members)
    ensures LineRecord(kind, v).Obj?
    ensures Lookup(LineRecord(kind, v).members, key) ==
            if v.Obj? && Lookup(v.members, key).Some? then Lookup(v.members, key)
            else if key == "type" then Some(Str(kind))
            else if key == "value" && !v.Obj? && !v.Null? then Some(v)
            else None
  {
    hide SetAll, SetMember, Find;
    var ms := [Member("type", Str(kind))];
    assert ms == [] + ms;
    LookupLast([], ms[0], key);
    NoLookup(key);
    if v.Obj? {
      SetAllLookup(ms, v.members, key);
    } else {
      SetLookup(ms, "value", v, key);
    }
  }

  /** The type of a record tells its kind if and only if no attribute or child of that name says otherwise. */
  lemma {:induction false} TypeKept(kind: string, v: Value)
    requires v.Obj? ==> Distinct(v.members)
    ensures Lookup(LineRecord(kind, v).members, "type") == Some(Str(kind)) <==>
            !v.Obj? || Lookup(v.members, "type") == None || Lookup(v.members, "type") == Some(Str(kind))
  {
    hide LineRecord, Find;
    LineRecordExact(kind, v, "type");
  }

  /** What is held back to the end and what is not, each in order. */
  lemma {:induction false} HeldExact(pending: seq<Member>, runstats: bool, m: Member)
    ensures m in Held(pending, runstats) <==> m in pending && (m.key == "runstats" <==> runstats)
    ensures |Held(pending, true)| + |Held(pending, false)| == |pending|
    ensures Distinct(pending) ==> Distinct(Held(pending, runstats))
    decreases |pending|
  {
    if pending != [] {
      var front, last := pending[..|pending| - 1], pending[|pending| - 1];
      HeldExact(front, runstats, m);
      assert pending == front + [last];
      if Distinct(pending) {
        forall i | 0 <= i < |Held(front, runstats)| ensures Held(front, runstats)[i].key != last.key {
          HeldExact(front, runstats, Held(front, runstats)[i]);
          assert Held(front, runstats)[i] in front;
        }
      }
    }
  }

  lemma {:induction false} LookupIn(ms: seq<Member>, m: Member)
    requires Distinct(ms)
    ensures m in ms <==> Lookup(ms, m.key) == Some(m.value)
  {
    if m in ms {
      var i :| 0 <= i < |ms| && ms[i] == m;
      FindIs(ms, m.key, i);
    }
  }

  lemma {:induction false} HeldLookup(pending: seq<Member>, runstats: bool, key: string)
    requires Distinct(pending)
    ensures Lookup(Held(pending, runstats), key) == if (key == "runstats") == runstats then Lookup(pending, key) else None
  {
    hide Held;
    var held := Held(pending, runstats);
    forall m: Member | m.key == key
      ensures m in held <==> m in pending && (key == "runstats" <==> runstats)
      ensures m in held <==> Lookup(held, key) == Some(m.value)
      ensures m in pending <==> Lookup(pending, key) == Some(m.value)
    {
      HeldExact(pending, runstats, m);
      LookupIn(held, m);
      LookupIn(pending, m);
    }
    if Lookup(held, key).Some? {
      assert Member(key, Lookup(held, key).value) in held;
    }
    if Lookup(pending, key).Some? {
      assert Member(key, Lookup(pending, key).value) in pending;
    }
  }

  /** The scan record has the preamble, then the attributes, then the type, each where the ones before say nothing. */
  lemma {:induction false} ScanRecordExact(attrs: seq<Attr>, pending: seq<Member>, key: string)
    requires Distinct(TypedMembers(attrs)) && Distinct(pending)
    ensures ScanRecord(attrs, pending).Obj?
    ensures Lookup(ScanRecord(attrs, pending).members, key) ==
            if key != "runstats" && Lookup(pending, key).Some? then Lookup(pending, key)
            else if Lookup(TypedMembers(attrs), key).Some? then Lookup(TypedMembers(attrs), key)
            else if key == "type" then Some(Str("scan"))
            else None
  {
    hide SetAll, Find, Held, TypedMembers;
    var ms := [Member("type", Str("scan"))];
    assert ms == [] + ms;
    LookupLast([], ms[0], key);
    NoLookup(key);
    HeldLookup(pending, false, key);
    HeldExact(pending, false, Member(key, Null));
    SetAllLookup(ms, TypedMembers(attrs), key);
    SetAllLookup(SetAll(ms, TypedMembers(attrs)), Held(pending, false), key);
  }

  /** What is left at the end of line mode: a record for each item of an array, and one for each other value. */
  lemma {:induction false} TailExact(pending: seq<Member>, r: Value)
    ensures r in TailRecords(pending) <==>
            exists m, v :: m in pending && v in (if m.value.Arr? then m.value.items else [m.value]) && r == LineRecord(m.key, v)
    ensures |TailRecords(pending)| == Items(pending)
    decreases |pending|
  {
    hide LineRecord;
    if pending != [] {
      var front, last := pending[..|pending| - 1], pending[|pending| - 1];
      TailExact(front, r);
      assert pending == front + [last];
    }
  }

  function Items(pending: seq<Member>): nat
  {
    if pending == [] then 0
    else Items(pending[..|pending| - 1]) + if Last(pending).value.Arr? then |Last(pending).value.items| else 1
  }
}
