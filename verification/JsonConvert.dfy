/** Turning a captured XML element into a value. */
module JsonConvert {
  import opened Options
  import opened JsonGrammar
  import opened JsonQuoting
  import opened JsonDump

  datatype Attr = Attr(name: string, value: string)

  datatype Elem = Elem(name: string, attrs: seq<Attr>, text: string, children: seq<Elem>)

  // ---------- Members of an object ----------

  /** Position of the first member with this key; the number of members if there is none. */
  function Find(ms: seq<Member>, key: string): (i: nat)
    ensures i <= |ms|
    ensures i < |ms| ==> ms[i].key == key
    ensures forall j :: 0 <= j < i ==> ms[j].key != key
  {
    if ms == [] || ms[0].key == key then 0 else 1 + Find(ms[1..], key)
  }

  predicate Distinct(ms: seq<Member>) { forall i, j :: 0 <= i < j < |ms| ==> ms[i].key != ms[j].key }

  function Keys(ms: seq<Member>): set<string> { set i | 0 <= i < |ms| :: ms[i].key }

  function Lookup(ms: seq<Member>, key: string): Option<Value>
  {
    if Find(ms, key) < |ms| then Some(ms[Find(ms, key)].value) else None
  }

  /** Replaces the value of a key where it stands, or adds the key at the end. */
  function SetMember(ms: seq<Member>, key: string, value: Value): seq<Member>
  {
    var i := Find(ms, key);
    if i < |ms| then ms[i := Member(key, value)] else ms + [Member(key, value)]
  }

  /** What is stored under a key that already has a value. */
  function Joined(existing: Value, value: Value): Value
  {
    if existing.Arr? then Arr(existing.items + [value]) else Arr([existing, value])
  }

  /** Adds a value under a key without losing the ones that are there. */
  function GroupAdd(ms: seq<Member>, key: string, value: Value, asArray: bool): seq<Member>
  {
    var i := Find(ms, key);
    if i < |ms| then ms[i := Member(key, Joined(ms[i].value, value))]
    else ms + [Member(key, if asArray then Arr([value]) else value)]
  }

  lemma {:induction false} GroupAddKeys(ms: seq<Member>, key: string, value: Value, asArray: bool)
    ensures Distinct(ms) ==> Distinct(GroupAdd(ms, key, value, asArray))
    ensures Keys(GroupAdd(ms, key, value, asArray)) == Keys(ms) + {key}
  {
    var r := GroupAdd(ms, key, value, asArray);
    var i := Find(ms, key);
    assert r[i].key == key;
    assert forall j :: 0 <= j < |ms| ==> r[j].key == ms[j].key;
    assert forall j :: 0 <= j < |r| ==> r[j].key == key || r[j].key == ms[j].key;
  }

  /** The first values of all keys: only the value of the key itself is touched. */
  lemma {:induction false} GroupAddLookup(ms: seq<Member>, key: string, value: Value, asArray: bool, k: string)
    ensures Lookup(GroupAdd(ms, key, value, asArray), k) ==
            if k != key then Lookup(ms, k)
            else if Lookup(ms, key).Some? then Some(Joined(Lookup(ms, key).value, value))
            else Some(if asArray then Arr([value]) else value)
  {
    var r := GroupAdd(ms, key, value, asArray);
    var i := Find(ms, key);
    assert forall j :: 0 <= j < |ms| && j != i ==> r[j] == ms[j];
    FindIs(r, k, if k == key then i else if Find(ms, k) < |ms| then Find(ms, k) else |r|);
  }

  lemma {:induction false} FindIs(ms: seq<Member>, key: string, i: nat)
    requires i <= |ms| && (i < |ms| ==> ms[i].key == key) && forall j :: 0 <= j < i ==> ms[j].key != key
    ensures Find(ms, key) == i
  {
  }

  // ---------- The mapping rules ----------

  /** The key of an element that is always an array; empty for other elements. */
  function ArrayKey(name: string): string
  {
    if name == "address" then "addresses"
    else if name == "cpe" then "cpe"
    else if name == "extraports" then "extraports"
    else if name == "extrareasons" then "extrareasons"
    else if name == "hop" then "hops"
    else if name == "host" then "hosts"
    else if name == "hosthint" then "hosthints"
    else if name == "hostname" then "hostnames"
    else if name == "osclass" then "osclasses"
    else if name == "osfingerprint" then "osfingerprints"
    else if name == "osmatch" then "osmatches"
    else if name == "output" then "output"
    else if name == "port" then "ports"
    else if name == "portused" then "portsused"
    else if name == "scaninfo" then "scaninfo"
    else if name == "script" then "scripts"
    else if name == "target" then "targets"
    else if name == "taskbegin" then "taskbegin"
    else if name == "taskend" then "taskend"
    else if name == "taskprogress" then "taskprogress"
    else ""
  }

  predicate IsArrayElement(name: string) { ArrayKey(name) != "" }

  function KeyFor(name: string): string { if IsArrayElement(name) then ArrayKey(name) else name }

  predicate IsTransparent(name: string)
  {
    name == "hostnames" || name == "hostscript" || name == "ports" || name == "postscript" || name == "prescript"
  }

  /** The key that a transparent element gives its children, if it gives one. */
  function ChildKey(name: string): Option<string>
  {
    if name == "postscript" then Some("postscripts") else if name == "prescript" then Some("prescripts") else None
  }

  predicate IsNumeric(name: string)
  {
    name in ["accuracy", "conf", "count", "down", "elapsed", "end", "endtime", "etc", "highver", "index", "level", "line",
             "lowver", "numservices", "percent", "port", "portid", "reason_ttl", "remaining", "responses", "rpcnum", "rtt",
             "rttvar", "seconds", "srtt", "start", "starttime", "time", "to", "total", "ttl", "up", "value"]
  }

  ghost function Typed(a: Attr): Value
  {
    if a.name == "timedout" then
      if a.value == "true" then Bool(true) else if a.value == "false" then Bool(false) else Str(a.value)
    else if IsNumeric(a.name) && IsNumber(a.value) then Number(a.value)
    else Str(a.value)
  }

  method TypedAttribute(a: Attr) returns (v: Value)
    ensures v == Typed(a)
  {
    hide IsNumber, IsNumeric;
    if a.name == "timedout" {
      return if a.value == "true" then Bool(true) else if a.value == "false" then Bool(false) else Str(a.value);
    }
    var ok := JsonIsNumber(a.value);
    v := if IsNumeric(a.name) && ok then Number(a.value) else Str(a.value);
  }

  /** The value of the first attribute of this name. */
  function AttrFind(attrs: seq<Attr>, name: string): (v: Option<string>)
    ensures v.None? <==> forall i :: 0 <= i < |attrs| ==> attrs[i].name != name
    ensures v.Some? ==>
              exists i :: 0 <= i < |attrs| && attrs[i] == Attr(name, v.value) && forall j :: 0 <= j < i ==> attrs[j].name != name
  {
    if attrs == [] then None else if attrs[0].name == name then Some(attrs[0].value) else AttrFind(attrs[1..], name)
  }

  predicate Keyed(el: Elem) { AttrFind(el.attrs, "key").Some? }

  // ---------- Structured script output ----------

  ghost function NseNode(el: Elem): Value
    decreases el, 3, 0
  {
    if el.name == "elem" then Str(el.text) else if el.name == "table" then NseChildren(el) else Convert(el)
  }

  ghost function NseChildren(el: Elem): Value
    decreases el, 1, 0
  {
    var n := |el.children|;
    if forall i :: 0 <= i < n ==> !Keyed(el.children[i]) then Arr(UnkeyedItems(el, n))
    else if forall i :: 0 <= i < n ==> Keyed(el.children[i]) then Obj(KeyedMembers(el, n))
    else Obj(SetMember(KeyedMembers(el, n), "_", Arr(UnkeyedItems(el, n))))
  }

  /** The values of the children without a key, among the first `k`. */
  ghost function UnkeyedItems(el: Elem, k: nat): seq<Value>
    requires k <= |el.children|
    decreases el, 0, k
  {
    if k == 0 then []
    else
      var c := el.children[k - 1];
      UnkeyedItems(el, k - 1) + if Keyed(c) then [] else [NseNode(c)]
  }

  ghost function KeyedMembers(el: Elem, k: nat): seq<Member>
    requires k <= |el.children|
    decreases el, 0, k
  {
    if k == 0 then []
    else
      var c := el.children[k - 1];
      if Keyed(c) then GroupAdd(KeyedMembers(el, k - 1), AttrFind(c.attrs, "key").value, NseNode(c), false)
      else KeyedMembers(el, k - 1)
  }

  // ---------- Elements ----------

  ghost function AttrMembers(attrs: seq<Attr>, k: nat): seq<Member>
    requires k <= |attrs|
  {
    if k == 0 then [] else GroupAdd(AttrMembers(attrs, k - 1), attrs[k - 1].name, Typed(attrs[k - 1]), false)
  }

  predicate Structured(el: Elem) { exists i :: 0 <= i < |el.children| && el.children[i].name in {"table", "elem"} }

  ghost function ConvertScript(el: Elem): Value
    decreases el, 1, 1
  {
    var ms := AttrMembers(el.attrs, |el.attrs|);
    if Structured(el) then Obj(SetMember(ms, "data", NseChildren(el)))
    else if el.text != "" then Obj(SetMember(ms, "data", Str(el.text)))
    else Obj(ms)
  }

  ghost function Convert(el: Elem): Value
    decreases el, 2, 0
  {
    if el.name == "script" then ConvertScript(el)
    else if el.name == "table" then NseChildren(el)
    else if el.name == "elem" then Str(el.text)
    else
      var ms := ChildMembers(el, |el.children|);
      if el.text == "" then Obj(ms)
      else if ms == [] then Str(el.text)
      else Obj(SetMember(ms, "_text", Str(el.text)))
  }

  /** The attributes and the first `k` children, with those of containers in their place. */
  ghost function ChildMembers(el: Elem, k: nat): seq<Member>
    requires k <= |el.children|
    decreases el, 0, k
  {
    if k == 0 then AttrMembers(el.attrs, |el.attrs|)
    else
      var c := el.children[k - 1];
      if IsTransparent(c.name) then LiftedMembers(ChildMembers(el, k - 1), c, |c.children|)
      else AddChild(ChildMembers(el, k - 1), c.name, Convert(c), None)
  }

  /** `ms` and the first `k` children of the container `c`. */
  ghost function LiftedMembers(ms: seq<Member>, c: Elem, k: nat): seq<Member>
    requires k <= |c.children|
    decreases c, 0, k
  {
    if k == 0 then ms
    else AddChild(LiftedMembers(ms, c, k - 1), c.children[k - 1].name, Convert(c.children[k - 1]), ChildKey(c.name))
  }

  /** Adds a converted child under the key of its container, or of its own name. */
  function AddChild(ms: seq<Member>, name: string, value: Value, key: Option<string>): seq<Member>
  {
    if key.Some? then GroupAdd(ms, key.value, value, true) else GroupAdd(ms, KeyFor(name), value, IsArrayElement(name))
  }

  // ---------- Every number in a converted element is a number ----------

  ghost predicate MembersValid(ms: seq<Member>) { forall i :: 0 <= i < |ms| ==> NumbersValid(ms[i].value) }

  lemma {:induction false} SetValid(ms: seq<Member>, key: string, value: Value)
    requires MembersValid(ms) && NumbersValid(value)
    ensures MembersValid(SetMember(ms, key, value))
  {
    hide NumbersValid;
  }

  lemma {:induction false} GroupAddValid(ms: seq<Member>, key: string, value: Value, asArray: bool)
    requires MembersValid(ms) && NumbersValid(value)
    ensures MembersValid(GroupAdd(ms, key, value, asArray))
  {
    assert NumbersValid(Arr([value]));
    var i := Find(ms, key);
    if i < |ms| {
      assert NumbersValid(Joined(ms[i].value, value));
    }
  }

  lemma {:induction false} AttrsValid(attrs: seq<Attr>, k: nat)
    requires k <= |attrs|
    ensures MembersValid(AttrMembers(attrs, k))
  {
    hide NumbersValid, IsNumber, GroupAdd;
    if k > 0 {
      AttrsValid(attrs, k - 1);
      TypedValid(attrs[k - 1]);
      GroupAddValid(AttrMembers(attrs, k - 1), attrs[k - 1].name, Typed(attrs[k - 1]), false);
    }
  }

  lemma {:induction false} TypedValid(a: Attr)
    ensures NumbersValid(Typed(a))
  {
    hide IsNumber, IsNumeric;
  }

  lemma {:induction false} UnkeyedValid(el: Elem, k: nat)
    requires k <= |el.children|
    ensures NumbersValid(Arr(UnkeyedItems(el, k)))
    decreases el, 0, k
  {
    if k > 0 {
      UnkeyedValid(el, k - 1);
      NodeValid(el.children[k - 1]);
    }
  }

  lemma {:induction false} KeyedValid(el: Elem, k: nat)
    requires k <= |el.children|
    ensures MembersValid(KeyedMembers(el, k))
    decreases el, 0, k
  {
    hide NumbersValid, MembersValid, NseNode, GroupAdd;
    if k > 0 {
      var c := el.children[k - 1];
      KeyedValid(el, k - 1);
      if Keyed(c) {
        NodeValid(c);
        GroupAddValid(KeyedMembers(el, k - 1), AttrFind(c.attrs, "key").value, NseNode(c), false);
      }
    } else {
      NoMembers();
    }
  }

  lemma {:induction false} NoMembers()
    ensures MembersValid([])
  {
  }

  lemma {:induction false} NodeValid(el: Elem)
    ensures NumbersValid(NseNode(el))
    decreases el, 3, 0
  {
    hide NseChildren, Convert;
    NseValid(el);
    ConvertValid(el);
  }

  lemma {:induction false} NseValid(el: Elem)
    ensures NumbersValid(NseChildren(el))
    decreases el, 1, 0
  {
    hide KeyedMembers, UnkeyedItems, SetMember;
    var n := |el.children|;
    KeyedValid(el, n);
    UnkeyedValid(el, n);
    SetValid(KeyedMembers(el, n), "_", Arr(UnkeyedItems(el, n)));
  }

  /** Whatever was captured, the converted value has only valid number literals. */
  lemma {:induction false} ConvertValid(el: Elem)
    ensures NumbersValid(Convert(el))
    decreases el, 2, 0
  {
    hide NseChildren, SetMember, AttrMembers, ChildMembers, IsNumber, Structured;
    if el.name == "script" {
      var ms := AttrMembers(el.attrs, |el.attrs|);
      AttrsValid(el.attrs, |el.attrs|);
      NseValid(el);
      SetValid(ms, "data", NseChildren(el));
      SetValid(ms, "data", Str(el.text));
    } else if el.name == "table" {
      NseValid(el);
    } else if el.name != "elem" {
      var ms := ChildMembers(el, |el.children|);
      ChildrenValid(el, |el.children|);
      SetValid(ms, "_text", Str(el.text));
    }
  }

  lemma {:induction false} ChildrenValid(el: Elem, k: nat)
    requires k <= |el.children|
    ensures MembersValid(ChildMembers(el, k))
    decreases el, 0, k
  {
    hide NumbersValid, MembersValid, Convert, GroupAdd, ArrayKey, IsTransparent, AttrMembers, LiftedMembers;
    if k == 0 {
      AttrsValid(el.attrs, |el.attrs|);
    } else {
      var c := el.children[k - 1];
      ChildrenValid(el, k - 1);
      if IsTransparent(c.name) {
        LiftedValid(ChildMembers(el, k - 1), c, |c.children|);
      } else {
        ConvertValid(c);
        GroupAddValid(ChildMembers(el, k - 1), KeyFor(c.name), Convert(c), IsArrayElement(c.name));
      }
    }
  }

  lemma {:induction false} LiftedValid(ms: seq<Member>, c: Elem, k: nat)
    requires k <= |c.children| && MembersValid(ms)
    ensures MembersValid(LiftedMembers(ms, c, k))
    decreases c, 0, k
  {
    hide NumbersValid, MembersValid, Convert, GroupAdd, ArrayKey;
    if k > 0 {
      var d := c.children[k - 1];
      LiftedValid(ms, c, k - 1);
      ConvertValid(d);
      AddChildValid(LiftedMembers(ms, c, k - 1), d.name, Convert(d), ChildKey(c.name));
    }
  }

  lemma {:induction false} AddChildValid(ms: seq<Member>, name: string, value: Value, key: Option<string>)
    requires MembersValid(ms) && NumbersValid(value)
    ensures MembersValid(AddChild(ms, name, value, key))
  {
    hide NumbersValid, MembersValid, GroupAdd, ArrayKey;
    if key.Some? {
      GroupAddValid(ms, key.value, value, true);
    } else {
      GroupAddValid(ms, KeyFor(name), value, IsArrayElement(name));
    }
  }

  // ---------- Script output loses nothing ----------

  /** The strings, numbers and truth values in a value as they were written, each as often as it occurs. */
  function Leaves(v: Value): multiset<string>
    decreases v, 1, 0
  {
    match v
    case Null => multiset{}
    case Bool(b) => multiset{if b then "true" else "false"}
    case Number(text) => multiset{text}
    case Str(text) => multiset{text}
    case Arr(items) => ItemLeaves(v, |items|)
    case Obj(members) => MemberLeaves(v, |members|)
  }

  function ItemLeaves(v: Value, k: nat): multiset<string>
    requires v.Arr? && k <= |v.items|
    decreases v, 0, k
  {
    if k == 0 then multiset{} else ItemLeaves(v, k - 1) + Leaves(v.items[k - 1])
  }

  function MemberLeaves(v: Value, k: nat): multiset<string>
    requires v.Obj? && k <= |v.members|
    decreases v, 0, k
  {
    if k == 0 then multiset{} else MemberLeaves(v, k - 1) + Leaves(v.members[k - 1].value)
  }

  /** A tree of tables and elems, the structured output of a script. */
  predicate NseTree(el: Elem)
  {
    el.name == "elem" || (el.name == "table" && forall i :: 0 <= i < |el.children| ==> NseTree(el.children[i]))
  }

  /** The texts of the elems. */
  function Texts(el: Elem): multiset<string>
    decreases el, 1, 0
  {
    if el.name == "elem" then multiset{el.text} else ChildTexts(el, |el.children|)
  }

  function ChildTexts(el: Elem, k: nat): multiset<string>
    requires k <= |el.children|
    decreases el, 0, k
  {
    if k == 0 then multiset{} else ChildTexts(el, k - 1) + Texts(el.children[k - 1])
  }

  predicate HasUnkeyed(el: Elem) { exists i :: 0 <= i < |el.children| && !Keyed(el.children[i]) }

  /** Is this child of `el` overwritten by the list of its siblings without a key? */
  predicate Overwritten(el: Elem, c: Elem)
  {
    AttrFind(c.attrs, "key") == Some("_") && HasUnkeyed(el)
  }

  /** The texts of a script's output that do not reach the value. */
  function Lost(el: Elem): multiset<string>
    decreases el, 1, 0
  {
    if el.name == "elem" then multiset{} else ChildLost(el, |el.children|)
  }

  function ChildLost(el: Elem, k: nat): multiset<string>
    requires k <= |el.children|
    decreases el, 0, k
  {
    if k == 0 then multiset{}
    else
      var c := el.children[k - 1];
      ChildLost(el, k - 1) + if Overwritten(el, c) then Texts(c) else Lost(c)
  }

  /** No text stands under the key `_` beside siblings without a key. */
  predicate NoClash(el: Elem)
  {
    el.name == "elem" ||
    forall i :: 0 <= i < |el.children| ==>
      if Overwritten(el, el.children[i]) then Texts(el.children[i]) == multiset{} else NoClash(el.children[i])
  }

  lemma {:induction false} ItemLeavesPrefix(items: seq<Value>, more: seq<Value>, k: nat)
    requires k <= |items|
    ensures ItemLeaves(Arr(items + more), k) == ItemLeaves(Arr(items), k)
    decreases k
  {
    if k > 0 {
      ItemLeavesPrefix(items, more, k - 1);
    }
  }

  lemma {:induction false} LeavesAppend(items: seq<Value>, v: Value)
    ensures Leaves(Arr(items + [v])) == Leaves(Arr(items)) + Leaves(v)
  {
    ItemLeavesPrefix(items, [v], |items|);
  }

  lemma {:induction false} LeavesOne(v: Value)
    ensures Leaves(Arr([])) == multiset{} && Leaves(Obj([])) == multiset{}
    ensures Leaves(Arr([v])) == Leaves(v)
    ensures v.Str? ==> Leaves(v) == multiset{v.text}
  {
    LeavesAppend([], v);
    assert [] + [v] == [v];
  }

  lemma {:induction false} LeavesJoined(existing: Value, v: Value)
    ensures Leaves(Joined(existing, v)) == Leaves(existing) + Leaves(v)
  {
    hide Leaves;
    if existing.Arr? {
      LeavesAppend(existing.items, v);
    } else {
      LeavesOne(existing);
      LeavesAppend([existing], v);
      assert [existing] + [v] == [existing, v];
    }
  }

  lemma {:induction false} MemberLeavesPrefix(ms: seq<Member>, more: seq<Member>, k: nat)
    requires k <= |ms|
    ensures MemberLeaves(Obj(ms + more), k) == MemberLeaves(Obj(ms), k)
    decreases k
  {
    if k > 0 {
      MemberLeavesPrefix(ms, more, k - 1);
    }
  }

  lemma {:induction false} LeavesAdded(ms: seq<Member>, m: Member)
    ensures Leaves(Obj(ms + [m])) == Leaves(Obj(ms)) + Leaves(m.value)
  {
    MemberLeavesPrefix(ms, [m], |ms|);
  }

  /** Replacing one member trades its strings. */
  lemma {:induction false} LeavesReplaced(ms: seq<Member>, i: nat, m: Member, k: nat)
    requires i < |ms| && k <= |ms|
    ensures i >= k ==> MemberLeaves(Obj(ms[i := m]), k) == MemberLeaves(Obj(ms), k)
    ensures i < k ==> MemberLeaves(Obj(ms[i := m]), k) + Leaves(ms[i].value) == MemberLeaves(Obj(ms), k) + Leaves(m.value)
    decreases k
  {
    hide Leaves;
    if k > 0 {
      LeavesReplaced(ms, i, m, k - 1);
      var v, r := Obj(ms), Obj(ms[i := m]);
      assert MemberLeaves(v, k) == MemberLeaves(v, k - 1) + Leaves(ms[k - 1].value);
      assert MemberLeaves(r, k) == MemberLeaves(r, k - 1) + Leaves(r.members[k - 1].value);
      if i == k - 1 {
        assert r.members[k - 1] == m;
        assert (MemberLeaves(v, k - 1) + Leaves(m.value)) + Leaves(ms[i].value) ==
               (MemberLeaves(v, k - 1) + Leaves(ms[i].value)) + Leaves(m.value);
      } else {
        assert r.members[k - 1] == ms[k - 1];
        if i < k {
          Swap(MemberLeaves(r, k - 1), Leaves(ms[i].value), MemberLeaves(v, k - 1), Leaves(m.value), Leaves(ms[k - 1].value));
        }
      }
    }
  }

  lemma {:induction false} Swap(a: multiset<string>, x: multiset<string>, b: multiset<string>, y: multiset<string>,
                                e: multiset<string>)
    requires a + x == b + y
    ensures (a + e) + x == (b + e) + y
  {
    assert (a + e) + x == (a + x) + e;
    assert (b + e) + y == (b + y) + e;
  }

  lemma {:induction false} ReplacedLeaves(ms: seq<Member>, i: nat, m: Member)
    requires i < |ms|
    ensures Leaves(Obj(ms[i := m])) + Leaves(ms[i].value) == Leaves(Obj(ms)) + Leaves(m.value)
  {
    hide MemberLeaves;
    LeavesReplaced(ms, i, m, |ms|);
    AllMembers(ms);
    AllMembers(ms[i := m]);
  }

  lemma {:induction false} AllMembers(ms: seq<Member>)
    ensures Leaves(Obj(ms)) == MemberLeaves(Obj(ms), |ms|)
  {
  }

  lemma {:induction false} GroupAddLeaves(ms: seq<Member>, key: string, value: Value, asArray: bool)
    ensures Leaves(Obj(GroupAdd(ms, key, value, asArray))) == Leaves(Obj(ms)) + Leaves(value)
  {
    hide Leaves, Joined;
    var i := Find(ms, key);
    if i < |ms| {
      LeavesJoined(ms[i].value, value);
      ReplacedLeaves(ms, i, Member(key, Joined(ms[i].value, value)));
      Cancel(Leaves(Obj(GroupAdd(ms, key, value, asArray))), Leaves(Obj(ms)) + Leaves(value), Leaves(ms[i].value));
    } else {
      LeavesOne(value);
      LeavesAdded(ms, Member(key, if asArray then Arr([value]) else value));
    }
  }

  lemma {:induction false} Cancel(a: multiset<string>, b: multiset<string>, c: multiset<string>)
    requires a + c == b + c
    ensures a == b
  {
    assert a == (a + c) - c;
    assert b == (b + c) - c;
  }

  /** The strings under a key. */
  function Under(ms: seq<Member>, key: string): multiset<string>
  {
    if Lookup(ms, key).Some? then Leaves(Lookup(ms, key).value) else multiset{}
  }

  lemma {:induction false} SetLeaves(ms: seq<Member>, key: string, value: Value)
    ensures Leaves(Obj(SetMember(ms, key, value))) + Under(ms, key) == Leaves(Obj(ms)) + Leaves(value)
  {
    hide Leaves;
    var i := Find(ms, key);
    if i < |ms| {
      ReplacedLeaves(ms, i, Member(key, value));
    } else {
      LeavesAdded(ms, Member(key, value));
    }
  }

  lemma {:induction false} GroupAddUnder(ms: seq<Member>, key: string, value: Value, asArray: bool, k: string)
    ensures Under(GroupAdd(ms, key, value, asArray), k) == Under(ms, k) + if k == key then Leaves(value) else multiset{}
  {
    hide Leaves, GroupAdd, Joined;
    GroupAddLookup(ms, key, value, asArray, k);
    LeavesOne(value);
    if k == key && Lookup(ms, key).Some? {
      LeavesJoined(Lookup(ms, key).value, value);
    }
  }

  lemma {:induction false} UnkeyedAccount(a: multiset<string>, b: multiset<string>, l: multiset<string>, t: multiset<string>,
                                          u: multiset<string>, x: multiset<string>, lx: multiset<string>, tx: multiset<string>)
    requires a + b + l == t + u && x + lx == tx
    ensures (a + x) + b + (l + lx) == (t + tx) + u
  {
    assert (a + x) + b + (l + lx) == (a + b + l) + (x + lx);
    assert (t + tx) + u == (t + u) + tx;
  }

  lemma {:induction false} KeyedAccount(a: multiset<string>, b: multiset<string>, l: multiset<string>, t: multiset<string>,
                                        u: multiset<string>, x: multiset<string>, lx: multiset<string>, tx: multiset<string>)
    requires a + b + l == t + u && x + lx == tx
    ensures a + (b + x) + (l + lx) == (t + tx) + u
    ensures a + (b + x) + (l + tx) == (t + tx) + (u + x)
  {
    assert a + (b + x) + (l + lx) == (a + b + l) + (x + lx);
    assert (t + tx) + u == (t + u) + tx;
    assert a + (b + x) + (l + tx) == (a + b + l) + (x + tx);
    assert (t + tx) + (u + x) == (t + u) + (x + tx);
  }

  /** Accounts for the first `k` children: those without a key, those with one, and those overwritten. */
  lemma {:induction false} ChildAccount(el: Elem, k: nat)
    requires k <= |el.children| && forall i :: 0 <= i < |el.children| ==> NseTree(el.children[i])
    ensures Leaves(Arr(UnkeyedItems(el, k))) + Leaves(Obj(KeyedMembers(el, k))) + ChildLost(el, k) ==
            ChildTexts(el, k) + if HasUnkeyed(el) then Under(KeyedMembers(el, k), "_") else multiset{}
    decreases el, 0, k
  {
    hide Leaves, Texts, Lost, NseNode, Under, GroupAdd;
    if k == 0 {
      LeavesOne(Null);
      UnderNothing("_");
    } else {
      var c := el.children[k - 1];
      var node := NseNode(c);
      ChildAccount(el, k - 1);
      NseLeaves(c);
      if Keyed(c) {
        var key := AttrFind(c.attrs, "key").value;
        GroupAddLeaves(KeyedMembers(el, k - 1), key, node, false);
        GroupAddUnder(KeyedMembers(el, k - 1), key, node, false, "_");
        assert UnkeyedItems(el, k) == UnkeyedItems(el, k - 1);
        KeyedAccount(Leaves(Arr(UnkeyedItems(el, k))), Leaves(Obj(KeyedMembers(el, k - 1))), ChildLost(el, k - 1),
                     ChildTexts(el, k - 1), if HasUnkeyed(el) then Under(KeyedMembers(el, k - 1), "_") else multiset{},
                     Leaves(node), Lost(c), Texts(c));
      } else {
        LeavesAppend(UnkeyedItems(el, k - 1), node);
        UnkeyedAccount(Leaves(Arr(UnkeyedItems(el, k - 1))), Leaves(Obj(KeyedMembers(el, k))), ChildLost(el, k - 1),
                       ChildTexts(el, k - 1), if HasUnkeyed(el) then Under(KeyedMembers(el, k - 1), "_") else multiset{},
                       Leaves(node), Lost(c), Texts(c));
      }
    }
  }

  lemma {:induction false} UnderNothing(key: string)
    ensures Under([], key) == multiset{}
  {
  }

  /** The parts make the whole: `lost` are the strings of the children that do not reach it, `said` are all. */
  lemma {:induction false} NseTotal(el: Elem, lost: multiset<string>, said: multiset<string>)
    requires var (items, ms) := (UnkeyedItems(el, |el.children|), KeyedMembers(el, |el.children|));
             Leaves(Arr(items)) + Leaves(Obj(ms)) + lost == said + if HasUnkeyed(el) then Under(ms, "_") else multiset{}
    ensures Leaves(NseChildren(el)) + lost == said
  {
    hide Leaves, KeyedMembers, UnkeyedItems, Under, SetMember, NseChildren;
    var items, ms := UnkeyedItems(el, |el.children|), KeyedMembers(el, |el.children|);
    NseChildrenIs(el);
    LeavesOne(Null);
    if !exists i :: 0 <= i < |el.children| && Keyed(el.children[i]) {
      UnderNothing("_");
      Cancel(Leaves(NseChildren(el)) + lost, said, multiset{}) by {
        assert Leaves(Arr(items)) + multiset{} + lost == Leaves(Arr(items)) + lost + multiset{};
      }
    } else if HasUnkeyed(el) {
      SetLeaves(ms, "_", Arr(items));
      MixedAccount(Leaves(NseChildren(el)), Under(ms, "_"), Leaves(Obj(ms)), Leaves(Arr(items)), lost, said);
    } else {
      assert multiset{} + Leaves(Obj(ms)) + lost == Leaves(Obj(ms)) + lost + multiset{};
      Cancel(Leaves(NseChildren(el)) + lost, said, multiset{});
    }
  }

  /**
   * Every text of a script's output is in its value or was overwritten, and as often: repeated keys,
   * promotion to arrays and nesting lose nothing.
   */
  lemma {:induction false} NseLeaves(el: Elem)
    requires NseTree(el)
    ensures Leaves(NseNode(el)) + Lost(el) == Texts(el)
    decreases el, 1, 0
  {
    hide Leaves, KeyedMembers, UnkeyedItems, ChildTexts, ChildLost, Under, NseChildren, Convert;
    if el.name == "elem" {
      LeavesOne(Str(el.text));
    } else {
      NseChildrenLeaves(el);
    }
  }

  lemma {:induction false} NseChildrenLeaves(el: Elem)
    requires forall i :: 0 <= i < |el.children| ==> NseTree(el.children[i])
    ensures Leaves(NseChildren(el)) + ChildLost(el, |el.children|) == ChildTexts(el, |el.children|)
    decreases el, 0, |el.children| + 1
  {
    ChildAccount(el, |el.children|);
    NseTotal(el, ChildLost(el, |el.children|), ChildTexts(el, |el.children|));
  }

  lemma {:induction false} MixedAccount(r: multiset<string>, u: multiset<string>, ms: multiset<string>, items: multiset<string>,
                                        l: multiset<string>, t: multiset<string>)
    requires r + u == ms + items && items + ms + l == t + u
    ensures r + l == t
  {
    assert (r + l) + u == (r + u) + l;
    assert (r + u) + l == items + ms + l;
    Cancel(r + l, t, u);
  }

  lemma {:induction false} NseChildrenIs(el: Elem)
    ensures var (items, ms) := (UnkeyedItems(el, |el.children|), KeyedMembers(el, |el.children|));
            && (!(exists i :: 0 <= i < |el.children| && Keyed(el.children[i])) ==> NseChildren(el) == Arr(items) && ms == [])
            && ((exists i :: 0 <= i < |el.children| && Keyed(el.children[i])) && HasUnkeyed(el) ==>
                  NseChildren(el) == Obj(SetMember(ms, "_", Arr(items))))
            && ((exists i :: 0 <= i < |el.children| && Keyed(el.children[i])) && !HasUnkeyed(el) ==>
                  NseChildren(el) == Obj(ms) && items == [])
  {
    hide SetMember, KeyedMembers, UnkeyedItems;
    if !exists i :: 0 <= i < |el.children| && Keyed(el.children[i]) {
      NoKeyed(el, |el.children|);
    } else if !HasUnkeyed(el) {
      NoUnkeyed(el, |el.children|);
    }
  }

  lemma {:induction false} NoKeyed(el: Elem, k: nat)
    requires k <= |el.children| && forall i :: 0 <= i < |el.children| ==> !Keyed(el.children[i])
    ensures KeyedMembers(el, k) == []
    decreases k
  {
    if k > 0 {
      NoKeyed(el, k - 1);
    }
  }

  lemma {:induction false} NoUnkeyed(el: Elem, k: nat)
    requires k <= |el.children| && !HasUnkeyed(el)
    ensures UnkeyedItems(el, k) == []
    decreases k
  {
    if k > 0 {
      NoUnkeyed(el, k - 1);
    }
  }

  lemma {:induction false} LostExact(el: Elem)
    ensures Lost(el) == multiset{} <==> NoClash(el)
    decreases el, 1, 0
  {
    if el.name != "elem" {
      ChildLostExact(el, |el.children|);
    }
  }

  lemma {:induction false} ChildLostExact(el: Elem, k: nat)
    requires k <= |el.children|
    ensures ChildLost(el, k) == multiset{} <==>
            forall i :: 0 <= i < k ==>
              if Overwritten(el, el.children[i]) then Texts(el.children[i]) == multiset{} else NoClash(el.children[i])
    decreases el, 0, k
  {
    hide Texts, Lost, NoClash, Overwritten;
    if k > 0 {
      ChildLostExact(el, k - 1);
      LostExact(el.children[k - 1]);
    }
  }

  lemma {:induction false} TextIgnored(el: Elem, text: string, k: nat)
    requires k <= |el.children|
    ensures var other := el.(text := text);
            UnkeyedItems(other, k) == UnkeyedItems(el, k) && KeyedMembers(other, k) == KeyedMembers(el, k)
    decreases k
  {
    hide NseNode, GroupAdd;
    if k > 0 {
      TextIgnored(el, text, k - 1);
    }
  }

  /**
   * What is dropped beside the texts of elems: the text of a table, the text of a script beside
   * structure, and what an elem holds.
   */
  lemma {:induction false} TextDropped(el: Elem, text: string, children: seq<Elem>)
    ensures NseChildren(el.(text := text)) == NseChildren(el)
    ensures Structured(el) ==> ConvertScript(el.(text := text)) == ConvertScript(el)
    ensures el.name == "elem" ==> NseNode(el.(children := children)) == NseNode(el)
  {
    hide UnkeyedItems, KeyedMembers, SetMember, AttrMembers;
    TextIgnored(el, text, |el.children|);
    NseChildrenIs(el);
    NseChildrenIs(el.(text := text));
  }

  /** The value of a script's output has exactly its texts if and only if none is overwritten under `_`. */
  lemma {:induction false} NseLosesNothing(el: Elem)
    requires NseTree(el)
    ensures Leaves(NseNode(el)) == Texts(el) <==> NoClash(el)
  {
    hide Leaves, Texts, Lost, NoClash, NseNode, NseTree;
    NseLeaves(el);
    LostExact(el);
    if Leaves(NseNode(el)) == Texts(el) {
      assert Lost(el) == (Leaves(NseNode(el)) + Lost(el)) - Leaves(NseNode(el));
    }
  }
}
