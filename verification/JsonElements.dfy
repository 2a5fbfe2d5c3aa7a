/** Captured elements and objects as they are kept in memory, and their conversion in place. */
module JsonElements {
  import opened Options
  import opened JsonGrammar
  import opened JsonQuoting
  import opened JsonDump
  import opened JsonConvert

  /** An element under construction or complete. `tree` is what it stands for once it is complete. */
  class JsonElement {
    var name: string
    var attrs: seq<Attr>
    var text: string
    var children: seq<JsonElement>
    ghost var tree: Elem
    ghost var repr: set<JsonElement>

    constructor (name: string)
      ensures this.name == name && attrs == [] && text == "" && children == []
    {
      this.name := name;
      attrs, text, children := [], "", [];
      tree, repr := Elem(name, [], "", []), {};
    }

    /** Is the element complete, and `tree` what was captured below it? */
    ghost predicate Complete()
      reads this, repr
      decreases repr
    {
      && this in repr
      && (forall c :: c in children ==> c in repr && c.repr < repr && this !in c.repr && c.Complete())
      && tree == Elem(name, attrs, text, Trees(children))
    }

    /** The element has ended, with children among `ended`: from now on it stands for everything below it. */
    ghost method End(ended: set<JsonElement>)
      requires this !in ended
      requires forall c :: c in children ==> c in ended && c.repr <= ended && c.Complete()
      modifies this`tree, this`repr
      ensures Complete() && tree == Elem(name, attrs, text, old(Trees(children))) && repr == {this} + ended
    {
      tree := Elem(name, attrs, text, Trees(children));
      repr := {this} + ended;
      assert Trees(children) == old(Trees(children));
    }

    method AddAttribute(attrName: string, value: string)
      modifies this`attrs
      ensures attrs == old(attrs) + [Attr(attrName, value)]
    {
      attrs := attrs + [Attr(attrName, value)];
    }

    method AddChild(childName: string) returns (child: JsonElement)
      modifies this`children
      ensures fresh(child) && child.name == childName && child.attrs == [] && child.text == "" && child.children == []
      ensures children == old(children) + [child]
    {
      child := new JsonElement(childName);
      children := children + [child];
    }
  }

  ghost function Trees(els: seq<JsonElement>): seq<Elem>
    reads els
  {
    seq(|els|, i requires 0 <= i < |els| reads els => els[i].tree)
  }

  /** A value of object type that is being put together. */
  class JsonObject {
    var members: seq<Member>

    constructor ()
      ensures members == []
    {
      members := [];
    }

    method Position(key: string) returns (i: nat)
      ensures i == Find(members, key)
    {
      i := 0;
      while i < |members|
        invariant i <= |members| && forall j :: 0 <= j < i ==> members[j].key != key
      {
        if members[i].key == key {
          FindIs(members, key, i);
          return;
        }
        i := i + 1;
      }
      FindIs(members, key, i);
    }

    method Set(key: string, value: Value)
      modifies this
      ensures members == SetMember(old(members), key, value)
    {
      var i := Position(key);
      members := if i < |members| then members[i := Member(key, value)] else members + [Member(key, value)];
    }

    /** Adds a value under a key, in the array that is there or in a new one. */
    method Add(key: string, value: Value, asArray: bool)
      modifies this
      ensures members == GroupAdd(old(members), key, value, asArray)
    {
      var i := Position(key);
      if i == |members| {
        members := members + [Member(key, if asArray then Arr([value]) else value)];
      } else if members[i].value.Arr? {
        members := members[i := Member(key, Arr(members[i].value.items + [value]))];
      } else {
        members := members[i := Member(key, Arr([members[i].value, value]))];
      }
    }
  }

  method AttributeValue(attrs: seq<Attr>, name: string) returns (r: Option<string>)
    ensures r == AttrFind(attrs, name)
  {
    assert attrs[0..] == attrs;
    for i := 0 to |attrs|
      invariant AttrFind(attrs[i..], name) == AttrFind(attrs, name)
    {
      if attrs[i].name == name {
        return Some(attrs[i].value);
      }
      assert attrs[i..][1..] == attrs[i + 1..];
    }
    r := None;
  }

  method AddAttributes(obj: JsonObject, attrs: seq<Attr>)
    requires obj.members == []
    modifies obj
    ensures obj.members == AttrMembers(attrs, |attrs|)
  {
    hide Typed, GroupAdd;
    for i := 0 to |attrs|
      invariant obj.members == AttrMembers(attrs, i)
    {
      var v := TypedAttribute(attrs[i]);
      obj.Add(attrs[i].name, v, false);
    }
  }

  method ConvertNseNode(el: JsonElement) returns (v: Value)
    requires el.Complete()
    ensures v == NseNode(el.tree)
    decreases el.repr, 3, 0
  {
    hide NseChildren, Convert;
    if el.name == "elem" {
      v := Str(el.text);
    } else if el.name == "table" {
      v := ConvertNseChildren(el);
    } else {
      v := ConvertElement(el);
    }
  }

  /** Are there children with a key, and are there children without one? */
  method KeysOf(el: JsonElement) returns (anyKeyed: bool, anyUnkeyed: bool)
    requires el.Complete()
    ensures anyKeyed <==> exists j :: 0 <= j < |el.tree.children| && Keyed(el.tree.children[j])
    ensures anyUnkeyed <==> HasUnkeyed(el.tree)
  {
    hide Keyed, AttrFind;
    anyKeyed, anyUnkeyed := false, false;
    assert |el.tree.children| == |el.children|;
    for i := 0 to |el.children|
      invariant anyKeyed <==> exists j :: 0 <= j < i && Keyed(el.tree.children[j])
      invariant anyUnkeyed <==> exists j :: 0 <= j < i && !Keyed(el.tree.children[j])
    {
      var c := el.children[i];
      var key := AttributeValue(c.attrs, "key");
      ChildTree(el, i);
      KeyedIs(el.tree.children[i]);
      if key.Some? {
        anyKeyed := true;
      } else {
        anyUnkeyed := true;
      }
    }
  }

  method ConvertNseChildren(el: JsonElement) returns (v: Value)
    requires el.Complete()
    ensures v == NseChildren(el.tree)
    decreases el.repr, 1, 0
  {
    hide NseNode, GroupAdd, SetMember, Keyed, NseChildren, UnkeyedItems, KeyedMembers;
    var anyKeyed, anyUnkeyed := KeysOf(el);
    NseChildrenIs(el.tree);
    var obj, unkeyed := CollectNse(el);
    if !anyKeyed {
      return Arr(unkeyed);
    }
    if anyUnkeyed {
      obj.Set("_", Arr(unkeyed));
    }
    v := Obj(obj.members);
  }

  /** The children with a key, grouped, and those without one. */
  method CollectNse(el: JsonElement) returns (obj: JsonObject, unkeyed: seq<Value>)
    requires el.Complete()
    ensures fresh(obj) && |el.tree.children| == |el.children|
    ensures obj.members == KeyedMembers(el.tree, |el.children|) && unkeyed == UnkeyedItems(el.tree, |el.children|)
    decreases el.repr, 0, 1
  {
    hide NseNode, GroupAdd, Keyed, AttrFind;
    assert |el.tree.children| == |el.children|;
    obj := new JsonObject();
    unkeyed := [];
    for i := 0 to |el.children|
      invariant obj.members == KeyedMembers(el.tree, i) && unkeyed == UnkeyedItems(el.tree, i)
      invariant el.Complete()
    {
      var c := el.children[i];
      ChildTree(el, i);
      var key := AttributeValue(c.attrs, "key");
      KeyedIs(el.tree.children[i]);
      var node := ConvertNseNode(c);
      if key.Some? {
        obj.Add(key.value, node, false);
      } else {
        unkeyed := unkeyed + [node];
      }
    }
  }

  lemma {:induction false} KeyedIs(el: Elem)
    ensures Keyed(el) <==> AttrFind(el.attrs, "key").Some?
  {
  }

  lemma {:induction false} ChildTree(el: JsonElement, i: nat)
    requires el.Complete() && i < |el.children|
    ensures |el.tree.children| == |el.children| && el.tree.children[i] == el.children[i].tree
    ensures el.children[i].Complete() && el.children[i].repr < el.repr
    ensures el.children[i].tree.name == el.children[i].name && el.children[i].tree.attrs == el.children[i].attrs
    ensures |el.children[i].tree.children| == |el.children[i].children|
  {
    assert el.children[i] in el.children;
  }

  method ConvertScript(el: JsonElement) returns (v: Value)
    requires el.Complete()
    ensures v == JsonConvert.ConvertScript(el.tree)
    decreases el.repr, 2, 0
  {
    hide NseChildren, AttrMembers, SetMember;
    var obj := new JsonObject();
    AddAttributes(obj, el.attrs);
    ghost var ms := obj.members;
    var structured := false;
    for i := 0 to |el.children|
      invariant obj.members == ms
      invariant structured <==> exists j :: 0 <= j < i && el.tree.children[j].name in {"table", "elem"}
    {
      ChildTree(el, i);
      if el.children[i].name == "table" || el.children[i].name == "elem" {
        structured := true;
        assert el.tree.children[i].name in {"table", "elem"};
        break;
      }
    }
    assert structured == Structured(el.tree);
    if structured {
      var data := ConvertNseChildren(el);
      obj.Set("data", data);
    } else if el.text != "" {
      obj.Set("data", Str(el.text));
    }
    v := Obj(obj.members);
  }

  method AddChildValue(obj: JsonObject, child: JsonElement, key: Option<string>)
    requires child.Complete()
    modifies obj
    ensures obj.members == JsonConvert.AddChild(old(obj.members), child.name, Convert(child.tree), key)
    decreases child.repr, 5, 0
  {
    hide Convert, GroupAdd, ArrayKey;
    var v := ConvertElement(child);
    obj.Add(if key.Some? then key.value else KeyFor(child.name), v, key.Some? || IsArrayElement(child.name));
  }

  /** Adds the children of a container to the object its parent becomes. */
  method AddLifted(obj: JsonObject, c: JsonElement)
    requires c.Complete()
    modifies obj
    ensures obj.members == LiftedMembers(old(obj.members), c.tree, |c.tree.children|)
    decreases c.repr, 6, 0
  {
    hide Convert, JsonConvert.AddChild, ChildKey;
    for j := 0 to |c.children|
      invariant obj.members == LiftedMembers(old(obj.members), c.tree, j)
      invariant c.Complete()
    {
      ChildTree(c, j);
      AddChildValue(obj, c.children[j], ChildKey(c.name));
    }
  }

  method ConvertElement(el: JsonElement) returns (v: Value)
    requires el.Complete()
    ensures v == Convert(el.tree)
    decreases el.repr, 2, 1
  {
    hide NseChildren, JsonConvert.ConvertScript, JsonConvert.AddChild, AttrMembers, SetMember, IsTransparent, ChildKey,
      LiftedMembers;
    if el.name == "script" {
      v := ConvertScript(el);
      return;
    }
    if el.name == "table" {
      v := ConvertNseChildren(el);
      return;
    }
    if el.name == "elem" {
      return Str(el.text);
    }
    var obj := new JsonObject();
    AddAttributes(obj, el.attrs);
    for i := 0 to |el.children|
      invariant obj.members == ChildMembers(el.tree, i)
      invariant el.Complete()
    {
      var c := el.children[i];
      ChildTree(el, i);
      if IsTransparent(c.name) {
        AddLifted(obj, c);
      } else {
        AddChildValue(obj, c, None);
      }
    }
    if el.text != "" {
      if obj.members == [] {
        return Str(el.text);
      }
      obj.Set("_text", Str(el.text));
    }
    v := Obj(obj.members);
  }
}
