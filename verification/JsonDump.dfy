/** Serializing values, and reading them back. */
module JsonDump {
  import opened JsonGrammar
  import opened JsonQuoting

  function Spaces(n: int): string { if n <= 0 then "" else seq(n, _ => ' ') }

  /** The line break before an item; a negative indent means compact output. */
  function NewLine(indent: int, level: nat): string
  {
    if indent >= 0 then "\n" + Spaces(indent * level) else ""
  }

  function Dump(v: Value, indent: int, level: nat): string
    decreases v, 1, 0
  {
    match v
    case Null => "null"
    case Bool(b) => if b then "true" else "false"
    case Number(text) => text
    case Str(text) => Quoted(text)
    case Arr(items) =>
      if items == [] then "[]" else "[" + ItemsText(v, |items|, indent, level) + NewLine(indent, level) + "]"
    case Obj(members) =>
      if members == [] then "{}" else "{" + MembersText(v, |members|, indent, level) + NewLine(indent, level) + "}"
  }

  /** The first `k` items with the commas between them. */
  function ItemsText(v: Value, k: nat, indent: int, level: nat): string
    requires v.Arr? && k <= |v.items|
    decreases v, 0, k
  {
    if k == 0 then ""
    else
      ItemsText(v, k - 1, indent, level) + (if k > 1 then "," else "") + ItemText(v, k - 1, indent, level)
  }

  function ItemText(v: Value, i: nat, indent: int, level: nat): string
    requires v.Arr? && i < |v.items|
    decreases v, 0, 0
  {
    NewLine(indent, level + 1) + Dump(v.items[i], indent, level + 1)
  }

  function MembersText(v: Value, k: nat, indent: int, level: nat): string
    requires v.Obj? && k <= |v.members|
    decreases v, 0, k
  {
    if k == 0 then ""
    else
      MembersText(v, k - 1, indent, level) + (if k > 1 then "," else "") + MemberText(v, k - 1, indent, level)
  }

  function MemberText(v: Value, i: nat, indent: int, level: nat): string
    requires v.Obj? && i < |v.members|
    decreases v, 0, 0
  {
    NewLine(indent, level + 1) + Quoted(v.members[i].key) + Colon(indent) + Dump(v.members[i].value, indent, level + 1)
  }

  function Colon(indent: int): string { if indent >= 0 then ": " else ":" }

  /** Are all number literals valid, as their makers promise? */
  ghost predicate NumbersValid(v: Value)
  {
    match v
    case Number(text) => IsNumber(text)
    case Arr(items) => forall i :: 0 <= i < |items| ==> NumbersValid(items[i])
    case Obj(members) => forall i :: 0 <= i < |members| ==> NumbersValid(members[i].value)
    case _ => true
  }

  /** The value with every string and key repaired. */
  function RepairedValue(v: Value): Value
  {
    match v
    case Str(text) => Str(Repaired(text))
    case Arr(items) => Arr(seq(|items|, i requires 0 <= i < |items| => RepairedValue(items[i])))
    case Obj(members) =>
      Obj(seq(|members|, i requires 0 <= i < |members| => Member(Repaired(members[i].key), RepairedValue(members[i].value))))
    case _ => v
  }

  // ---------- The printer, as it runs ----------

  method DumpValue(v: Value, indent: int, level: nat) returns (out: string)
    ensures out == Dump(v, indent, level)
    decreases v
  {
    hide NewLine, Quoted, Colon;
    match v
    case Null => return "null";
    case Bool(b) => return if b then "true" else "false";
    case Number(text) => return text;
    case Str(text) => out := JsonQuote(text);
    case Arr(items) =>
      if items == [] {
        return "[]";
      }
      out := "[";
      for i := 0 to |items|
        invariant out == "[" + ItemsText(v, i, indent, level)
      {
        ghost var was := out;
        var sep := if i > 0 then "," else "";
        var text := DumpValue(items[i], indent, level + 1);
        out := out + sep + (NewLine(indent, level + 1) + text);
        assert out == "[" + (ItemsText(v, i, indent, level) + sep + ItemText(v, i, indent, level));
      }
      out := out + NewLine(indent, level);
      out := out + "]";
    case Obj(members) =>
      if members == [] {
        return "{}";
      }
      out := "{";
      for i := 0 to |members|
        invariant out == "{" + MembersText(v, i, indent, level)
      {
        var sep := if i > 0 then "," else "";
        var key := JsonQuote(members[i].key);
        var text := DumpValue(members[i].value, indent, level + 1);
        out := out + sep + (NewLine(indent, level + 1) + key + Colon(indent) + text);
        assert out == "{" + (MembersText(v, i, indent, level) + sep + MemberText(v, i, indent, level));
      }
      out := out + NewLine(indent, level);
      out := out + "}";
  }

  // ---------- Reading back ----------

  /** May this follow a value? A number must not run on into it. */
  predicate Delimited(rest: string) { rest == "" || !NumberChar(rest[0]) }

  lemma {:induction false} ExpPlain(e: string, i: nat)
    requires ExpPart(e) && i < |e|
    ensures NumberChar(e[i])
  {
    if Digits(e[1..]) {
      if i >= 1 {
        assert e[i] == e[1..][i - 1];
      }
    } else if i >= 2 {
      assert e[i] == e[2..][i - 2];
    }
  }

  lemma {:induction false} NumberPlain(s: string)
    requires IsNumber(s)
    ensures s != "" && (Digit(s[0]) || s[0] == '-') && forall i :: 0 <= i < |s| ==> NumberChar(s[i])
  {
    var m, n, f, e :| NumberParts(s, m, n, f, e);
    forall i | 0 <= i < |s| ensures NumberChar(s[i]) {
      if i < |m| {
        assert s[i] == m[i];
      } else if i < |m| + |n| {
        assert s[i] == n[i - |m|];
      } else if i < |m| + |n| + |f| {
        assert s[i] == f[i - |m| - |n|];
        if i > |m| + |n| {
          assert s[i] == f[1..][i - |m| - |n| - 1];
        }
      } else {
        assert s[i] == e[i - |m| - |n| - |f|];
        ExpPlain(e, i - |m| - |n| - |f|);
      }
    }
    assert n[0] == s[|m|];
  }

  lemma {:induction false} SpanOf(text: string, rest: string)
    requires (forall i :: 0 <= i < |text| ==> NumberChar(text[i])) && Delimited(rest)
    ensures Span(text + rest) == |text|
    decreases |text|
  {
    if text == "" {
      assert text + rest == rest;
    } else {
      SpanOf(text[1..], rest);
      assert (text + rest)[1..] == text[1..] + rest;
    }
  }

  lemma {:induction false} ParseNumber(text: string, rest: string)
    requires IsNumber(text) && Delimited(rest)
    ensures ParseValue(text + rest) == Got(Number(text), rest)
  {
    hide IsNumber, ParseChars, ParseItems, ParseMembers, SkipWs;
    NumberPlain(text);
    SpanOf(text, rest);
    var s := text + rest;
    assert s[0] == text[0];
    assert s[..|text|] == text && s[|text|..] == rest;
  }

  lemma {:induction false} ParseString(text: string, rest: string)
    ensures ParseValue(Quoted(text) + rest) == Got(Str(Repaired(text)), rest)
  {
    hide IsNumber, ParseChars, ParseItems, ParseMembers, SkipWs, Span, Escaped;
    ParseEscaped(text, rest);
    var s := Quoted(text) + rest;
    assert s[0] == '"' && s[1..] == Escaped(text) + "\"" + rest;
  }

  lemma {:induction false} ParseWord(v: Value, rest: string)
    requires v.Null? || v.Bool?
    ensures ParseValue(Dump(v, 0, 0) + rest) == Got(v, rest)
  {
    hide IsNumber, ParseChars, ParseItems, ParseMembers, SkipWs, Span;
    var w := Dump(v, 0, 0);
    assert w <= w + rest && (w + rest)[|w|..] == rest;
    assert (w + rest)[0] == w[0];
  }

  lemma {:induction false} SkipSpaces(n: int, rest: string)
    ensures SkipWs(Spaces(n) + rest) == SkipWs(rest)
    decreases n
  {
    if n <= 0 {
      assert Spaces(n) + rest == rest;
    } else {
      SkipSpaces(n - 1, rest);
      assert Spaces(n) + rest == [' '] + (Spaces(n - 1) + rest);
    }
  }

  lemma {:induction false} SkipNewLine(indent: int, level: nat, rest: string)
    ensures SkipWs(NewLine(indent, level) + rest) == SkipWs(rest)
  {
    if indent >= 0 {
      SkipSpaces(indent * level, rest);
      assert NewLine(indent, level) + rest == "\n" + (Spaces(indent * level) + rest);
      assert ("\n" + (Spaces(indent * level) + rest))[1..] == Spaces(indent * level) + rest;
    } else {
      assert "" + rest == rest;
    }
  }

  /** The text of a value starts with no white space and does not close anything. */
  lemma {:induction false} DumpStart(v: Value, indent: int, level: nat)
    requires NumbersValid(v)
    ensures var s := Dump(v, indent, level); s != "" && !Ws(s[0]) && s[0] != ']' && s[0] != '}'
  {
    if v.Number? {
      NumberPlain(v.text);
    }
  }

  /** The items from item `k` on and the bracket that closes them. */
  function ItemsFrom(v: Value, k: nat, indent: int, level: nat): string
    requires v.Arr? && k < |v.items|
    decreases |v.items| - k
  {
    ItemText(v, k, indent, level) +
    if k + 1 == |v.items| then NewLine(indent, level) + "]" else "," + ItemsFrom(v, k + 1, indent, level)
  }

  lemma {:induction false} ItemsSplit(v: Value, k: nat, indent: int, level: nat)
    requires v.Arr? && k < |v.items|
    ensures ItemsText(v, |v.items|, indent, level) + NewLine(indent, level) + "]" ==
            ItemsText(v, k, indent, level) + (if k > 0 then "," else "") + ItemsFrom(v, k, indent, level)
    decreases |v.items| - k
  {
    hide ItemText, NewLine;
    var n := |v.items|;
    var front, sep, item := ItemsText(v, k, indent, level), if k > 0 then "," else "", ItemText(v, k, indent, level);
    assert ItemsText(v, k + 1, indent, level) == front + sep + item;
    if k + 1 < n {
      ItemsSplit(v, k + 1, indent, level);
      assert (front + sep + item) + "," + ItemsFrom(v, k + 1, indent, level) ==
             front + sep + (item + ("," + ItemsFrom(v, k + 1, indent, level)));
    } else {
      assert (front + sep + item) + NewLine(indent, level) + "]" == front + sep + (item + (NewLine(indent, level) + "]"));
    }
  }

  function MembersFrom(v: Value, k: nat, indent: int, level: nat): string
    requires v.Obj? && k < |v.members|
    decreases |v.members| - k
  {
    MemberText(v, k, indent, level) +
    if k + 1 == |v.members| then NewLine(indent, level) + "}" else "," + MembersFrom(v, k + 1, indent, level)
  }

  lemma {:induction false} MembersSplit(v: Value, k: nat, indent: int, level: nat)
    requires v.Obj? && k < |v.members|
    ensures MembersText(v, |v.members|, indent, level) + NewLine(indent, level) + "}" ==
            MembersText(v, k, indent, level) + (if k > 0 then "," else "") + MembersFrom(v, k, indent, level)
    decreases |v.members| - k
  {
    hide MemberText, NewLine;
    var n := |v.members|;
    var front, sep, m := MembersText(v, k, indent, level), if k > 0 then "," else "", MemberText(v, k, indent, level);
    assert MembersText(v, k + 1, indent, level) == front + sep + m;
    if k + 1 < n {
      MembersSplit(v, k + 1, indent, level);
      assert (front + sep + m) + "," + MembersFrom(v, k + 1, indent, level) ==
             front + sep + (m + ("," + MembersFrom(v, k + 1, indent, level)));
    } else {
      assert (front + sep + m) + NewLine(indent, level) + "}" == front + sep + (m + (NewLine(indent, level) + "}"));
    }
  }

  /** Reading the text of a value gives the value back, at every indent and level, and no more of the text is read. */
  lemma {:induction false} ParseDump(v: Value, indent: int, level: nat, rest: string)
    requires NumbersValid(v) && Delimited(rest)
    ensures ParseValue(Dump(v, indent, level) + rest) == Got(RepairedValue(v), rest)
    decreases v, 1, 0
  {
    hide ParseValue, Quoted, IsNumber, ItemsText, MembersText, NewLine;
    match v
    case Null => ParseWord(v, rest);
    case Bool(_) => ParseWord(v, rest);
    case Number(text) => ParseNumber(text, rest);
    case Str(text) => ParseString(text, rest);
    case Arr(items) =>
      if items == [] {
        ParseEmpty("[]", rest);
        assert RepairedValue(v).items == [];
      } else {
        ParseArray(v, indent, level, rest);
      }
    case Obj(members) =>
      if members == [] {
        ParseEmpty("{}", rest);
        assert RepairedValue(v).members == [];
      } else {
        ParseObject(v, indent, level, rest);
      }
  }

  lemma {:induction false} ParseEmpty(s: string, rest: string)
    requires s == "[]" || s == "{}"
    ensures ParseValue(s + rest) == Got(if s == "[]" then Arr([]) else Obj([]), rest)
  {
    hide IsNumber, ParseChars, ParseItems, ParseMembers, Span;
    var t := s + rest;
    assert t[0] == s[0] && t[1..][0] == s[1] && t[1..][1..] == rest;
  }

  lemma {:induction false} ParseArray(v: Value, indent: int, level: nat, rest: string)
    requires v.Arr? && v.items != [] && NumbersValid(v)
    ensures ParseValue(Dump(v, indent, level) + rest) == Got(RepairedValue(v), rest)
    decreases v, 0, |v.items| + 1
  {
    hide ItemsFrom, ItemsText, ItemText, MembersText, NewLine, SkipWs, ParseValue, IsNumber, NumbersValid;
    ItemsSplit(v, 0, indent, level);
    assert ItemsText(v, 0, indent, level) == "" by { NoItems(v, indent, level); }
    var body := ItemsFrom(v, 0, indent, level) + rest;
    var s := Dump(v, indent, level) + rest;
    Around("[", ItemsText(v, |v.items|, indent, level), NewLine(indent, level), "]", rest);
    assert "" + "" + ItemsFrom(v, 0, indent, level) == ItemsFrom(v, 0, indent, level);
    assert s == "[" + body;
    ItemsStart(v, indent, level, rest);
    ParseItemsFrom(v, 0, indent, level, rest);
    assert RepairedValue(v).items[0..] == RepairedValue(v).items;
    OpenArray(body);
  }

  lemma {:induction false} Around(open: string, text: string, gap: string, close: string, rest: string)
    ensures open + text + gap + close + rest == open + ((text + gap + close) + rest)
  {
  }

  lemma {:induction false} NoItems(v: Value, indent: int, level: nat)
    ensures v.Arr? ==> ItemsText(v, 0, indent, level) == ""
    ensures v.Obj? ==> MembersText(v, 0, indent, level) == ""
  {
  }

  lemma {:induction false} OpenArray(body: string)
    requires !StartsWith(SkipWs(body), ']')
    ensures ParseValue("[" + body) ==
            var r := ParseItems(body);
            if r.Got? then Got(Arr(r.value), r.rest) else Fail
  {
    hide IsNumber, ParseChars, ParseItems, ParseMembers, Span, SkipWs;
    assert ("[" + body)[0] == '[' && ("[" + body)[1..] == body;
  }

  lemma {:induction false} OpenObject(body: string)
    requires !StartsWith(SkipWs(body), '}')
    ensures ParseValue("{" + body) ==
            var r := ParseMembers(body);
            if r.Got? then Got(Obj(r.value), r.rest) else Fail
  {
    hide IsNumber, ParseChars, ParseItems, ParseMembers, Span, SkipWs;
    assert ("{" + body)[0] == '{' && ("{" + body)[1..] == body;
  }

  /** White space that a value follows. */
  lemma {:induction false} SkipToValue(v: Value, indent: int, level: nat, out: int, l: nat, more: string)
    requires NumbersValid(v)
    ensures SkipWs(NewLine(out, l) + (Dump(v, indent, level) + more)) == Dump(v, indent, level) + more
    ensures !StartsWith(Dump(v, indent, level) + more, ']')
  {
    hide Dump, NewLine, NumbersValid;
    DumpStart(v, indent, level);
    SkipNewLine(out, l, Dump(v, indent, level) + more);
    assert (Dump(v, indent, level) + more)[0] == Dump(v, indent, level)[0];
  }

  lemma {:induction false} ItemNumbers(v: Value, k: nat)
    requires NumbersValid(v)
    ensures v.Arr? && k < |v.items| ==> NumbersValid(v.items[k])
    ensures v.Obj? && k < |v.members| ==> NumbersValid(v.members[k].value)
  {
  }

  lemma {:induction false} ItemsStart(v: Value, indent: int, level: nat, rest: string)
    requires v.Arr? && v.items != [] && NumbersValid(v)
    ensures !StartsWith(SkipWs(ItemsFrom(v, 0, indent, level) + rest), ']')
  {
    hide Dump, NewLine, SkipWs, NumbersValid;
    ItemNumbers(v, 0);
    var tail := if 1 == |v.items| then NewLine(indent, level) + "]" else "," + ItemsFrom(v, 1, indent, level);
    SkipToValue(v.items[0], indent, level + 1, indent, level + 1, tail + rest);
    assert ItemsFrom(v, 0, indent, level) + rest ==
           NewLine(indent, level + 1) + (Dump(v.items[0], indent, level + 1) + (tail + rest));
  }

  lemma {:induction false} ParseItemsFrom(v: Value, k: nat, indent: int, level: nat, rest: string)
    requires v.Arr? && k < |v.items| && NumbersValid(v)
    ensures ParseItems(ItemsFrom(v, k, indent, level) + rest) == Got(RepairedValue(v).items[k..], rest)
    decreases v, 0, |v.items| - k
  {
    hide Dump, NewLine, SkipWs, NumbersValid, ParseValue, IsNumber, NumberChar, RepairedValue;
    ItemNumbers(v, k);
    var item := v.items[k];
    var tail := if k + 1 == |v.items| then NewLine(indent, level) + "]" else "," + ItemsFrom(v, k + 1, indent, level);
    var s := ItemsFrom(v, k, indent, level) + rest;
    assert s == NewLine(indent, level + 1) + (Dump(item, indent, level + 1) + (tail + rest));
    SkipToValue(item, indent, level + 1, indent, level + 1, tail + rest);
    RepairedAt(v, k);
    if k + 1 == |v.items| {
      assert tail + rest == NewLine(indent, level) + ("]" + rest);
      CloserDelimits(indent, level, ']', rest);
      ParseDump(item, indent, level + 1, tail + rest);
      LastItem(s, RepairedValue(item), tail + rest, rest);
      assert RepairedValue(v).items[k..] == [RepairedValue(item)];
    } else {
      var more := ItemsFrom(v, k + 1, indent, level) + rest;
      assert tail + rest == "," + more;
      CommaDelimits(more);
      ParseDump(item, indent, level + 1, tail + rest);
      ParseItemsFrom(v, k + 1, indent, level, rest);
      NextItem(s, RepairedValue(item), more);
      assert RepairedValue(v).items[k..] == [RepairedValue(item)] + RepairedValue(v).items[k + 1..];
    }
  }

  lemma {:induction false} RepairedAt(v: Value, k: nat)
    ensures RepairedValue(v).Arr? <==> v.Arr?
    ensures RepairedValue(v).Obj? <==> v.Obj?
    ensures v.Arr? ==> |RepairedValue(v).items| == |v.items|
    ensures v.Obj? ==> |RepairedValue(v).members| == |v.members|
    ensures v.Arr? && k < |v.items| ==> RepairedValue(v).items[k] == RepairedValue(v.items[k])
    ensures v.Obj? && k < |v.members| ==>
              RepairedValue(v).members[k] == Member(Repaired(v.members[k].key), RepairedValue(v.members[k].value))
  {
  }

  /** A closing bracket after a line break ends a number and is found behind the white space. */
  lemma {:induction false} CloserDelimits(indent: int, level: nat, c: char, rest: string)
    requires c == ']' || c == '}'
    ensures Delimited(NewLine(indent, level) + ([c] + rest))
    ensures SkipWs(NewLine(indent, level) + ([c] + rest)) == [c] + rest
  {
    SkipNewLine(indent, level, [c] + rest);
    if indent < 0 {
      assert NewLine(indent, level) + ([c] + rest) == [c] + rest;
    }
  }

  lemma {:induction false} CommaDelimits(more: string)
    ensures Delimited("," + more) && SkipWs("," + more) == "," + more
  {
  }

  lemma {:induction false} LastItem(s: string, v: Value, after: string, rest: string)
    requires ParseValue(SkipWs(s)) == Got(v, after) && SkipWs(after) == "]" + rest
    ensures ParseItems(s) == Got([v], rest)
  {
    hide ParseValue, SkipWs;
    assert ("]" + rest)[1..] == rest;
  }

  lemma {:induction false} NextItem(s: string, v: Value, more: string)
    requires ParseValue(SkipWs(s)) == Got(v, "," + more)
    ensures ParseItems(s) ==
            var r := ParseItems(more);
            if r.Got? then Got([v] + r.value, r.rest) else Fail
  {
    hide ParseValue, SkipWs;
    CommaDelimits(more);
    assert ("," + more)[1..] == more;
  }

  lemma {:induction false} ParseObject(v: Value, indent: int, level: nat, rest: string)
    requires v.Obj? && v.members != [] && NumbersValid(v)
    ensures ParseValue(Dump(v, indent, level) + rest) == Got(RepairedValue(v), rest)
    decreases v, 0, |v.members| + 1
  {
    hide MembersFrom, ItemsText, MemberText, MembersText, NewLine, SkipWs, ParseValue, IsNumber, NumbersValid;
    MembersSplit(v, 0, indent, level);
    assert MembersText(v, 0, indent, level) == "" by { NoItems(v, indent, level); }
    var body := MembersFrom(v, 0, indent, level) + rest;
    var s := Dump(v, indent, level) + rest;
    Around("{", MembersText(v, |v.members|, indent, level), NewLine(indent, level), "}", rest);
    assert "" + "" + MembersFrom(v, 0, indent, level) == MembersFrom(v, 0, indent, level);
    assert s == "{" + body;
    var tail := if 1 == |v.members| then NewLine(indent, level) + "}" else "," + MembersFrom(v, 1, indent, level);
    KeyAhead(v, 0, indent, level, tail + rest);
    MembersUnfold(v, 0, indent, level, tail, rest);
    ParseMembersFrom(v, 0, indent, level, rest);
    assert RepairedValue(v).members[0..] == RepairedValue(v).members;
    OpenObject(body);
  }

  lemma {:induction false} MembersUnfold(v: Value, k: nat, indent: int, level: nat, tail: string, rest: string)
    requires v.Obj? && k < |v.members|
    requires tail == if k + 1 == |v.members| then NewLine(indent, level) + "}" else "," + MembersFrom(v, k + 1, indent, level)
    ensures MembersFrom(v, k, indent, level) + rest == MemberText(v, k, indent, level) + (tail + rest)
  {
  }

  /** What follows the opening quotation mark of a key. */
  function AfterQuote(v: Value, k: nat, indent: int, level: nat, more: string): string
    requires v.Obj? && k < |v.members|
  {
    Escaped(v.members[k].key) + "\"" + (Colon(indent) + Dump(v.members[k].value, indent, level + 1) + more)
  }

  lemma {:induction false} KeyAhead(v: Value, k: nat, indent: int, level: nat, more: string)
    requires v.Obj? && k < |v.members|
    ensures SkipWs(MemberText(v, k, indent, level) + more) == "\"" + AfterQuote(v, k, indent, level, more)
  {
    hide Dump, NewLine, Escaped, Colon;
    var q := "\"" + AfterQuote(v, k, indent, level, more);
    SkipNewLine(indent, level + 1, q);
    assert MemberText(v, k, indent, level) + more == NewLine(indent, level + 1) + q;
  }

  lemma {:induction false} ParseMembersFrom(v: Value, k: nat, indent: int, level: nat, rest: string)
    requires v.Obj? && k < |v.members| && NumbersValid(v)
    ensures ParseMembers(MembersFrom(v, k, indent, level) + rest) == Got(RepairedValue(v).members[k..], rest)
    decreases v, 0, |v.members| - k
  {
    hide Dump, NewLine, SkipWs, NumbersValid, ParseValue, IsNumber, NumberChar, RepairedValue, MembersFrom, MemberText,
      ParseChars, Escaped, Repaired, Colon, ParseMembers, AfterQuote;
    ItemNumbers(v, k);
    var m := v.members[k];
    var tail := if k + 1 == |v.members| then NewLine(indent, level) + "}" else "," + MembersFrom(v, k + 1, indent, level);
    var s := MembersFrom(v, k, indent, level) + rest;
    MembersUnfold(v, k, indent, level, tail, rest);
    KeyAhead(v, k, indent, level, tail + rest);
    RepairedAt(v, k);
    var read := Member(Repaired(m.key), RepairedValue(m.value));
    if k + 1 == |v.members| {
      assert tail + rest == NewLine(indent, level) + ("}" + rest);
      CloserDelimits(indent, level, '}', rest);
      ParseDump(m.value, indent, level + 1, tail + rest);
      KeyAndValue(v, k, indent, level, tail + rest);
      LastMember(s, AfterQuote(v, k, indent, level, tail + rest), read, tail + rest, rest);
      assert RepairedValue(v).members[k..] == [read];
    } else {
      var more := MembersFrom(v, k + 1, indent, level) + rest;
      assert tail + rest == "," + more;
      CommaDelimits(more);
      ParseDump(m.value, indent, level + 1, tail + rest);
      KeyAndValue(v, k, indent, level, tail + rest);
      ParseMembersFrom(v, k + 1, indent, level, rest);
      NextMember(s, AfterQuote(v, k, indent, level, tail + rest), read, more);
      assert RepairedValue(v).members[k..] == [read] + RepairedValue(v).members[k + 1..];
    }
  }

  /** `q` is a string after its opening mark, a colon and a value, and `after` comes next. */
  ghost predicate ReadsMember(q: string, m: Member, after: string)
  {
    var k := ParseChars(q);
    && k.Got?
    && k.value == m.key
    && StartsWith(SkipWs(k.rest), ':')
    && ParseValue(SkipWs(SkipWs(k.rest)[1..])) == Got(m.value, after)
  }

  lemma {:induction false} KeyAndValue(v: Value, k: nat, indent: int, level: nat, more: string)
    requires v.Obj? && k < |v.members| && NumbersValid(v.members[k].value)
    requires ParseValue(Dump(v.members[k].value, indent, level + 1) + more) == Got(RepairedValue(v.members[k].value), more)
    ensures ReadsMember(AfterQuote(v, k, indent, level, more),
                        Member(Repaired(v.members[k].key), RepairedValue(v.members[k].value)), more)
  {
    hide Dump, ParseChars, Escaped, ParseValue, Repaired, RepairedValue, NumbersValid;
    var text := Dump(v.members[k].value, indent, level + 1) + more;
    var r := Colon(indent) + Dump(v.members[k].value, indent, level + 1) + more;
    ParseEscaped(v.members[k].key, r);
    DumpStart(v.members[k].value, indent, level + 1);
    assert text[0] == Dump(v.members[k].value, indent, level + 1)[0];
    assert SkipWs(text) == text;
    if indent >= 0 {
      assert r[1..] == " " + text;
      assert (" " + text)[1..] == text;
    } else {
      assert r[1..] == text;
    }
  }

  lemma {:induction false} LastMember(s: string, q: string, m: Member, after: string, rest: string)
    requires SkipWs(s) == "\"" + q && ReadsMember(q, m, after) && SkipWs(after) == "}" + rest
    ensures ParseMembers(s) == Got([m], rest)
  {
    hide ParseValue, SkipWs, ParseChars;
    assert ("\"" + q)[1..] == q;
    assert ("}" + rest)[1..] == rest;
  }

  lemma {:induction false} NextMember(s: string, q: string, m: Member, more: string)
    requires SkipWs(s) == "\"" + q && ReadsMember(q, m, "," + more)
    ensures ParseMembers(s) ==
            var r := ParseMembers(more);
            if r.Got? then Got([m] + r.value, r.rest) else Fail
  {
    hide ParseValue, SkipWs, ParseChars;
    CommaDelimits(more);
    assert ("\"" + q)[1..] == q;
    assert ("," + more)[1..] == more;
  }

  /** A serialized value is a JSON text of the repaired value, with or without a final line break. */
  lemma {:induction false} DumpIsText(v: Value, indent: int, level: nat)
    requires NumbersValid(v)
    ensures IsText(Dump(v, indent, level), RepairedValue(v))
    ensures IsText(Dump(v, indent, level) + "\n", RepairedValue(v))
  {
    hide Dump, ParseValue, NumbersValid, RepairedValue;
    ParseDump(v, indent, level, "");
    ParseDump(v, indent, level, "\n");
    DumpStart(v, indent, level);
    assert Dump(v, indent, level) + "" == Dump(v, indent, level);
    assert (Dump(v, indent, level) + "\n")[0] == Dump(v, indent, level)[0];
    assert SkipWs("\n") == "";
  }

  // ---------- Compact output stays on one line ----------

  predicate OneLine(s: string) { forall i :: 0 <= i < |s| ==> s[i] as int >= 0x20 }

  lemma {:induction false} OneLineJoin(s: string, t: string)
    requires OneLine(s) && OneLine(t)
    ensures OneLine(s + t)
  {
  }

  lemma {:induction false} QuotedOneLine(s: string)
    ensures OneLine(Quoted(s))
  {
    hide Escaped;
    forall i | 0 <= i < |Escaped(s)| ensures Escaped(s)[i] as int >= 0x20 {
      EscapedPlain(s, i);
    }
    OneLineJoin("\"", Escaped(s));
    OneLineJoin("\"" + Escaped(s), "\"");
  }

  lemma {:induction false} CompactOneLine(v: Value, indent: int, level: nat)
    requires indent < 0 && NumbersValid(v)
    ensures OneLine(Dump(v, indent, level))
    decreases v, 1, 0
  {
    hide OneLine, Quoted, IsNumber, ItemsText, MembersText;
    match v
    case Null => Words();
    case Bool(_) => Words();
    case Number(text) => NumberOneLine(text);
    case Str(text) => QuotedOneLine(text);
    case Arr(items) =>
      Words();
      ItemsOneLine(v, |items|, indent, level);
      OneLineJoin("[", ItemsText(v, |items|, indent, level));
      OneLineJoin("[" + ItemsText(v, |items|, indent, level), "");
      OneLineJoin("[" + ItemsText(v, |items|, indent, level) + "", "]");
    case Obj(members) =>
      Words();
      MembersOneLine(v, |members|, indent, level);
      OneLineJoin("{", MembersText(v, |members|, indent, level));
      OneLineJoin("{" + MembersText(v, |members|, indent, level), "");
      OneLineJoin("{" + MembersText(v, |members|, indent, level) + "", "}");
  }

  lemma {:induction false} Words()
    ensures OneLine("") && OneLine("null") && OneLine("true") && OneLine("false") && OneLine(",") && OneLine(":")
    ensures OneLine("[") && OneLine("]") && OneLine("{") && OneLine("}") && OneLine("[]") && OneLine("{}")
  {
  }

  lemma {:induction false} NumberOneLine(s: string)
    requires IsNumber(s)
    ensures OneLine(s)
  {
    hide IsNumber;
    NumberPlain(s);
  }

  lemma {:induction false} ItemsOneLine(v: Value, k: nat, indent: int, level: nat)
    requires v.Arr? && k <= |v.items| && indent < 0 && NumbersValid(v)
    ensures OneLine(ItemsText(v, k, indent, level))
    decreases v, 0, k
  {
    hide OneLine, Dump;
    Words();
    if k > 0 {
      ItemsOneLine(v, k - 1, indent, level);
      CompactOneLine(v.items[k - 1], indent, level + 1);
      var sep := if k > 1 then "," else "";
      OneLineJoin(ItemsText(v, k - 1, indent, level), sep);
      OneLineJoin("", Dump(v.items[k - 1], indent, level + 1));
      OneLineJoin(ItemsText(v, k - 1, indent, level) + sep, ItemText(v, k - 1, indent, level));
    }
  }

  lemma {:induction false} MembersOneLine(v: Value, k: nat, indent: int, level: nat)
    requires v.Obj? && k <= |v.members| && indent < 0 && NumbersValid(v)
    ensures OneLine(MembersText(v, k, indent, level))
    decreases v, 0, k
  {
    hide OneLine, Dump, Quoted;
    Words();
    if k > 0 {
      var m := v.members[k - 1];
      MembersOneLine(v, k - 1, indent, level);
      QuotedOneLine(m.key);
      CompactOneLine(m.value, indent, level + 1);
      var sep := if k > 1 then "," else "";
      OneLineJoin(MembersText(v, k - 1, indent, level), sep);
      OneLineJoin("", Quoted(m.key));
      OneLineJoin("" + Quoted(m.key), ":");
      OneLineJoin("" + Quoted(m.key) + ":", Dump(m.value, indent, level + 1));
      OneLineJoin(MembersText(v, k - 1, indent, level) + sep, MemberText(v, k - 1, indent, level));
    }
  }

  // ---------- Indented output ----------

  /** The text with every line but the first moved `n` columns to the right. */
  function Moved(s: string, n: nat): string
  {
    if s == "" then "" else (if s[0] == '\n' then "\n" + Spaces(n) else [s[0]]) + Moved(s[1..], n)
  }

  lemma {:induction false} MovedJoin(s: string, t: string, n: nat)
    ensures Moved(s + t, n) == Moved(s, n) + Moved(t, n)
    decreases |s|
  {
    if s == "" {
      assert s + t == t;
    } else {
      MovedJoin(s[1..], t, n);
      assert (s + t)[1..] == s[1..] + t;
    }
  }

  lemma {:induction false} MovedLine(s: string, n: nat)
    requires OneLine(s)
    ensures Moved(s, n) == s
    decreases |s|
  {
    if s != "" {
      MovedLine(s[1..], n);
    }
  }

  lemma {:induction false} SpacesOneLine(n: int)
    ensures OneLine(Spaces(n))
  {
  }

  lemma {:induction false} BreakMoved(line: string, n: nat)
    requires OneLine(line)
    ensures Moved("\n" + line, n) == "\n" + Spaces(n) + line
  {
    hide Spaces;
    MovedLine(line, n);
    assert ("\n" + line)[1..] == line;
  }

  lemma {:induction false} MovedBreak(indent: nat, level: nat, more: nat)
    ensures Moved(NewLine(indent, level), indent * more) == NewLine(indent, level + more)
  {
    hide Moved, Spaces;
    var a, b := indent * level, indent * more;
    assert a >= 0 && b >= 0 && indent * (level + more) == b + a;
    SpacesOneLine(a);
    BreakMoved(Spaces(a), b);
    SpacesJoin(b, a);
    assert "\n" + Spaces(b) + Spaces(a) == "\n" + (Spaces(b) + Spaces(a));
  }

  lemma SpacesJoin(a: nat, b: nat)
    ensures Spaces(a) + Spaces(b) == Spaces(a + b)
  {
  }

  lemma {:induction false} MovedParts(a: string, b: string, c: string, d: string, n: nat)
    ensures Moved(a + b + c + d, n) == Moved(a, n) + Moved(b, n) + Moved(c, n) + Moved(d, n)
  {
    hide Moved;
    MovedJoin(a + b + c, d, n);
    MovedJoin(a + b, c, n);
    MovedJoin(a, b, n);
  }

  lemma {:induction false} MovedWords(n: nat)
    ensures Moved("", n) == "" && Moved("null", n) == "null" && Moved("true", n) == "true" && Moved("false", n) == "false"
    ensures Moved(",", n) == "," && Moved(": ", n) == ": " && Moved("[", n) == "[" && Moved("]", n) == "]"
    ensures Moved("{", n) == "{" && Moved("}", n) == "}" && Moved("[]", n) == "[]" && Moved("{}", n) == "{}"
  {
    hide Moved;
    Words();
    MovedLine("", n);
    MovedLine("null", n);
    MovedLine("true", n);
    MovedLine("false", n);
    MovedLine(",", n);
    MovedLine(": ", n);
    MovedLine("[", n);
    MovedLine("]", n);
    MovedLine("{", n);
    MovedLine("}", n);
    MovedLine("[]", n);
    MovedLine("{}", n);
  }

  /** At a deeper level every line but the first is indented by as much more; nothing else changes. */
  lemma {:induction false} DeeperIndented(v: Value, indent: nat, level: nat, more: nat)
    requires NumbersValid(v)
    ensures Dump(v, indent, level + more) == Moved(Dump(v, indent, level), indent * more)
    decreases v, 1, 0
  {
    hide Moved, OneLine, Quoted, IsNumber, ItemsText, MembersText, NewLine;
    var n := indent * more;
    MovedWords(n);
    MovedBreak(indent, level, more);
    match v
    case Null =>
    case Bool(_) =>
    case Number(text) => NumberOneLine(text); MovedLine(text, n);
    case Str(text) => QuotedOneLine(text); MovedLine(Quoted(text), n);
    case Arr(items) =>
      ItemsDeeper(v, |items|, indent, level, more);
      MovedParts("[", ItemsText(v, |items|, indent, level), NewLine(indent, level), "]", n);
    case Obj(members) =>
      MembersDeeper(v, |members|, indent, level, more);
      MovedParts("{", MembersText(v, |members|, indent, level), NewLine(indent, level), "}", n);
  }

  lemma {:induction false} ItemsDeeper(v: Value, k: nat, indent: nat, level: nat, more: nat)
    requires v.Arr? && k <= |v.items| && NumbersValid(v)
    ensures ItemsText(v, k, indent, level + more) == Moved(ItemsText(v, k, indent, level), indent * more)
    decreases v, 0, k
  {
    hide Moved, OneLine, Dump, NewLine;
    var n := indent * more;
    MovedWords(n);
    if k > 0 {
      var x := v.items[k - 1];
      ItemsDeeper(v, k - 1, indent, level, more);
      DeeperIndented(x, indent, level + 1, more);
      MovedBreak(indent, level + 1, more);
      var (nl, text) := (NewLine(indent, level + 1), Dump(x, indent, level + 1));
      var sep := if k > 1 then "," else "";
      MovedJoin(nl, text, n);
      MovedJoin(ItemsText(v, k - 1, indent, level) + sep, nl + text, n);
      MovedJoin(ItemsText(v, k - 1, indent, level), sep, n);
      assert level + 1 + more == level + more + 1;
    }
  }

  lemma {:induction false} MembersDeeper(v: Value, k: nat, indent: nat, level: nat, more: nat)
    requires v.Obj? && k <= |v.members| && NumbersValid(v)
    ensures MembersText(v, k, indent, level + more) == Moved(MembersText(v, k, indent, level), indent * more)
    decreases v, 0, k
  {
    hide Moved, OneLine, Dump, NewLine, Quoted;
    var n := indent * more;
    MovedWords(n);
    if k > 0 {
      var m := v.members[k - 1];
      MembersDeeper(v, k - 1, indent, level, more);
      DeeperIndented(m.value, indent, level + 1, more);
      MovedBreak(indent, level + 1, more);
      QuotedOneLine(m.key);
      MovedLine(Quoted(m.key), n);
      var (nl, text) := (NewLine(indent, level + 1), Dump(m.value, indent, level + 1));
      var sep := if k > 1 then "," else "";
      MovedParts(nl, Quoted(m.key), ": ", text, n);
      MovedJoin(MembersText(v, k - 1, indent, level) + sep, nl + Quoted(m.key) + ": " + text, n);
      MovedJoin(MembersText(v, k - 1, indent, level), sep, n);
      assert level + 1 + more == level + more + 1;
    }
  }

  /** An item stands on a line of its own, one step further to the right than its array. */
  lemma {:induction false} ItemIndented(v: Value, indent: nat)
    requires NumbersValid(v)
    ensures Dump(Arr([v]), indent, 0) == "[\n" + Spaces(indent) + Moved(Dump(v, indent, 0), indent) + "\n]"
  {
    hide Moved, Dump, Spaces;
    DeeperIndented(v, indent, 0, 1);
    assert indent * 1 == indent;
    OneItem(v, indent);
    assert Spaces(0) == "" by { SpacesJoin(0, 0); }
  }

  lemma {:induction false} OneItem(v: Value, indent: nat)
    ensures Dump(Arr([v]), indent, 0) == "[" + (NewLine(indent, 1) + Dump(v, indent, 1)) + NewLine(indent, 0) + "]"
    ensures NewLine(indent, 0) == "\n" + Spaces(0) && NewLine(indent, 1) == "\n" + Spaces(indent)
  {
    hide Spaces;
    var a := Arr([v]);
    assert indent * 0 == 0 && indent * 1 == indent;
    assert ItemsText(a, 0, indent, 0) == "" && "" + "" + ItemText(a, 0, indent, 0) == ItemText(a, 0, indent, 0);
    assert ItemsText(a, 1, indent, 0) == ItemText(a, 0, indent, 0);
  }
}
