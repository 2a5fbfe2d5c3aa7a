/**
 * JSON texts by RFC 8259, as a reference parser. A text is a sequence of bytes; a char stands for
 * the byte of the same number, and no char above 255 occurs in what the writer is given.
 */
module JsonGrammar {

  /** A value whose numbers are kept as written and whose objects keep the order of their members. */
  datatype Value =
    | Null
    | Bool(b: bool)
    | Number(text: string)
    | Str(text: string)
    | Arr(items: seq<Value>)
    | Obj(members: seq<Member>)

  datatype Member = Member(key: string, value: Value)

  datatype Parsed<T> = Fail | Got(value: T, rest: string)

  // ---------- UTF-8, section 4 of RFC 3629 ----------

  predicate Tail(c: char) { 0x80 <= c as int <= 0xBF }

  predicate Utf8Two(s: string)
  {
    |s| >= 2 && 0xC2 <= s[0] as int <= 0xDF && Tail(s[1])
  }

  predicate Utf8Three(s: string)
  {
    && |s| >= 3
    && Tail(s[1])
    && Tail(s[2])
    && (|| (s[0] as int == 0xE0 && 0xA0 <= s[1] as int)
        || 0xE1 <= s[0] as int <= 0xEC
        || (s[0] as int == 0xED && s[1] as int <= 0x9F)
        || 0xEE <= s[0] as int <= 0xEF)
  }

  predicate Utf8Four(s: string)
  {
    && |s| >= 4
    && Tail(s[1])
    && Tail(s[2])
    && Tail(s[3])
    && (|| (s[0] as int == 0xF0 && 0x90 <= s[1] as int)
        || 0xF1 <= s[0] as int <= 0xF3
        || (s[0] as int == 0xF4 && s[1] as int <= 0x8F))
  }

  /** Length of the multi-byte character that starts `s`; 0 if there is none. */
  function MultiByte(s: string): (n: nat)
    ensures n <= |s| && n != 1
  {
    if Utf8Two(s) then 2 else if Utf8Three(s) then 3 else if Utf8Four(s) then 4 else 0
  }

  predicate WellFormedUtf8(s: string)
  {
    if s == "" then true
    else if s[0] as int < 0x80 then WellFormedUtf8(s[1..])
    else MultiByte(s) > 0 && WellFormedUtf8(s[MultiByte(s)..])
  }

  // ---------- Numbers, section 6 ----------

  predicate Digit(c: char) { '0' <= c <= '9' }

  predicate Digits(s: string) { s != "" && forall i :: 0 <= i < |s| ==> Digit(s[i]) }

  /** int = zero / ( digit1-9 *DIGIT ) */
  predicate IntPart(s: string) { s == "0" || (Digits(s) && s[0] != '0') }

  /** frac = decimal-point 1*DIGIT, or nothing */
  predicate FracPart(s: string) { s == "" || (s[0] == '.' && Digits(s[1..])) }

  /** exp = e [ minus / plus ] 1*DIGIT, or nothing */
  predicate ExpPart(s: string)
  {
    || s == ""
    || ((s[0] == 'e' || s[0] == 'E') &&
        (Digits(s[1..]) || (|s| > 1 && (s[1] == '+' || s[1] == '-') && Digits(s[2..]))))
  }

  /** number = [ minus ] int [ frac ] [ exp ] */
  ghost predicate IsNumber(s: string)
  {
    exists minus: string, i: string, f: string, e: string ::
      NumberParts(s, minus, i, f, e)
  }

  predicate NumberParts(s: string, minus: string, i: string, f: string, e: string)
  {
    s == minus + i + f + e && (minus == "" || minus == "-") && IntPart(i) && FracPart(f) && ExpPart(e)
  }

  predicate NumberChar(c: char) { Digit(c) || c in "+-.eE" }

  /** How many characters at the front of `s` can belong to a number. */
  function Span(s: string): (n: nat)
    ensures n <= |s|
  {
    if s == "" || !NumberChar(s[0]) then 0 else 1 + Span(s[1..])
  }

  // ---------- Strings, section 7 ----------

  function HexDigit(c: char): (d: int)
    ensures -1 <= d < 16
  {
    if '0' <= c <= '9' then c as int - '0' as int
    else if 'a' <= c <= 'f' then c as int - 'a' as int + 10
    else if 'A' <= c <= 'F' then c as int - 'A' as int + 10
    else -1
  }

  function Hex4(s: string): (u: int)
    ensures -1 <= u < 0x1_0000
  {
    if |s| >= 4 && HexDigit(s[0]) >= 0 && HexDigit(s[1]) >= 0 && HexDigit(s[2]) >= 0 && HexDigit(s[3]) >= 0 then
      HexDigit(s[0]) * 0x1000 + HexDigit(s[1]) * 0x100 + HexDigit(s[2]) * 0x10 + HexDigit(s[3])
    else -1
  }

  /** The bytes of a UTF-16 unit; halves of surrogate pairs are kept one by one. */
  function UnitBytes(u: int): string
    requires 0 <= u < 0x1_0000
  {
    if u < 0x80 then [u as char]
    else if u < 0x800 then [(0xC0 + u / 0x40) as char, (0x80 + u % 0x40) as char]
    else [(0xE0 + u / 0x1000) as char, (0x80 + u / 0x40 % 0x40) as char, (0x80 + u % 0x40) as char]
  }

  /** What `\c` stands for, or the empty string. */
  function SimpleEscape(c: char): (r: string)
    ensures |r| <= 1
  {
    if c == '"' || c == '\\' || c == '/' then [c]
    else if c == 'b' then [8 as char]
    else if c == 'f' then [12 as char]
    else if c == 'n' then [10 as char]
    else if c == 'r' then [13 as char]
    else if c == 't' then [9 as char]
    else ""
  }

  /** The characters of a string after its opening quotation mark. */
  function ParseChars(s: string): (r: Parsed<string>)
    ensures r.Got? ==> |r.rest| < |s|
    decreases |s|
  {
    if s == "" then Fail
    else if s[0] == '"' then Got("", s[1..])
    else if s[0] == '\\' then
      if |s| < 2 then Fail
      else if s[1] == 'u' then
        if Hex4(s[2..]) < 0 then Fail else Before(UnitBytes(Hex4(s[2..])), ParseChars(s[6..]))
      else if SimpleEscape(s[1]) == "" then Fail
      else Before(SimpleEscape(s[1]), ParseChars(s[2..]))
    else if s[0] as int < 0x20 then Fail
    else if s[0] as int < 0x80 then Before([s[0]], ParseChars(s[1..]))
    else if MultiByte(s) == 0 then Fail
    else Before(s[..MultiByte(s)], ParseChars(s[MultiByte(s)..]))
  }

  function Before(front: string, r: Parsed<string>): Parsed<string>
  {
    if r.Got? then Got(front + r.value, r.rest) else Fail
  }

  // ---------- Values, sections 2 to 5 ----------

  predicate Ws(c: char) { c == ' ' || c == '\n' || c == '\r' || c == '\t' }

  function SkipWs(s: string): (r: string)
    ensures |r| <= |s|
  {
    if s != "" && Ws(s[0]) then SkipWs(s[1..]) else s
  }

  predicate StartsWith(s: string, c: char) { s != "" && s[0] == c }

  ghost function ParseValue(s: string): (r: Parsed<Value>)
    ensures r.Got? ==> |r.rest| < |s|
    decreases |s|, 0
  {
    if s == "" then Fail
    else if "null" <= s then Got(Null, s[4..])
    else if "true" <= s then Got(Bool(true), s[4..])
    else if "false" <= s then Got(Bool(false), s[5..])
    else if s[0] == '"' then
      var r := ParseChars(s[1..]);
      if r.Got? then Got(Str(r.value), r.rest) else Fail
    else if s[0] == '[' then
      if StartsWith(SkipWs(s[1..]), ']') then Got(Arr([]), SkipWs(s[1..])[1..])
      else
        var r := ParseItems(s[1..]);
        if r.Got? then Got(Arr(r.value), r.rest) else Fail
    else if s[0] == '{' then
      if StartsWith(SkipWs(s[1..]), '}') then Got(Obj([]), SkipWs(s[1..])[1..])
      else
        var r := ParseMembers(s[1..]);
        if r.Got? then Got(Obj(r.value), r.rest) else Fail
    else if Span(s) > 0 && IsNumber(s[..Span(s)]) then Got(Number(s[..Span(s)]), s[Span(s)..])
    else Fail
  }

  /** value *( , value ) ] with white space around every value */
  ghost function ParseItems(s: string): (r: Parsed<seq<Value>>)
    ensures r.Got? ==> |r.rest| < |s|
    decreases |s|, 1
  {
    var v := ParseValue(SkipWs(s));
    if v.Fail? then Fail
    else
      var after := SkipWs(v.rest);
      if StartsWith(after, ']') then Got([v.value], after[1..])
      else if StartsWith(after, ',') then
        var more := ParseItems(after[1..]);
        if more.Got? then Got([v.value] + more.value, more.rest) else Fail
      else Fail
  }

  /** string : value *( , string : value ) } with white space around every string and value */
  ghost function ParseMembers(s: string): (r: Parsed<seq<Member>>)
    ensures r.Got? ==> |r.rest| < |s|
    decreases |s|, 1
  {
    var q := SkipWs(s);
    if !StartsWith(q, '"') then Fail
    else
      var k := ParseChars(q[1..]);
      if k.Fail? || !StartsWith(SkipWs(k.rest), ':') then Fail
      else
        var v := ParseValue(SkipWs(SkipWs(k.rest)[1..]));
        if v.Fail? then Fail
        else
          var after := SkipWs(v.rest);
          if StartsWith(after, '}') then Got([Member(k.value, v.value)], after[1..])
          else if StartsWith(after, ',') then
            var more := ParseMembers(after[1..]);
            if more.Got? then Got([Member(k.value, v.value)] + more.value, more.rest) else Fail
          else Fail
  }

  /** Is `s` a JSON text, and of which value? JSON-text = ws value ws */
  ghost predicate IsText(s: string, v: Value)
  {
    var r := ParseValue(SkipWs(s));
    r.Got? && r.value == v && SkipWs(r.rest) == ""
  }
}
