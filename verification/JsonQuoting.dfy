/** Quoting strings and recognising numbers, against the grammar of RFC 8259. */
module JsonQuoting {
  import opened JsonGrammar

  // ---------- Quoting ----------

  /** How many bytes are quoted together: a whole multi-byte character or a single byte. */
  function UnitLength(s: string): (n: nat)
    requires s != ""
    ensures 1 <= n <= |s|
  {
    if s[0] as int >= 0x80 && MultiByte(s) > 0 then MultiByte(s) else 1
  }

  function HexChar(d: nat): char
    requires d < 16
  {
    "0123456789abcdef"[d]
  }

  /** One byte as it stands in a string. */
  function Escape(c: char): string
  {
    if c == '"' then "\\\""
    else if c == '\\' then "\\\\"
    else if c as int == 8 then "\\b"
    else if c as int == 12 then "\\f"
    else if c as int == 10 then "\\n"
    else if c as int == 13 then "\\r"
    else if c as int == 9 then "\\t"
    else if c as int < 0x20 then "\\u00" + [HexChar(c as int / 16), HexChar(c as int % 16)]
    else if c as int < 0x80 then [c]
    else "\\ufffd"
  }

  function Escaped(s: string): string
  {
    if s == "" then ""
    else
      var n := UnitLength(s);
      (if n == 1 then Escape(s[0]) else s[..n]) + Escaped(s[n..])
  }

  function Quoted(s: string): string { "\"" + Escaped(s) + "\"" }

  /** U+FFFD in UTF-8. */
  const REPLACEMENT: string := UnitBytes(0xFFFD)

  /** The string with every byte that is not part of a UTF-8 character replaced. */
  function Repaired(s: string): string
  {
    if s == "" then ""
    else
      var n := UnitLength(s);
      (if n == 1 && s[0] as int >= 0x80 then REPLACEMENT else s[..n]) + Repaired(s[n..])
  }

  /** A multi-byte character is recognised by its own bytes alone. */
  lemma {:induction false} MultiByteLocal(s: string, more: string)
    requires MultiByte(s) > 0
    ensures s[0] as int >= 0x80 && MultiByte(s[..MultiByte(s)] + more) == MultiByte(s)
  {
    var n := MultiByte(s);
    var t := s[..n] + more;
    assert forall i :: 0 <= i < n ==> t[i] == s[i];
  }

  lemma {:induction false} RepairedKeepsUtf8(s: string)
    requires WellFormedUtf8(s)
    ensures Repaired(s) == s
    decreases |s|
  {
    if s != "" {
      var n := UnitLength(s);
      RepairedKeepsUtf8(s[n..]);
      assert s == s[..n] + s[n..];
    }
  }

  lemma {:induction false} RepairedIsUtf8(s: string)
    ensures WellFormedUtf8(Repaired(s))
    decreases |s|
  {
    if s != "" {
      var n := UnitLength(s);
      RepairedIsUtf8(s[n..]);
      var rest := Repaired(s[n..]);
      if s[0] as int < 0x80 {
        assert ([s[0]] + rest)[1..] == rest;
        assert s[..1] == [s[0]];
      } else if n == 1 {
        var t := REPLACEMENT + rest;
        assert REPLACEMENT == [0xEF as char, 0xBF as char, 0xBD as char];
        assert t[0] as int == 0xEF && Tail(t[1]) && Tail(t[2]);
        assert MultiByte(t) == 3 && t[3..] == rest;
      } else {
        MultiByteLocal(s, rest);
        var t := s[..n] + rest;
        assert t[0] == s[0] && t[n..] == rest;
      }
    }
  }

  lemma {:induction false} ParseControl(c: char, more: string)
    requires c as int < 0x20
    ensures ParseChars("\\u00" + [HexChar(c as int / 16), HexChar(c as int % 16)] + more) == Before([c], ParseChars(more))
  {
    var t := "\\u00" + [HexChar(c as int / 16), HexChar(c as int % 16)] + more;
    var u := t[2..];
    assert u[0] == '0' && u[1] == '0' && u[2] == HexChar(c as int / 16) && u[3] == HexChar(c as int % 16);
    HexValue(c as int / 16);
    HexValue(c as int % 16);
    assert Hex4(u) == c as int;
    assert t[6..] == more;
  }

  lemma {:induction false} HexValue(d: nat)
    requires d < 16
    ensures HexDigit(HexChar(d)) == d
  {
  }

  lemma {:induction false} ParseShort(c: char, more: string)
    requires SimpleEscape(c) != ""
    ensures ParseChars(['\\', c] + more) == Before(SimpleEscape(c), ParseChars(more))
  {
    assert (['\\', c] + more)[2..] == more;
  }

  /** What the parser makes of one escaped byte. */
  lemma {:induction false} ParseEscape(c: char, more: string)
    requires c as int < 0x80
    ensures ParseChars(Escape(c) + more) == Before([c], ParseChars(more))
  {
    if |Escape(c)| == 6 {
      hide ParseChars;
      ParseControl(c, more);
    } else if |Escape(c)| == 2 {
      hide ParseChars;
      assert Escape(c) == ['\\', Escape(c)[1]];
      ParseShort(Escape(c)[1], more);
    } else {
      assert (Escape(c) + more)[1..] == more;
    }
  }

  lemma {:induction false} ParseReplacement(more: string)
    ensures ParseChars("\\ufffd" + more) == Before(REPLACEMENT, ParseChars(more))
  {
    var t := "\\ufffd" + more;
    assert t[2..][0] == 'f' && t[2..][1] == 'f' && t[2..][2] == 'f' && t[2..][3] == 'd';
    assert Hex4(t[2..]) == 0xFFFD;
    assert t[6..] == more;
  }

  lemma {:induction false} ParseMultiByte(s: string, more: string)
    requires MultiByte(s) > 0
    ensures ParseChars(s[..MultiByte(s)] + more) == Before(s[..MultiByte(s)], ParseChars(more))
  {
    var n := MultiByte(s);
    var t := s[..n] + more;
    MultiByteLocal(s, more);
    assert t[0] == s[0];
    assert t[..n] == s[..n] && t[n..] == more;
  }

  /** Bytes that stand for themselves in a string. */
  predicate Clean(s: string) { forall i :: 0 <= i < |s| ==> s[i] as int >= 0x20 && s[i] != '"' && s[i] != '\\' }

  /** Only escapes make a string longer: what is well-formed and has nothing to escape stays as it is, and nothing else does. */
  lemma {:induction false} EscapedSame(s: string)
    ensures |Escaped(s)| >= |s|
    ensures Escaped(s) == s <==> WellFormedUtf8(s) && Clean(s)
    ensures |Escaped(s)| == |s| ==> Escaped(s) == s
    decreases |s|
  {
    hide Escape, Clean, MultiByte;
    if s == "" {
      assert Clean(s) by { NothingClean(); }
    } else {
      var n := UnitLength(s);
      var head := if n == 1 then Escape(s[0]) else s[..n];
      EscapedSame(s[n..]);
      assert s == s[..n] + s[n..];
      UnitClean(s);
      assert Escaped(s) == head + Escaped(s[n..]);
      assert |head| >= n && (|head| == n ==> head == s[..n]);
      assert WellFormedUtf8(s) <==> (n > 1 || s[0] as int < 0x80) && WellFormedUtf8(s[n..]);
      if |Escaped(s)| == |s| {
        assert |head| == n;
      }
    }
  }

  lemma NothingClean()
    ensures Clean("")
  {
  }

  lemma UnitClean(s: string)
    requires s != ""
    ensures var n := UnitLength(s);
            && (Clean(s) <==> Clean(s[..n]) && Clean(s[n..]))
            && (n > 1 ==> Clean(s[..n]))
            && (n == 1 ==> |Escape(s[0])| >= 1 && (|Escape(s[0])| == 1 <==> Clean(s[..1]) && s[0] as int < 0x80))
            && (n == 1 && |Escape(s[0])| == 1 ==> Escape(s[0]) == s[..1])
  {
    var n := UnitLength(s);
    assert s == s[..n] + s[n..];
    assert forall i :: 0 <= i < n ==> s[..n][i] == s[i];
    assert forall i :: n <= i < |s| ==> s[n..][i - n] == s[i];
  }

  /** How many bytes of a string belong to no character. */
  function Bad(s: string): nat
  {
    if s == "" then 0 else Bad(s[UnitLength(s)..]) + if s[0] as int >= 0x80 && MultiByte(s) == 0 then 1 else 0
  }

  /** Each bad byte becomes the three bytes of U+FFFD, and nothing else changes. */
  lemma {:induction false} RepairedSize(s: string)
    ensures |Repaired(s)| == |s| + 2 * Bad(s)
    ensures Repaired(s) == s <==> WellFormedUtf8(s)
    ensures s != "" && s[0] as int >= 0x80 && MultiByte(s) == 0 ==>
              Repaired(s) == [239 as char, 191 as char, 189 as char] + Repaired(s[1..])
    decreases |s|
  {
    if s != "" {
      var n := UnitLength(s);
      RepairedSize(s[n..]);
      assert s == s[..n] + s[n..];
    }
    if WellFormedUtf8(s) {
      RepairedKeepsUtf8(s);
    }
  }

  /** A quoted string reads back as the repaired string, whatever its bytes are. */
  lemma {:induction false} ParseEscaped(s: string, rest: string)
    ensures ParseChars(Escaped(s) + "\"" + rest) == Got(Repaired(s), rest)
    decreases |s|
  {
    hide ParseChars, MultiByte, Escape;
    if s == "" {
      ParseQuote(rest);
      assert Escaped(s) + "\"" + rest == "\"" + rest;
    } else {
      var n := UnitLength(s);
      var more := Escaped(s[n..]) + "\"" + rest;
      ParseEscaped(s[n..], rest);
      if n > 1 {
        ParseMultiByte(s, more);
        assert Escaped(s) + "\"" + rest == s[..n] + more;
      } else if s[0] as int >= 0x80 {
        ParseReplacement(more);
        BadByte(s[0]);
        assert Escaped(s) + "\"" + rest == "\\ufffd" + more;
      } else {
        ParseEscape(s[0], more);
        assert Escaped(s) + "\"" + rest == Escape(s[0]) + more;
        assert s[..1] == [s[0]];
      }
    }
  }

  lemma {:induction false} ParseQuote(rest: string)
    ensures ParseChars("\"" + rest) == Got("", rest)
  {
    assert ("\"" + rest)[1..] == rest;
  }

  lemma {:induction false} BadByte(c: char)
    requires c as int >= 0x80
    ensures Escape(c) == "\\ufffd"
  {
  }

  /** No byte below the space survives, so a quoted string never breaks a line. */
  lemma {:induction false} EscapedPlain(s: string, i: nat)
    requires i < |Escaped(s)|
    ensures Escaped(s)[i] as int >= 0x20
    decreases |s|
  {
    if s != "" {
      var n := UnitLength(s);
      var front := if n == 1 then Escape(s[0]) else s[..n];
      if i < |front| {
        FrontPlain(s, i);
      } else {
        EscapedPlain(s[n..], i - |front|);
      }
    }
  }

  lemma {:induction false} FrontPlain(s: string, i: nat)
    requires s != "" && i < |if UnitLength(s) == 1 then Escape(s[0]) else s[..UnitLength(s)]|
    ensures (if UnitLength(s) == 1 then Escape(s[0]) else s[..UnitLength(s)])[i] as int >= 0x20
  {
    if UnitLength(s) > 1 {
      assert s[..UnitLength(s)][i] == s[i];
    }
  }

  function SeqLength(c: char): nat
  {
    var b := c as int;
    if b < 0x80 then 1
    else if b / 0x20 == 6 then 2
    else if b / 0x10 == 14 then 3
    else if b / 8 == 30 then 4
    else 0
  }

  /** The number that the first `n` bytes of a sequence of length `len` encode. */
  function CodePoint(s: string, len: nat, n: nat): nat
    requires 1 <= n <= |s| && 2 <= len <= 4
  {
    if n == 1 then s[0] as int % (if len == 2 then 0x20 else if len == 3 then 0x10 else 8)
    else CodePoint(s, len, n - 1) * 0x40 + s[n - 1] as int % 0x40
  }

  predicate Legal(len: nat, cp: nat)
  {
    && (len == 2 ==> cp >= 0x80)
    && (len == 3 ==> cp >= 0x800 && !(0xD800 <= cp <= 0xDFFF))
    && (len == 4 ==> 0x10000 <= cp <= 0x10FFFF)
  }

  /** Overlong, surrogate and out-of-range sequences are just those that RFC 3629 leaves out. */
  lemma {:induction false} LegalIsUtf8(s: string, len: nat)
    requires s != "" && len == SeqLength(s[0]) >= 2
    ensures MultiByte(s) == len <==>
            && len <= |s|
            && (forall k :: 1 <= k < len ==> Tail(s[k]))
            && Legal(len, CodePoint(s, len, len))
  {
    if len <= |s| && (forall k :: 1 <= k < len ==> Tail(s[k])) {
      assert Tail(s[1]);
      if len == 2 {
        LegalTwo(s);
      } else if len == 3 {
        assert Tail(s[2]);
        LegalThree(s);
      } else {
        assert Tail(s[2]) && Tail(s[3]);
        LegalFour(s);
      }
    }
  }

  lemma {:induction false} LegalTwo(s: string)
    requires |s| >= 2 && SeqLength(s[0]) == 2 && Tail(s[1])
    ensures MultiByte(s) == 2 <==> Legal(2, CodePoint(s, 2, 2))
  {
    assert CodePoint(s, 2, 2) == (s[0] as int - 0xC0) * 0x40 + (s[1] as int - 0x80);
  }

  lemma {:induction false} LegalThree(s: string)
    requires |s| >= 3 && SeqLength(s[0]) == 3 && Tail(s[1]) && Tail(s[2])
    ensures MultiByte(s) == 3 <==> Legal(3, CodePoint(s, 3, 3))
  {
    assert CodePoint(s, 3, 2) == (s[0] as int - 0xE0) * 0x40 + (s[1] as int - 0x80);
    assert CodePoint(s, 3, 3) == CodePoint(s, 3, 2) * 0x40 + (s[2] as int - 0x80);
  }

  lemma {:induction false} LegalFour(s: string)
    requires |s| >= 4 && SeqLength(s[0]) == 4 && Tail(s[1]) && Tail(s[2]) && Tail(s[3])
    ensures MultiByte(s) == 4 <==> Legal(4, CodePoint(s, 4, 4))
  {
    assert CodePoint(s, 4, 2) == (s[0] as int - 0xF0) * 0x40 + (s[1] as int - 0x80);
    assert CodePoint(s, 4, 3) == CodePoint(s, 4, 2) * 0x40 + (s[2] as int - 0x80);
    assert CodePoint(s, 4, 4) == CodePoint(s, 4, 3) * 0x40 + (s[3] as int - 0x80);
  }

  method Utf8SeqValid(s: string, i: nat, len: nat) returns (ok: bool)
    requires i < |s| && len == SeqLength(s[i]) >= 2
    ensures ok <==> MultiByte(s[i..]) == len
  {
    hide MultiByte, CodePoint;
    ghost var t := s[i..];
    LegalIsUtf8(t, len);
    if i + len > |s| {
      return false;
    }
    var cp := s[i] as int % (if len == 2 then 0x20 else if len == 3 then 0x10 else 8);
    CodePointStep(t, len, 1);
    for k := 1 to len
      invariant cp == CodePoint(t, len, k)
      invariant forall j :: 1 <= j < k ==> Tail(t[j])
    {
      var c := s[i + k];
      assert c == t[k];
      if c as int / 0x40 != 2 {
        assert !Tail(t[k]);
        return false;
      }
      cp := cp * 0x40 + c as int % 0x40;
      CodePointStep(t, len, k + 1);
    }
    ok := Legal(len, cp);
  }

  lemma {:induction false} CodePointStep(s: string, len: nat, n: nat)
    requires 1 <= n <= |s| && 2 <= len <= 4
    ensures n == 1 ==> CodePoint(s, len, n) == s[0] as int % (if len == 2 then 0x20 else if len == 3 then 0x10 else 8)
    ensures n > 1 ==> CodePoint(s, len, n) == CodePoint(s, len, n - 1) * 0x40 + s[n - 1] as int % 0x40
  {
  }

  /** The first byte of a multi-byte character tells its length. */
  lemma {:induction false} LeadByte(s: string)
    requires s != "" && MultiByte(s) > 0
    ensures MultiByte(s) == SeqLength(s[0])
  {
  }

  method JsonQuote(s: string) returns (out: string)
    ensures out == Quoted(s)
  {
    hide MultiByte, Escaped, Escape;
    out := "\"";
    var i: nat := 0;
    assert s[0..] == s;
    while i < |s|
      invariant i <= |s| && out + Escaped(s[i..]) == "\"" + Escaped(s)
    {
      ghost var was := out;
      var c := s[i];
      EscapedStep(s, i);
      var len := SeqLength(c);
      var whole := false;
      if len >= 2 {
        whole := Utf8SeqValid(s, i, len);
      }
      if s[i..][0] as int >= 0x80 && MultiByte(s[i..]) > 0 {
        LeadByte(s[i..]);
      }
      if whole {
        out := out + s[i..i + len];
        assert s[i..][..len] == s[i..i + len];
        i := i + len;
      } else {
        out := out + Escape(c);
        i := i + 1;
      }
      assert was + (out[|was|..] + Escaped(s[i..])) == out + Escaped(s[i..]);
    }
    EscapedStep(s, |s|);
    assert out + "" == out;
    out := out + "\"";
  }

  lemma {:induction false} EscapedStep(s: string, i: nat)
    requires i <= |s|
    ensures i == |s| ==> Escaped(s[i..]) == ""
    ensures i < |s| ==>
              var n := UnitLength(s[i..]);
              && Escaped(s[i..]) == (if n == 1 then Escape(s[i]) else s[i..][..n]) + Escaped(s[i + n..])
              && UnitLength(s[i..]) == (if s[i] as int >= 0x80 && MultiByte(s[i..]) > 0 then MultiByte(s[i..]) else 1)
  {
    if i < |s| {
      var n := UnitLength(s[i..]);
      assert s[i..][n..] == s[i + n..];
    }
  }

  // ---------- Numbers ----------

  /** The end of the run of digits at `i`. */
  function DigitsEnd(s: string, i: nat): (e: nat)
    requires i <= |s|
    ensures i <= e <= |s|
    decreases |s| - i
  {
    if i < |s| && Digit(s[i]) then DigitsEnd(s, i + 1) else i
  }

  lemma {:induction false} RunOfDigits(s: string, i: nat)
    requires i <= |s|
    ensures forall k :: i <= k < DigitsEnd(s, i) ==> Digit(s[k])
    ensures DigitsEnd(s, i) < |s| ==> !Digit(s[DigitsEnd(s, i)])
    decreases |s| - i
  {
    if i < |s| && Digit(s[i]) {
      RunOfDigits(s, i + 1);
    }
  }

  /** Where the integer part at `i` ends; -1 if there is none. */
  function IntEnd(s: string, i: nat): int
    requires i <= |s|
  {
    if i == |s| then -1 else if s[i] == '0' then i + 1 else if Digit(s[i]) then DigitsEnd(s, i) else -1
  }

  function FracEnd(s: string, i: nat): int
    requires i <= |s|
  {
    if i == |s| || s[i] != '.' then i
    else if i + 1 == |s| || !Digit(s[i + 1]) then -1
    else DigitsEnd(s, i + 1)
  }

  function ExpEnd(s: string, i: nat): int
    requires i <= |s|
  {
    if i == |s| || !(s[i] == 'e' || s[i] == 'E') then i
    else
      var j := if i + 1 < |s| && (s[i + 1] == '+' || s[i + 1] == '-') then i + 2 else i + 1;
      if j == |s| || !Digit(s[j]) then -1 else DigitsEnd(s, j)
  }

  function NumberEnd(s: string): int
  {
    var i := IntEnd(s, if s != "" && s[0] == '-' then 1 else 0);
    if i < 0 then -1
    else
      var f := FracEnd(s, i);
      if f < 0 then -1 else ExpEnd(s, f)
  }

  lemma {:induction false} RunIsDigits(s: string, i: nat, e: nat)
    requires i < e <= |s| && forall k :: i <= k < e ==> Digit(s[k])
    ensures Digits(s[i..e])
  {
    forall k | 0 <= k < e - i ensures Digit(s[i..e][k]) {
      assert s[i..e][k] == s[i + k];
    }
  }

  lemma {:induction false} IntAccepted(s: string, a: nat)
    requires a <= |s| && IntEnd(s, a) >= 0
    ensures a < IntEnd(s, a) <= |s| && IntPart(s[a..IntEnd(s, a)])
  {
    hide DigitsEnd;
    var b := IntEnd(s, a);
    if s[a] == '0' {
      assert s[a..b] == "0";
    } else {
      RunStarts(s, a);
      RunOfDigits(s, a);
      RunIsDigits(s, a, b);
    }
  }

  lemma {:induction false} RunStarts(s: string, i: nat)
    requires i < |s| && Digit(s[i])
    ensures DigitsEnd(s, i) > i
  {
  }

  lemma {:induction false} FracAccepted(s: string, b: nat)
    requires b <= |s| && FracEnd(s, b) >= 0
    ensures b <= FracEnd(s, b) <= |s| && FracPart(s[b..FracEnd(s, b)])
  {
    hide DigitsEnd;
    var c := FracEnd(s, b);
    if b < c {
      RunStarts(s, b + 1);
      RunOfDigits(s, b + 1);
      RunIsDigits(s, b + 1, c);
      assert s[b..c][1..] == s[b + 1..c];
    }
  }

  lemma {:induction false} ExpAccepted(s: string, c: nat)
    requires c <= |s| && ExpEnd(s, c) == |s|
    ensures ExpPart(s[c..])
  {
    hide DigitsEnd;
    if c < |s| {
      var j := if c + 1 < |s| && (s[c + 1] == '+' || s[c + 1] == '-') then c + 2 else c + 1;
      RunStarts(s, j);
      RunOfDigits(s, j);
      RunIsDigits(s, j, |s|);
      assert s[c..][j - c..] == s[j..|s|];
    }
  }

  /** What the recogniser accepts has the four parts of a number. */
  lemma {:induction false} AcceptedIsNumber(s: string)
    requires s != "" && NumberEnd(s) == |s|
    ensures IsNumber(s)
  {
    hide IntEnd, FracEnd, ExpEnd, IntPart, FracPart, ExpPart;
    var a := if s[0] == '-' then 1 else 0;
    IntAccepted(s, a);
    var b := IntEnd(s, a);
    FracAccepted(s, b);
    var c := FracEnd(s, b);
    ExpAccepted(s, c);
    assert s == s[..a] + s[a..b] + s[b..c] + s[c..];
    assert NumberParts(s, s[..a], s[a..b], s[b..c], s[c..]);
  }

  /** A run of digits that something else follows, or nothing, is found whole. */
  lemma {:induction false} RunFound(s: string, i: nat, e: nat)
    requires i <= e <= |s| && Digits(s[i..e]) && (e < |s| ==> !Digit(s[e]))
    ensures DigitsEnd(s, i) == e
    decreases e - i
  {
    assert s[i..e][0] == s[i];
    if i + 1 < e {
      RunIsDigits(s, i + 1, e) by {
        forall k | i <= k < e ensures Digit(s[k]) {
          assert s[k] == s[i..e][k - i];
        }
      }
      RunFound(s, i + 1, e);
    }
  }

  predicate DigitFree(s: string, i: nat) { i < |s| ==> !Digit(s[i]) }

  lemma {:induction false} IntFound(s: string, a: nat, b: nat)
    requires a <= b <= |s| && IntPart(s[a..b]) && DigitFree(s, b)
    ensures a < b && Digit(s[a]) && IntEnd(s, a) == b
  {
    hide DigitsEnd;
    assert a < b && s[a..b][0] == s[a];
    if s[a] != '0' {
      RunFound(s, a, b);
    }
  }

  lemma {:induction false} FracFound(s: string, b: nat, c: nat)
    requires b <= c <= |s| && FracPart(s[b..c]) && DigitFree(s, c) && (b == c < |s| ==> s[c] != '.')
    ensures FracEnd(s, b) == c && DigitFree(s, b)
  {
    hide DigitsEnd;
    if b < c {
      assert s[b..c][0] == s[b] && s[b..c][1..] == s[b + 1..c];
      assert s[b + 1..c][0] == s[b + 1];
      RunFound(s, b + 1, c);
    }
  }

  lemma {:induction false} ExpFound(s: string, c: nat)
    requires c <= |s| && ExpPart(s[c..])
    ensures ExpEnd(s, c) == |s| && DigitFree(s, c) && (c < |s| ==> s[c] != '.')
  {
    hide DigitsEnd;
    if c < |s| {
      var e := s[c..];
      var j := if c + 1 < |s| && (s[c + 1] == '+' || s[c + 1] == '-') then c + 2 else c + 1;
      assert |e| > 1 && e[0] == s[c] && e[1] == s[c + 1];
      assert e[1..] == s[c + 1..|s|] && e[2..] == s[c + 2..|s|];
      assert e[1..][0] == e[1];
      assert Digits(s[j..|s|]);
      assert s[j..|s|][0] == s[j];
      RunFound(s, j, |s|);
    }
  }

  lemma {:induction false} NumberIsAccepted(s: string, minus: string, i: string, f: string, e: string)
    requires NumberParts(s, minus, i, f, e)
    ensures s != "" && NumberEnd(s) == |s|
  {
    hide IntEnd, FracEnd, ExpEnd, IntPart, FracPart, ExpPart;
    var a, b, c := |minus|, |minus| + |i|, |minus| + |i| + |f|;
    assert s[a..b] == i && s[b..c] == f && s[c..] == e;
    ExpFound(s, c);
    FracFound(s, b, c);
    IntFound(s, a, b);
    assert minus != "" ==> s[0] == minus[0];
  }

  lemma {:induction false} EmptyIsNoNumber()
    ensures !IsNumber("")
  {
  }

  /** The recogniser accepts exactly the numbers of section 6 of RFC 8259. */
  lemma {:induction false} RecogniserExact(s: string)
    requires s != ""
    ensures NumberEnd(s) == |s| <==> IsNumber(s)
  {
    hide NumberParts, NumberEnd;
    if NumberEnd(s) == |s| {
      AcceptedIsNumber(s);
    }
    if IsNumber(s) {
      var m, i, f, e :| NumberParts(s, m, i, f, e);
      NumberIsAccepted(s, m, i, f, e);
    }
  }

  method JsonIsNumber(s: string) returns (ok: bool)
    ensures ok <==> IsNumber(s)
  {
    hide IntEnd, FracEnd, ExpEnd, IsNumber;
    if s == "" {
      EmptyIsNoNumber();
      return false;
    }
    RecogniserExact(s);
    var i := SkipInt(s, if s[0] == '-' then 1 else 0);
    if i < 0 {
      return false;
    }
    i := SkipFrac(s, i);
    if i < 0 {
      return false;
    }
    i := SkipExp(s, i);
    ok := i == |s|;
  }

  method SkipInt(s: string, a: nat) returns (i: int)
    requires a <= |s|
    ensures i == IntEnd(s, a) && i <= |s|
  {
    hide DigitsEnd;
    i := a;
    if i >= |s| {
      return -1;
    }
    if s[i] == '0' {
      i := i + 1;
    } else if '1' <= s[i] <= '9' {
      i := SkipDigits(s, i);
    } else {
      return -1;
    }
  }

  method SkipFrac(s: string, b: nat) returns (i: int)
    requires b <= |s|
    ensures i == FracEnd(s, b) && i <= |s|
  {
    hide DigitsEnd;
    i := b;
    if i < |s| && s[i] == '.' {
      i := i + 1;
      if i >= |s| || s[i] < '0' || s[i] > '9' {
        return -1;
      }
      i := SkipDigits(s, i);
    }
  }

  method SkipExp(s: string, c: nat) returns (i: int)
    requires c <= |s|
    ensures i == ExpEnd(s, c) && i <= |s|
  {
    hide DigitsEnd;
    i := c;
    if i < |s| && (s[i] == 'e' || s[i] == 'E') {
      i := i + 1;
      if i < |s| && (s[i] == '+' || s[i] == '-') {
        i := i + 1;
      }
      if i >= |s| || s[i] < '0' || s[i] > '9' {
        return -1;
      }
      i := SkipDigits(s, i);
    }
  }

  method SkipDigits(s: string, from: nat) returns (i: nat)
    requires from <= |s|
    ensures i == DigitsEnd(s, from)
  {
    i := from;
    while i < |s| && '0' <= s[i] <= '9'
      invariant from <= i <= |s| && DigitsEnd(s, i) == DigitsEnd(s, from)
    {
      i := i + 1;
    }
  }
}
