/** Character sets as the 32-byte bitmaps they are stored in. */
module LpegCharset {
  import opened LpegTree
  import opened LpegMachine
  import opened LpegCode

  const BITSPERCHAR := 8
  const CHARSETSIZE := 32

  type Bitmap = b: seq<bv8> | |b| == CHARSETSIZE witness seq(CHARSETSIZE, _ => 0)

  predicate Bit(b: bv8, k: nat)
  {
    match k
    case 0 => b & 0x01 != 0
    case 1 => b & 0x02 != 0
    case 2 => b & 0x04 != 0
    case 3 => b & 0x08 != 0
    case 4 => b & 0x10 != 0
    case 5 => b & 0x20 != 0
    case 6 => b & 0x40 != 0
    case 7 => b & 0x80 != 0
    case _ => false
  }

  predicate TestChar(cs: Bitmap, c: Byte) { Bit(cs[c / BITSPERCHAR], c % BITSPERCHAR) }

  function Chars(cs: Bitmap): Charset { set c: Byte | TestChar(cs, c) }

  // ---------- One byte ----------

  lemma EmptyByte(b: bv8)
    ensures b == 0 <==> forall k :: 0 <= k < 8 ==> !Bit(b, k)
  {
    if b != 0 {
      assert Bit(b, 0) || Bit(b, 1) || Bit(b, 2) || Bit(b, 3) || Bit(b, 4) || Bit(b, 5) || Bit(b, 6) || Bit(b, 7);
    }
  }

  lemma FullByte(b: bv8)
    ensures b == 0xFF <==> forall k :: 0 <= k < 8 ==> Bit(b, k)
  {
    if b != 0xFF {
      assert !Bit(b, 0) || !Bit(b, 1) || !Bit(b, 2) || !Bit(b, 3) || !Bit(b, 4) || !Bit(b, 5) || !Bit(b, 6) || !Bit(b, 7);
    }
  }

  /** The position of the bit, found by halving. */
  function BitIndex(b: bv8): nat
  {
    (if b & 0xF0 != 0 then 4 else 0) +
    (var b1 := if b & 0xF0 != 0 then b >> 4 else b;
     (if b1 & 0x0C != 0 then 2 else 0) +
     (var b2 := if b1 & 0x0C != 0 then b1 >> 2 else b1;
      if b2 & 0x02 != 0 then 1 else 0))
  }

  /** A byte with no bit in common with its predecessor has one bit. */
  lemma OneBitByte(b: bv8)
    requires b != 0 && b & (b - 1) == 0
    ensures BitIndex(b) < 8 && Bit(b, BitIndex(b))
    ensures forall k :: 0 <= k < 8 && Bit(b, k) ==> k == BitIndex(b)
  {
    assert b == 1 || b == 2 || b == 4 || b == 8 || b == 16 || b == 32 || b == 64 || b == 128;
  }

  lemma TwoBitByte(b: bv8) returns (j: nat, k: nat)
    requires b & (b - 1) != 0
    ensures j < k < 8 && Bit(b, j) && Bit(b, k)
  {
    if {
      case Bit(b, 0) && Bit(b, 1) => j, k := 0, 1;
      case Bit(b, 0) && Bit(b, 2) => j, k := 0, 2;
      case Bit(b, 0) && Bit(b, 3) => j, k := 0, 3;
      case Bit(b, 0) && Bit(b, 4) => j, k := 0, 4;
      case Bit(b, 0) && Bit(b, 5) => j, k := 0, 5;
      case Bit(b, 0) && Bit(b, 6) => j, k := 0, 6;
      case Bit(b, 0) && Bit(b, 7) => j, k := 0, 7;
      case Bit(b, 1) && Bit(b, 2) => j, k := 1, 2;
      case Bit(b, 1) && Bit(b, 3) => j, k := 1, 3;
      case Bit(b, 1) && Bit(b, 4) => j, k := 1, 4;
      case Bit(b, 1) && Bit(b, 5) => j, k := 1, 5;
      case Bit(b, 1) && Bit(b, 6) => j, k := 1, 6;
      case Bit(b, 1) && Bit(b, 7) => j, k := 1, 7;
      case Bit(b, 2) && Bit(b, 3) => j, k := 2, 3;
      case Bit(b, 2) && Bit(b, 4) => j, k := 2, 4;
      case Bit(b, 2) && Bit(b, 5) => j, k := 2, 5;
      case Bit(b, 2) && Bit(b, 6) => j, k := 2, 6;
      case Bit(b, 2) && Bit(b, 7) => j, k := 2, 7;
      case Bit(b, 3) && Bit(b, 4) => j, k := 3, 4;
      case Bit(b, 3) && Bit(b, 5) => j, k := 3, 5;
      case Bit(b, 3) && Bit(b, 6) => j, k := 3, 6;
      case Bit(b, 3) && Bit(b, 7) => j, k := 3, 7;
      case Bit(b, 4) && Bit(b, 5) => j, k := 4, 5;
      case Bit(b, 4) && Bit(b, 6) => j, k := 4, 6;
      case Bit(b, 4) && Bit(b, 7) => j, k := 4, 7;
      case Bit(b, 5) && Bit(b, 6) => j, k := 5, 6;
      case Bit(b, 5) && Bit(b, 7) => j, k := 5, 7;
      case Bit(b, 6) && Bit(b, 7) => j, k := 6, 7;
    }
  }

  // ---------- The whole map ----------

  function CharAt(i: nat, k: nat): Byte
    requires i < CHARSETSIZE && k < 8
  {
    i * BITSPERCHAR + k
  }

  lemma CharBit(cs: Bitmap, i: nat, k: nat)
    requires i < CHARSETSIZE && k < 8
    ensures CharAt(i, k) in Chars(cs) <==> Bit(cs[i], k)
  {
    assert CharAt(i, k) / 8 == i && CharAt(i, k) % 8 == k;
  }

  /** Two members, and a non-member: not empty, not a singleton, not full. */
  lemma Mixed(cs: Bitmap, i: nat, j: nat, i': nat, j': nat, h: nat, l: nat)
    requires i < CHARSETSIZE && i' < CHARSETSIZE && h < CHARSETSIZE && j < 8 && j' < 8 && l < 8
    requires Bit(cs[i], j) && Bit(cs[i'], j') && (i, j) != (i', j') && !Bit(cs[h], l)
    ensures CharsetType(Chars(cs)) == ISet(Chars(cs))
  {
    CharBit(cs, i, j);
    CharBit(cs, i', j');
    CharBit(cs, h, l);
    assert CharAt(i, j) != CharAt(i', j');
    assert CharAt(h, l) in FULLSET;
    assert !exists c :: Chars(cs) == {c};
  }

  /** A bit missing from a byte that is not full, and a bit of one that is not empty. */
  lemma SomeBit(b: bv8) returns (k: nat)
    requires b != 0
    ensures k < 8 && Bit(b, k)
  {
    EmptyByte(b);
    k :| 0 <= k < 8 && Bit(b, k);
  }

  lemma MissingBit(b: bv8) returns (k: nat)
    requires b != 0xFF
    ensures k < 8 && !Bit(b, k)
  {
    FullByte(b);
    k :| 0 <= k < 8 && !Bit(b, k);
  }

  /** What the bytes before `i` have shown: nothing, one character, or everything. */
  ghost predicate Seen(cs: Bitmap, i: nat, count: nat, candidate: int)
    requires i <= CHARSETSIZE
  {
    || (count == 0 && forall j :: 0 <= j < i ==> cs[j] == 0)
    || (count == 1 && 0 <= candidate < i && cs[candidate] != 0 && cs[candidate] & (cs[candidate] - 1) == 0 &&
        forall j :: 0 <= j < i && j != candidate ==> cs[j] == 0)
    || (count == i * BITSPERCHAR && i > 0 && forall j :: 0 <= j < i ==> cs[j] == 0xFF)
  }

  /**
   * The instruction that tests for the set, special for no, one and all characters. One pass
   * over the bytes.
   */
  method CharsetTypeOf(cs: Bitmap) returns (op: Instr)
    ensures op == CharsetType(Chars(cs))
  {
    var count: nat := 0;
    var candidate := -1;
    var i := 0;
    while i < CHARSETSIZE
      invariant 0 <= i <= CHARSETSIZE && Seen(cs, i, count, candidate)
    {
      var b := cs[i];
      if b == 0 {
        if count > 1 {
          NotFullAfterFull(cs, i);
          return ISet(Chars(cs));
        }
      } else if b == 0xFF {
        if count < i * BITSPERCHAR {
          FullAfterNotFull(cs, i);
          return ISet(Chars(cs));
        }
        count := count + BITSPERCHAR;
      } else if b & (b - 1) == 0 {
        if count > 0 {
          assert cs[if count == 1 then candidate else 0] != 0;
          OneAfterSome(cs, i);
          return ISet(Chars(cs));
        }
        count := count + 1;
        candidate := i;
      } else {
        var j, k := TwoBitByte(b);
        var l := MissingBit(b);
        Mixed(cs, i, j, i, k, i, l);
        return ISet(Chars(cs));
      }
      i := i + 1;
    }
    if count == 0 {
      AllEmpty(cs);
      op := IFail;
    } else if count == 1 {
      OneChar(cs, candidate);
      op := IChar(CharAt(candidate, BitIndex(cs[candidate])));
    } else {
      AllFull(cs);
      op := IAny;
    }
  }

  lemma NotFullAfterFull(cs: Bitmap, i: nat)
    requires 0 < i < CHARSETSIZE && cs[0] == 0xFF && cs[i] == 0
    ensures CharsetType(Chars(cs)) == ISet(Chars(cs))
  {
    FullByte(cs[0]);
    EmptyByte(cs[i]);
    Mixed(cs, 0, 0, 0, 1, i, 0);
  }

  lemma FullAfterNotFull(cs: Bitmap, i: nat)
    requires 0 < i < CHARSETSIZE && cs[i] == 0xFF && (cs[0] != 0xFF || exists j :: 0 <= j < i && cs[j] != 0xFF)
    ensures CharsetType(Chars(cs)) == ISet(Chars(cs))
  {
    FullByte(cs[i]);
    var j :| 0 <= j < i && cs[j] != 0xFF;
    var l := MissingBit(cs[j]);
    Mixed(cs, i, 0, i, 1, j, l);
  }

  lemma OneAfterSome(cs: Bitmap, i: nat)
    requires i < CHARSETSIZE && cs[i] != 0 && cs[i] != 0xFF && exists j :: 0 <= j < i && cs[j] != 0
    ensures CharsetType(Chars(cs)) == ISet(Chars(cs))
  {
    var j :| 0 <= j < i && cs[j] != 0;
    var k := SomeBit(cs[j]);
    var k' := SomeBit(cs[i]);
    var l := MissingBit(cs[i]);
    Mixed(cs, j, k, i, k', i, l);
  }

  lemma AllEmpty(cs: Bitmap)
    requires forall j :: 0 <= j < CHARSETSIZE ==> cs[j] == 0
    ensures Chars(cs) == {}
  {
    forall c: Byte ensures c !in Chars(cs) {
      EmptyByte(cs[c / 8]);
    }
  }

  lemma AllFull(cs: Bitmap)
    requires forall j :: 0 <= j < CHARSETSIZE ==> cs[j] == 0xFF
    ensures Chars(cs) == FULLSET
  {
    forall c: Byte ensures c in Chars(cs) {
      FullByte(cs[c / 8]);
    }
  }

  lemma OneChar(cs: Bitmap, i: nat)
    requires i < CHARSETSIZE && cs[i] != 0 && cs[i] & (cs[i] - 1) == 0
    requires forall j :: 0 <= j < CHARSETSIZE && j != i ==> cs[j] == 0
    ensures BitIndex(cs[i]) < 8 && Chars(cs) == {CharAt(i, BitIndex(cs[i]))}
  {
    OneBitByte(cs[i]);
    var c := CharAt(i, BitIndex(cs[i]));
    CharBit(cs, i, BitIndex(cs[i]));
    forall d: Byte | d in Chars(cs) ensures d == c {
      EmptyByte(cs[d / 8]);
    }
  }
}
