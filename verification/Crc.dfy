/** crctab.c and tools/generate_crc32_slicing.py: the two frame checks of ZMODEM.

    The tables are defined by the recurrences that generate them, so every fact about a table is a fact
    about division by the generator polynomial.  CRC-32 is the reflected 32-bit FCS of RFC 1662,
    appendix C.3; CRC-16, in its own module, is the unreflected CCITT polynomial. */
module Crc {

  const POLYNOMIAL32: bv32 := 0xEDB88320

  // ---------- Words ----------

  /** Exclusive or.  It has a name so that a proof about the algebra of the register can hide the bits. */
  function Xor(a: bv32, b: bv32): bv32 {
    a ^ b
  }

  /** A byte below a word: the next byte of a little-endian word. */
  function Below(b: bv8, word: bv32): bv32 {
    Xor(b as bv32, word << 8)
  }

  lemma XorIs(a: bv32, b: bv32)
    ensures Xor(a, b) == a ^ b
  {}

  lemma XorLaws(a: bv32, b: bv32, c: bv32)
    ensures Xor(Xor(a, b), c) == Xor(a, Xor(b, c))
    ensures Xor(a, b) == Xor(b, a)
    ensures Xor(a, 0) == a && Xor(0, a) == a && Xor(a, a) == 0
  {}

  lemma XorCancels(c: bv32, x: bv32, y: bv32)
    requires Xor(c, x) == Xor(c, y)
    ensures x == y
  {
    hide Xor;
    XorLaws(c, c, x);
    XorLaws(c, c, y);
    XorLaws(x, x, x);
    XorLaws(y, y, y);
  }

  // ---------- CRC-32 ----------

  /** One step of division by the reflected generator. */
  function Divide32(v: bv32): bv32 {
    if v & 1 == 1 then Xor(v >> 1, POLYNOMIAL32) else v >> 1
  }

  function Steps32(v: bv32, n: nat): bv32
    decreases n
  {
    if n == 0 then v else Steps32(Divide32(v), n - 1)
  }

  /** crc32tab[index]. */
  function Table32(index: bv8): bv32 {
    Steps32(index as bv32, 8)
  }

  /** One more zero byte through the register: the comprehension in the table generator. */
  function Advance32(v: bv32): bv32 {
    Xor(Table32((v & 0xff) as bv8), v >> 8)
  }

  /** Slice32(0, i) is crc32tab[i], and Slice32(k + 1, i) is crc32_slicing[k][i]. */
  function Slice32(k: nat, index: bv8): bv32 {
    if k == 0 then Table32(index) else Advance32(Slice32(k - 1, index))
  }

  /** crc32_byte_update */
  function Byte32(crc: bv32, b: bv8): bv32 {
    Xor(Table32((Xor(crc, b as bv32) & 0xff) as bv8), crc >> 8)
  }

  /** The byte-at-a-time meaning of a CRC-32 update. */
  function Fold32(crc: bv32, data: seq<bv8>): bv32
    decreases data
  {
    if data == [] then crc else Fold32(Byte32(crc, data[0]), data[1..])
  }

  /** Bit-serial division: the bits of the byte enter the register low bit first. */
  function Serial32(crc: bv32, b: bv8, bits: nat): bv32
    decreases bits
  {
    if bits == 0 then crc
    else Serial32(Divide32(Xor(crc, (b & 1) as bv32)), b >> 1, bits - 1)
  }

  lemma XorHalves(a: bv32, b: bv32)
    ensures Xor(a, b) >> 1 == Xor(a >> 1, b >> 1)
    ensures Xor(a, b) & 1 == (a & 1) ^ (b & 1)
    ensures a & 1 == 0 || a & 1 == 1
  {
    hide Xor;
    XorIs(a, b);
    XorIs(a >> 1, b >> 1);
    assert (a ^ b) >> 1 == (a >> 1) ^ (b >> 1) && (a ^ b) & 1 == (a & 1) ^ (b & 1);
  }

  lemma DivideCases(v: bv32)
    ensures v & 1 == 1 ==> Divide32(v) == Xor(v >> 1, POLYNOMIAL32)
    ensures v & 1 == 0 ==> Divide32(v) == v >> 1
  {}

  lemma XorTwice(x: bv32, y: bv32, p: bv32)
    ensures Xor(Xor(x, p), Xor(y, p)) == Xor(x, y)
    ensures Xor(Xor(x, p), y) == Xor(Xor(x, y), p)
    ensures Xor(x, Xor(y, p)) == Xor(Xor(x, y), p)
  {
    hide Xor;
    XorLaws(x, y, p);
    XorLaws(x, p, y);
    XorLaws(y, p, x);
    XorLaws(p, p, y);
    XorLaws(x, p, Xor(y, p));
    XorLaws(p, y, p);
    XorLaws(y, p, p);
  }

  lemma DivideIsLinear(a: bv32, b: bv32)
    ensures Divide32(Xor(a, b)) == Xor(Divide32(a), Divide32(b))
  {
    hide Xor, Divide32;
    XorHalves(a, b);
    XorHalves(b, a);
    XorTwice(a >> 1, b >> 1, POLYNOMIAL32);
    DivideCases(a);
    DivideCases(b);
    DivideCases(Xor(a, b));
  }

  lemma DivideIsInjective(a: bv32, b: bv32)
    requires Divide32(a) == Divide32(b)
    ensures a == b
  {}

  lemma {:induction false} StepsAreLinear(a: bv32, b: bv32, n: nat)
    ensures Steps32(Xor(a, b), n) == Xor(Steps32(a, n), Steps32(b, n))
    decreases n
  {
    hide Xor, Divide32;
    if n == 0 {
    } else {
      DivideIsLinear(a, b);
      StepsAreLinear(Divide32(a), Divide32(b), n - 1);
    }
  }

  lemma {:induction false} StepsAreInjective(a: bv32, b: bv32, n: nat)
    requires Steps32(a, n) == Steps32(b, n)
    ensures a == b
    decreases n
  {
    hide Divide32;
    if n == 0 {
    } else {
      StepsAreInjective(Divide32(a), Divide32(b), n - 1);
      DivideIsInjective(a, b);
    }
  }

  lemma {:induction false} StepsCompose(v: bv32, m: nat, n: nat)
    ensures Steps32(v, m + n) == Steps32(Steps32(v, m), n)
    decreases m
  {
    hide Divide32;
    if m == 0 {
    } else {
      StepsCompose(Divide32(v), m - 1, n);
    }
  }

  lemma EvenStep(v: bv32)
    requires v & 1 == 0
    ensures Divide32(v) == v >> 1
  {}

  lemma LowByteShifts(v: bv32)
    requires v & 0xff == 0
    ensures v & 1 == 0 && (v >> 1) & 1 == 0 && (v >> 1 >> 1) & 1 == 0 && (v >> 1 >> 1 >> 1) & 1 == 0
    ensures (v >> 1 >> 1 >> 1 >> 1) & 1 == 0 && (v >> 1 >> 1 >> 1 >> 1 >> 1) & 1 == 0
    ensures (v >> 1 >> 1 >> 1 >> 1 >> 1 >> 1) & 1 == 0 && (v >> 1 >> 1 >> 1 >> 1 >> 1 >> 1 >> 1) & 1 == 0
    ensures v >> 1 >> 1 >> 1 >> 1 >> 1 >> 1 >> 1 >> 1 == v >> 8
  {}

  /** A register whose low byte is clear just shifts. */
  lemma ClearLowByteShifts(v: bv32)
    requires v & 0xff == 0
    ensures Steps32(v, 8) == v >> 8
  {
    LowByteShifts(v);
    var v1 := v >> 1;  EvenStep(v);
    var v2 := v1 >> 1;  EvenStep(v1);
    var v3 := v2 >> 1;  EvenStep(v2);
    var v4 := v3 >> 1;  EvenStep(v3);
    var v5 := v4 >> 1;  EvenStep(v4);
    var v6 := v5 >> 1;  EvenStep(v5);
    var v7 := v6 >> 1;  EvenStep(v6);
    var v8 := v7 >> 1;  EvenStep(v7);
    assert Steps32(v6, 2) == v8;
    assert Steps32(v4, 4) == v8;
    assert Steps32(v2, 6) == v8;
  }

  lemma SplitLowByte(v: bv32)
    ensures v == Xor(v & 0xff, v & 0xffffff00)
    ensures (v & 0xffffff00) & 0xff == 0 && (v & 0xffffff00) >> 8 == v >> 8
    ensures ((v & 0xff) as bv8) as bv32 == v & 0xff
  {}

  lemma AdvanceParts(v: bv32)
    ensures Advance32(v) == Xor(Steps32(v & 0xff, 8), v >> 8)
  {
    hide Steps32, Xor;
    assert ((v & 0xff) as bv8) as bv32 == v & 0xff;
  }

  /** The table step of the generator is eight division steps. */
  lemma AdvanceIsSteps(v: bv32)
    ensures Advance32(v) == Steps32(v, 8)
  {
    hide Steps32, Xor, Advance32;
    AdvanceParts(v);
    SplitLowByte(v);
    StepsAreLinear(v & 0xff, v & 0xffffff00, 8);
    ClearLowByteShifts(v & 0xffffff00);
  }

  lemma HighBytesWait(crc: bv32, b: bv8)
    ensures Xor(crc, b as bv32) >> 8 == crc >> 8
  {
    XorIs(crc, b as bv32);
    assert (crc ^ (b as bv32)) >> 8 == crc >> 8;
  }

  lemma ByteIsAdvance(crc: bv32, b: bv8)
    ensures Byte32(crc, b) == Advance32(Xor(crc, b as bv32))
  {
    hide Table32, Xor;
    HighBytesWait(crc, b);
  }

  lemma ByteIsSteps(crc: bv32, b: bv8)
    ensures Byte32(crc, b) == Steps32(Xor(crc, b as bv32), 8)
  {
    hide Byte32, Steps32, Advance32, Xor;
    ByteIsAdvance(crc, b);
    AdvanceIsSteps(Xor(crc, b as bv32));
  }

  ghost predicate Fits(b: bv8, bits: nat)
    decreases bits
  {
    if bits == 0 then b == 0 else Fits(b >> 1, bits - 1)
  }

  lemma ByteFits(b: bv8)
    ensures Fits(b, 8)
  {
    var b2 := b >> 1 >> 1;
    var b4 := b2 >> 1 >> 1;
    var b6 := b4 >> 1 >> 1;
    assert b6 >> 1 >> 1 == 0;
    assert Fits(b6, 2);
    assert Fits(b4, 4);
    assert Fits(b2, 6);
  }

  lemma SplitLowBit(crc: bv32, b: bv8)
    ensures Xor(crc, b as bv32) == Xor(Xor(crc, (b & 1) as bv32), (b & 0xfe) as bv32)
    ensures ((b & 0xfe) as bv32) & 1 == 0
    ensures ((b & 0xfe) as bv32) >> 1 == (b >> 1) as bv32
  {}

  lemma {:induction false} SerialIsSteps(crc: bv32, b: bv8, bits: nat)
    requires Fits(b, bits)
    ensures Serial32(crc, b, bits) == Steps32(Xor(crc, b as bv32), bits)
    decreases bits
  {
    hide Divide32, Xor;
    if bits == 0 {
      XorLaws(crc, crc, crc);
    } else {
      SplitLowBit(crc, b);
      var entered := Xor(crc, (b & 1) as bv32);
      DivideIsLinear(entered, (b & 0xfe) as bv32);
      EvenStep((b & 0xfe) as bv32);
      SerialIsSteps(Divide32(entered), b >> 1, bits - 1);
    }
  }

  /** crc32_byte_update is eight shift and exclusive-or steps of bit-serial polynomial division. */
  lemma ByteUpdateIsBitSerialDivision(crc: bv32, b: bv8)
    ensures Byte32(crc, b) == Serial32(crc, b, 8)
  {
    hide Byte32, Serial32, Steps32, Xor;
    ByteFits(b);
    SerialIsSteps(crc, b, 8);
    ByteIsSteps(crc, b);
  }

  lemma {:induction false} SliceIsSteps(k: nat, index: bv8)
    ensures Slice32(k, index) == Steps32(index as bv32, 8 * (k + 1))
    decreases k
  {
    hide Steps32, Advance32;
    if k == 0 {
    } else {
      SliceIsSteps(k - 1, index);
      AdvanceIsSteps(Slice32(k - 1, index));
      StepsCompose(index as bv32, 8 * k, 8);
    }
  }

  /** A little-endian word of at most four bytes. */
  function LittleEndian(bytes: seq<bv8>): bv32 {
    if bytes == [] then 0 else Below(bytes[0], LittleEndian(bytes[1..]))
  }

  lemma BelowBound(b: bv8, r: bv32)
    ensures r == 0 ==> Below(b, r) & 0xffffff00 == 0
    ensures r & 0xffffff00 == 0 ==> Below(b, r) & 0xffff0000 == 0
    ensures r & 0xffff0000 == 0 ==> Below(b, r) & 0xff000000 == 0
  {}

  /** The bytes of the word above the given ones are clear. */
  lemma {:induction false} LittleEndianBound(bytes: seq<bv8>)
    ensures |bytes| == 0 ==> LittleEndian(bytes) == 0
    ensures |bytes| == 1 ==> LittleEndian(bytes) & 0xffffff00 == 0
    ensures |bytes| == 2 ==> LittleEndian(bytes) & 0xffff0000 == 0
    ensures |bytes| == 3 ==> LittleEndian(bytes) & 0xff000000 == 0
  {
    hide Below;
    if bytes == [] {
    } else {
      BelowBound(bytes[0], LittleEndian(bytes[1..]));
      LittleEndianBound(bytes[1..]);
    }
  }

  lemma TopByteClear(bytes: seq<bv8>)
    requires |bytes| <= 3
    ensures LittleEndian(bytes) & 0xff000000 == 0
  {
    hide LittleEndian;
    LittleEndianBound(bytes);
  }

  lemma BelowShifts(crc: bv32, b: bv8, r: bv32)
    requires r & 0xff000000 == 0
    ensures Xor(crc, Below(b, r)) == Xor(Xor(crc, b as bv32), r << 8)
    ensures (r << 8) & 0xff == 0 && (r << 8) >> 8 == r
  {}

  /** One byte of a word leaves the register; the bytes above it wait their turn. */
  lemma StepsBelow(crc: bv32, b: bv8, r: bv32)
    requires r & 0xff000000 == 0
    ensures Steps32(Xor(crc, Below(b, r)), 8) == Xor(Byte32(crc, b), r)
  {
    hide Xor, Below, Steps32, Byte32;
    BelowShifts(crc, b, r);
    StepsAreLinear(Xor(crc, b as bv32), r << 8, 8);
    ClearLowByteShifts(r << 8);
    ByteIsSteps(crc, b);
  }

  /** Up to four bytes enter the register as one word. */
  lemma {:induction false} FoldOfWord(crc: bv32, bytes: seq<bv8>)
    requires |bytes| <= 4
    ensures Fold32(crc, bytes) == Steps32(Xor(crc, LittleEndian(bytes)), 8 * |bytes|)
    decreases bytes
  {
    hide Xor, Below, Steps32, Byte32;
    if bytes == [] {
      XorLaws(crc, crc, crc);
      assert Steps32(crc, 0) == crc by { StepsZero(crc); }
    } else {
      var b, tail := bytes[0], bytes[1..];
      TopByteClear(tail);
      StepsBelow(crc, b, LittleEndian(tail));
      StepsCompose(Xor(crc, LittleEndian(bytes)), 8, 8 * |tail|);
      FoldOfWord(Byte32(crc, b), tail);
    }
  }

  lemma StepsZero(v: bv32)
    ensures Steps32(v, 0) == v
  {}

  lemma {:induction false} FoldConcat(crc: bv32, a: seq<bv8>, b: seq<bv8>)
    ensures Fold32(crc, a + b) == Fold32(Fold32(crc, a), b)
    decreases a
  {
    hide Byte32;
    if a == [] {
      assert a + b == b;
    } else {
      assert (a + b)[1..] == a[1..] + b;
      FoldConcat(Byte32(crc, a[0]), a[1..], b);
    }
  }

  // ---------- Slicing by eight ----------

  lemma ShiftByte(b: bv8)
    ensures ((b as bv32) << 8) & 0xff == 0 && ((b as bv32) << 8) >> 8 == b as bv32
    ensures ((b as bv32) << 16) & 0xff == 0 && ((b as bv32) << 16) >> 8 == (b as bv32) << 8
    ensures ((b as bv32) << 24) & 0xff == 0 && ((b as bv32) << 24) >> 8 == (b as bv32) << 16
  {}

  /** A byte further up the word takes that many steps fewer. */
  lemma StepsOfShiftedByte(b: bv8, k: nat)
    ensures Steps32((b as bv32) << 8, 8 * (k + 2)) == Slice32(k, b)
    ensures Steps32((b as bv32) << 16, 8 * (k + 3)) == Slice32(k, b)
    ensures Steps32((b as bv32) << 24, 8 * (k + 4)) == Slice32(k, b)
  {
    hide Steps32, Slice32;
    ShiftByte(b);
    SliceIsSteps(k, b);
    ClearLowByteShifts((b as bv32) << 8);
    ClearLowByteShifts((b as bv32) << 16);
    ClearLowByteShifts((b as bv32) << 24);
    StepsCompose((b as bv32) << 8, 8, 8 * (k + 1));
    StepsCompose((b as bv32) << 16, 8, 8 * (k + 2));
    StepsCompose((b as bv32) << 24, 8, 8 * (k + 3));
  }

  lemma WordBytes(y: bv32)
    ensures y == Xor(Xor(Xor(((y & 0xff) as bv8) as bv32, ((((y >> 8) & 0xff) as bv8) as bv32) << 8),
                         ((((y >> 16) & 0xff) as bv8) as bv32) << 16), (((y >> 24) as bv8) as bv32) << 24)
  {}

  /** Looking the four bytes of a word up in successive slices advances the word as a whole. */
  lemma SlicesOfWord(y: bv32, k: nat)
    ensures Steps32(y, 8 * (k + 4)) ==
            Xor(Xor(Xor(Slice32(k + 3, (y & 0xff) as bv8), Slice32(k + 2, ((y >> 8) & 0xff) as bv8)),
                    Slice32(k + 1, ((y >> 16) & 0xff) as bv8)), Slice32(k, (y >> 24) as bv8))
  {
    hide Xor, Steps32, Slice32;
    WordBytes(y);
    var y0, y1, y2, y3 := (y & 0xff) as bv8, ((y >> 8) & 0xff) as bv8, ((y >> 16) & 0xff) as bv8, (y >> 24) as bv8;
    var w0, w1, w2, w3 := y0 as bv32, (y1 as bv32) << 8, (y2 as bv32) << 16, (y3 as bv32) << 24;
    var n := 8 * (k + 4);
    StepsAreLinear(Xor(Xor(w0, w1), w2), w3, n);
    StepsAreLinear(Xor(w0, w1), w2, n);
    StepsAreLinear(w0, w1, n);
    SliceIsSteps(k + 3, y0);
    StepsOfShiftedByte(y1, k + 2);
    StepsOfShiftedByte(y2, k + 1);
    StepsOfShiftedByte(y3, k);
  }

  /** Four bytes of memory as the expression in crc32_update assembles them. */
  function Assemble(a: bv8, b: bv8, c: bv8, d: bv8): bv32 {
    (a as bv32) | ((b as bv32) << 8) | ((c as bv32) << 16) | ((d as bv32) << 24)
  }

  /** Eight words exclusive-or'ed left to right. */
  function XorAll(a: bv32, b: bv32, c: bv32, d: bv32, e: bv32, f: bv32, g: bv32, h: bv32): bv32 {
    Xor(Xor(Xor(Xor(Xor(Xor(Xor(a, b), c), d), e), f), g), h)
  }

  /** The eight-byte body of the crc32_update loop. */
  function Block32(crc: bv32, d: seq<bv8>): bv32
    requires |d| == 8
  {
    var x := Xor(crc, Assemble(d[0], d[1], d[2], d[3]));
    XorAll(Slice32(7, (x & 0xff) as bv8), Slice32(6, ((x >> 8) & 0xff) as bv8),
           Slice32(5, ((x >> 16) & 0xff) as bv8), Slice32(4, (x >> 24) as bv8),
           Slice32(3, d[4]), Slice32(2, d[5]), Slice32(1, d[6]), Slice32(0, d[7]))
  }

  lemma AssembleBelow(a: bv8, b: bv8, c: bv8, d: bv8)
    ensures Assemble(a, b, c, d) == Below(a, Below(b, Below(c, Below(d, 0))))
  {}

  lemma Disassemble(a: bv8, b: bv8, c: bv8, d: bv8)
    ensures var y := Assemble(a, b, c, d);
            (y & 0xff) as bv8 == a && ((y >> 8) & 0xff) as bv8 == b &&
            ((y >> 16) & 0xff) as bv8 == c && (y >> 24) as bv8 == d
  {}

  lemma AssembleIsLittleEndian(d: seq<bv8>)
    requires |d| == 4
    ensures LittleEndian(d) == Assemble(d[0], d[1], d[2], d[3])
  {
    hide Below, Assemble;
    AssembleBelow(d[0], d[1], d[2], d[3]);
    assert LittleEndian(d[3..]) == Below(d[3], 0);
    assert d[2..][1..] == d[3..];
    assert LittleEndian(d[2..]) == Below(d[2], LittleEndian(d[3..]));
    assert d[1..][1..] == d[2..];
  }

  lemma XorGroups(a: bv32, b: bv32, c: bv32, d: bv32, e: bv32, f: bv32, g: bv32, h: bv32)
    ensures XorAll(a, b, c, d, e, f, g, h) == Xor(Xor(Xor(Xor(a, b), c), d), Xor(Xor(Xor(e, f), g), h))
  {
    hide Xor;
    var front := Xor(Xor(Xor(a, b), c), d);
    XorLaws(front, e, f);
    XorLaws(front, Xor(e, f), g);
    XorLaws(front, Xor(Xor(e, f), g), h);
  }

  lemma BlockIsFold(crc: bv32, d: seq<bv8>)
    requires |d| == 8
    ensures Block32(crc, d) == Fold32(crc, d)
  {
    hide Xor, XorAll, Steps32, Slice32, Fold32, LittleEndian, Assemble;
    var front, back := d[..4], d[4..];
    assert d == front + back;
    FoldConcat(crc, front, back);
    FoldOfWord(crc, front);
    FoldOfWord(Fold32(crc, front), back);
    AssembleIsLittleEndian(front);
    AssembleIsLittleEndian(back);
    var x, y := Xor(crc, LittleEndian(front)), LittleEndian(back);
    StepsAreLinear(Steps32(x, 32), y, 32);
    StepsCompose(x, 32, 32);
    assert Fold32(crc, d) == Xor(Steps32(x, 64), Steps32(y, 32));
    SlicesOfWord(x, 4);
    SlicesOfWord(y, 0);
    Disassemble(d[4], d[5], d[6], d[7]);
    XorGroups(Slice32(7, (x & 0xff) as bv8), Slice32(6, ((x >> 8) & 0xff) as bv8),
              Slice32(5, ((x >> 16) & 0xff) as bv8), Slice32(4, (x >> 24) as bv8),
              Slice32(3, d[4]), Slice32(2, d[5]), Slice32(1, d[6]), Slice32(0, d[7]));
  }

  /** crc32_update: eight bytes at a time, then the rest byte by byte.  For every register and every
      length the result is the byte-at-a-time one. */
  method Update32(crc: bv32, data: array<bv8>, start: nat, length: nat) returns (r: bv32)
    requires start + length <= data.Length
    ensures r == Fold32(crc, data[start..start + length])
  {
    hide Fold32, Byte32, Block32;
    r := crc;
    var at, left := start, length;
    FoldNothing(crc);
    assert data[start..start] == [];
    while left >= 8
      invariant at + left == start + length && start <= at
      invariant r == Fold32(crc, data[start..at])
    {
      var d := data[at..at + 8];
      BlockIsFold(r, d);
      FoldConcat(crc, data[start..at], d);
      assert data[start..at + 8] == data[start..at] + d;
      r := Block32(r, d);
      at, left := at + 8, left - 8;
    }
    while left > 0
      invariant at + left == start + length && start <= at
      invariant r == Fold32(crc, data[start..at])
    {
      FoldSnoc(crc, data[start..at], data[at]);
      assert data[start..at + 1] == data[start..at] + [data[at]];
      r := Byte32(r, data[at]);
      at, left := at + 1, left - 1;
    }
  }

  lemma FoldNothing(crc: bv32)
    ensures Fold32(crc, []) == crc
  {}

  lemma FoldSnoc(crc: bv32, data: seq<bv8>, b: bv8)
    ensures Fold32(crc, data + [b]) == Byte32(Fold32(crc, data), b)
  {
    hide Byte32;
    FoldConcat(crc, data, [b]);
    FoldNothing(Byte32(Fold32(crc, data), b));
  }

  // ---------- The table generator ----------

  /** The table is the one that advances an index through k + 1 bytes. */
  ghost predicate IsSlice(table: seq<bv32>, k: nat) {
    |table| == 256 && forall i: nat :: i < 256 ==> table[i] == Slice32(k, i as bv8)
  }

  /** The inner loop of base_table: eight division steps. */
  method Entry(index: bv8) returns (value: bv32)
    ensures value == Table32(index)
  {
    hide Xor;
    value := index as bv32;
    for step := 0 to 8
      invariant Steps32(value, 8 - step) == Table32(index)
    {
      value := if value & 1 == 1 then Xor(value >> 1, POLYNOMIAL32) else value >> 1;
    }
  }

  /** base_table */
  method BaseTable() returns (table: seq<bv32>)
    ensures IsSlice(table, 0)
  {
    hide Table32;
    table := [];
    for index := 0 to 256
      invariant |table| == index
      invariant forall i: nat :: i < index ==> table[i] == Table32(i as bv8)
    {
      var value := Entry(index as bv8);
      table := table + [value];
    }
  }

  /** The slices that generated_text writes out are the ones crc32_update indexes. */
  method GenerateSlices() returns (slices: seq<seq<bv32>>)
    ensures |slices| == 7
    ensures forall k: nat :: k < 7 ==> IsSlice(slices[k], k + 1)
  {
    hide Advance32;
    var previous := BaseTable();
    slices := [];
    for k := 0 to 7
      invariant |slices| == k && IsSlice(previous, k)
      invariant forall j: nat :: j < k ==> IsSlice(slices[j], j + 1)
    {
      var current := seq(256, i requires 0 <= i < 256 => Advance32(previous[i]));
      slices := slices + [current];
      previous := current;
    }
  }

  // ---------- Error bursts in CRC-32 ----------

  lemma BelowIsInjective(a: bv8, b: bv8, x: bv32, y: bv32)
    requires Below(a, x) == Below(b, y)
    requires x & 0xff000000 == 0 && y & 0xff000000 == 0
    ensures a == b && x == y
  {
    assert (((a as bv32) ^ (x << 8)) & 0xff) as bv8 == a;
    assert (((b as bv32) ^ (y << 8)) & 0xff) as bv8 == b;
    assert (((a as bv32) ^ (x << 8)) >> 8) & 0xffffff == x & 0xffffff;
    assert (((b as bv32) ^ (y << 8)) >> 8) & 0xffffff == y & 0xffffff;
  }

  lemma {:induction false} LittleEndianIsInjective(u: seq<bv8>, v: seq<bv8>)
    requires |u| == |v| <= 4 && LittleEndian(u) == LittleEndian(v)
    ensures u == v
    decreases u
  {
    hide Below;
    if u == [] {
    } else {
      TopByteClear(u[1..]);
      TopByteClear(v[1..]);
      BelowIsInjective(u[0], v[0], LittleEndian(u[1..]), LittleEndian(v[1..]));
      LittleEndianIsInjective(u[1..], v[1..]);
      assert u == [u[0]] + u[1..] && v == [v[0]] + v[1..];
    }
  }

  /** For every byte the update permutes the register. */
  lemma ByteUpdateIsInjective(a: bv32, b: bv32, c: bv8)
    requires Byte32(a, c) == Byte32(b, c)
    ensures a == b
  {
    hide Byte32, Steps32, Xor;
    ByteIsSteps(a, c);
    ByteIsSteps(b, c);
    StepsAreInjective(Xor(a, c as bv32), Xor(b, c as bv32), 8);
    XorLaws(a, c as bv32, 0);
    XorLaws(b, c as bv32, 0);
    XorCancels(c as bv32, a, b);
  }

  lemma {:induction false} FoldIsInjective(a: bv32, b: bv32, data: seq<bv8>)
    requires Fold32(a, data) == Fold32(b, data)
    ensures a == b
    decreases data
  {
    hide Byte32;
    if data == [] {
    } else {
      FoldIsInjective(Byte32(a, data[0]), Byte32(b, data[0]), data[1..]);
      ByteUpdateIsInjective(a, b, data[0]);
    }
  }

  /** Two streams that differ only inside a window of at most four bytes never share a CRC-32. */
  lemma BurstChanges32(crc: bv32, front: seq<bv8>, u: seq<bv8>, v: seq<bv8>, back: seq<bv8>)
    requires |u| == |v| <= 4 && u != v
    ensures Fold32(crc, front + u + back) != Fold32(crc, front + v + back)
  {
    hide Xor, Steps32, Fold32, LittleEndian;
    var c := Fold32(crc, front);
    FoldConcat(crc, front + u, back);
    FoldConcat(crc, front, u);
    FoldConcat(crc, front + v, back);
    FoldConcat(crc, front, v);
    if Fold32(Fold32(c, u), back) == Fold32(Fold32(c, v), back) {
      FoldIsInjective(Fold32(c, u), Fold32(c, v), back);
      FoldOfWord(c, u);
      FoldOfWord(c, v);
      StepsAreInjective(Xor(c, LittleEndian(u)), Xor(c, LittleEndian(v)), 8 * |u|);
      XorCancels(c, LittleEndian(u), LittleEndian(v));
      LittleEndianIsInjective(u, v);
      assert false;
    }
  }
}
