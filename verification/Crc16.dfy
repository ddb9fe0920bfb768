/** crctab.c: the sixteen-bit frame check.  The register is not reflected, and a message byte enters at its
    low end, so a message is finished with two zero bytes. */
module Crc16 {

  const POLYNOMIAL16: bv16 := 0x1021

  function Xor(a: bv16, b: bv16): bv16 {
    a ^ b
  }

  lemma XorIs(a: bv16, b: bv16)
    ensures Xor(a, b) == a ^ b
  {}

  lemma XorLaws(a: bv16, b: bv16, c: bv16)
    ensures Xor(Xor(a, b), c) == Xor(a, Xor(b, c))
    ensures Xor(a, b) == Xor(b, a)
    ensures Xor(a, 0) == a && Xor(0, a) == a && Xor(a, a) == 0
  {}

  /** One step of division by the generator, high bit first. */
  function Divide16(v: bv16): bv16 {
    if v & 0x8000 != 0 then Xor(v << 1, POLYNOMIAL16) else v << 1
  }

  function Steps16(v: bv16, n: nat): bv16
    decreases n
  {
    if n == 0 then v else Steps16(Divide16(v), n - 1)
  }

  /** crc16tab[index]: the index enters at the high end of the register. */
  function Table16(index: bv8): bv16 {
    Steps16((index as bv16) << 8, 8)
  }

  /** crc16_update */
  function Byte16(crc: bv16, b: bv8): bv16 {
    Xor(Xor(Table16((crc >> 8) as bv8), crc << 8), b as bv16)
  }

  function Fold16(crc: bv16, data: seq<bv8>): bv16
    decreases data
  {
    if data == [] then crc else Fold16(Byte16(crc, data[0]), data[1..])
  }

  lemma XorHalves(a: bv16, b: bv16)
    ensures Xor(a, b) << 1 == Xor(a << 1, b << 1)
    ensures Xor(a, b) & 0x8000 == (a & 0x8000) ^ (b & 0x8000)
    ensures a & 0x8000 == 0 || a & 0x8000 == 0x8000
  {
    hide Xor;
    XorIs(a, b);
    XorIs(a << 1, b << 1);
    assert (a ^ b) << 1 == (a << 1) ^ (b << 1) && (a ^ b) & 0x8000 == (a & 0x8000) ^ (b & 0x8000);
  }

  lemma DivideCases(v: bv16)
    ensures v & 0x8000 == 0x8000 ==> Divide16(v) == Xor(v << 1, POLYNOMIAL16)
    ensures v & 0x8000 == 0 ==> Divide16(v) == v << 1
  {}

  lemma XorTwice(x: bv16, y: bv16, p: bv16)
    ensures Xor(Xor(x, p), Xor(y, p)) == Xor(x, y)
    ensures Xor(Xor(x, p), y) == Xor(Xor(x, y), p)
    ensures Xor(x, Xor(y, p)) == Xor(Xor(x, y), p)
  {
    hide Xor;
    XorLaws(x, y, p);
    XorLaws(x, p, y);
    XorLaws(y, p, x);
    XorLaws(p, p, y);
    XorLaws(x, p, Xor(y, p));
    XorLaws(p, y, p);
    XorLaws(y, p, p);
  }

  lemma DivideIsLinear(a: bv16, b: bv16)
    ensures Divide16(Xor(a, b)) == Xor(Divide16(a), Divide16(b))
  {
    hide Xor, Divide16;
    XorHalves(a, b);
    XorHalves(b, a);
    XorTwice(a << 1, b << 1, POLYNOMIAL16);
    DivideCases(a);
    DivideCases(b);
    DivideCases(Xor(a, b));
  }

  lemma XorCancels(c: bv16, x: bv16, y: bv16)
    requires Xor(c, x) == Xor(c, y)
    ensures x == y
  {
    hide Xor;
    XorLaws(c, c, x);
    XorLaws(c, c, y);
    XorLaws(x, x, x);
    XorLaws(y, y, y);
  }

  /** The step backwards: the low bit tells whether the generator was subtracted. */
  function Undo16(w: bv16): bv16 {
    if w & 1 == 1 then (Xor(w, POLYNOMIAL16) >> 1) | 0x8000 else w >> 1
  }

  lemma UndoShift(v: bv16)
    ensures v & 0x8000 == 0 ==> (v << 1) & 1 == 0 && (v << 1) >> 1 == v
  {}

  lemma UndoReduction(v: bv16)
    requires v & 0x8000 == 0x8000
    ensures Xor(v << 1, POLYNOMIAL16) & 1 == 1 && ((v << 1) >> 1) | 0x8000 == v
  {
    hide Xor;
    XorIs(v << 1, POLYNOMIAL16);
  }

  lemma UndoDivide(v: bv16)
    ensures Undo16(Divide16(v)) == v
  {
    hide Xor;
    DivideCases(v);
    TopBit(v);
    if v & 0x8000 == 0 {
      UndoShift(v);
    } else {
      UndoReduction(v);
      XorLaws(v << 1, POLYNOMIAL16, POLYNOMIAL16);
      XorLaws(POLYNOMIAL16, POLYNOMIAL16, POLYNOMIAL16);
      XorLaws(v << 1, v << 1, v << 1);
    }
  }

  lemma TopBit(v: bv16)
    ensures v & 0x8000 == 0 || v & 0x8000 == 0x8000
  {}

  lemma {:induction false} StepsAreLinear(a: bv16, b: bv16, n: nat)
    ensures Steps16(Xor(a, b), n) == Xor(Steps16(a, n), Steps16(b, n))
    decreases n
  {
    hide Xor, Divide16;
    if n == 0 {
    } else {
      DivideIsLinear(a, b);
      StepsAreLinear(Divide16(a), Divide16(b), n - 1);
    }
  }

  lemma {:induction false} StepsAreInjective(a: bv16, b: bv16, n: nat)
    requires Steps16(a, n) == Steps16(b, n)
    ensures a == b
    decreases n
  {
    hide Divide16, Undo16;
    if n == 0 {
    } else {
      StepsAreInjective(Divide16(a), Divide16(b), n - 1);
      UndoDivide(a);
      UndoDivide(b);
    }
  }

  lemma SmallStep(v: bv16)
    requires v & 0x8000 == 0
    ensures Divide16(v) == v << 1
  {}

  lemma LowByteShifts(v: bv16)
    requires v & 0xff00 == 0
    ensures v & 0x8000 == 0 && (v << 1) & 0x8000 == 0 && (v << 1 << 1) & 0x8000 == 0
    ensures (v << 1 << 1 << 1) & 0x8000 == 0 && (v << 1 << 1 << 1 << 1) & 0x8000 == 0
    ensures (v << 1 << 1 << 1 << 1 << 1) & 0x8000 == 0 && (v << 1 << 1 << 1 << 1 << 1 << 1) & 0x8000 == 0
    ensures (v << 1 << 1 << 1 << 1 << 1 << 1 << 1) & 0x8000 == 0
    ensures v << 1 << 1 << 1 << 1 << 1 << 1 << 1 << 1 == v << 8
  {}

  /** A register whose high byte is clear just shifts. */
  lemma ClearHighByteShifts(v: bv16)
    requires v & 0xff00 == 0
    ensures Steps16(v, 8) == v << 8
  {
    LowByteShifts(v);
    var v1 := v << 1;  SmallStep(v);
    var v2 := v1 << 1;  SmallStep(v1);
    var v3 := v2 << 1;  SmallStep(v2);
    var v4 := v3 << 1;  SmallStep(v3);
    var v5 := v4 << 1;  SmallStep(v4);
    var v6 := v5 << 1;  SmallStep(v5);
    var v7 := v6 << 1;  SmallStep(v6);
    var v8 := v7 << 1;  SmallStep(v7);
    assert Steps16(v6, 2) == v8;
    assert Steps16(v4, 4) == v8;
    assert Steps16(v2, 6) == v8;
  }

  lemma SplitHighByte(v: bv16)
    ensures v == Xor(v & 0xff00, v & 0xff)
    ensures ((v >> 8) as bv8) as bv16 << 8 == v & 0xff00
    ensures (v & 0xff) << 8 == v << 8 && (v & 0xff) & 0xff00 == 0
  {}

  lemma ByteParts(crc: bv16, b: bv8)
    ensures Byte16(crc, b) == Xor(Xor(Steps16(crc & 0xff00, 8), crc << 8), b as bv16)
  {
    hide Steps16, Xor;
    assert ((crc >> 8) as bv8) as bv16 << 8 == crc & 0xff00;
  }

  /** The table form is eight division steps, with the message byte entering below. */
  lemma ByteIsSteps(crc: bv16, b: bv8)
    ensures Byte16(crc, b) == Xor(Steps16(crc, 8), b as bv16)
  {
    hide Steps16, Xor, Byte16;
    ByteParts(crc, b);
    SplitHighByte(crc);
    StepsAreLinear(crc & 0xff00, crc & 0xff, 8);
    ClearHighByteShifts(crc & 0xff);
  }

  // ---------- Whole messages ----------

  lemma {:induction false} FoldConcat(crc: bv16, a: seq<bv8>, b: seq<bv8>)
    ensures Fold16(crc, a + b) == Fold16(Fold16(crc, a), b)
    decreases a
  {
    hide Byte16;
    if a == [] {
      assert a + b == b;
    } else {
      assert (a + b)[1..] == a[1..] + b;
      FoldConcat(Byte16(crc, a[0]), a[1..], b);
    }
  }

  lemma FoldNothing(crc: bv16)
    ensures Fold16(crc, []) == crc
  {}

  lemma FoldSnoc(crc: bv16, data: seq<bv8>, b: bv8)
    ensures Fold16(crc, data + [b]) == Byte16(Fold16(crc, data), b)
  {
    hide Byte16;
    FoldConcat(crc, data, [b]);
    FoldNothing(Byte16(Fold16(crc, data), b));
  }

  /** crc16_buffer_update */
  method BufferUpdate(crc: bv16, data: array<bv8>, start: nat, length: nat) returns (r: bv16)
    requires start + length <= data.Length
    ensures r == Fold16(crc, data[start..start + length])
  {
    hide Byte16, Fold16;
    r := crc;
    var at, left := start, length;
    FoldNothing(crc);
    assert data[start..start] == [];
    while left > 0
      invariant at + left == start + length && start <= at
      invariant r == Fold16(crc, data[start..at])
    {
      FoldSnoc(crc, data[start..at], data[at]);
      assert data[start..at + 1] == data[start..at] + [data[at]];
      r := Byte16(r, data[at]);
      at, left := at + 1, left - 1;
    }
  }

  // ---------- Error bursts ----------

  /** For every byte the update permutes the register. */
  lemma ByteUpdateIsInjective(a: bv16, b: bv16, c: bv8)
    requires Byte16(a, c) == Byte16(b, c)
    ensures a == b
  {
    hide Byte16, Steps16, Xor;
    ByteIsSteps(a, c);
    ByteIsSteps(b, c);
    XorLaws(Steps16(a, 8), c as bv16, 0);
    XorLaws(Steps16(b, 8), c as bv16, 0);
    XorCancels(c as bv16, Steps16(a, 8), Steps16(b, 8));
    StepsAreInjective(a, b, 8);
  }

  lemma {:induction false} FoldIsInjective(a: bv16, b: bv16, data: seq<bv8>)
    requires Fold16(a, data) == Fold16(b, data)
    ensures a == b
    decreases data
  {
    hide Byte16;
    if data == [] {
    } else {
      FoldIsInjective(Byte16(a, data[0]), Byte16(b, data[0]), data[1..]);
      ByteUpdateIsInjective(a, b, data[0]);
    }
  }

  lemma TwoBytesAreInjective(a: bv8, b: bv8, c: bv8, d: bv8)
    requires Xor((a as bv16) << 8, b as bv16) == Xor((c as bv16) << 8, d as bv16)
    ensures a == c && b == d
  {
    XorIs((a as bv16) << 8, b as bv16);
    XorIs((c as bv16) << 8, d as bv16);
    assert (((a as bv16) << 8) ^ (b as bv16)) & 0xff == b as bv16
      && (((a as bv16) << 8) ^ (b as bv16)) >> 8 == a as bv16;
    assert (((c as bv16) << 8) ^ (d as bv16)) & 0xff == d as bv16
      && (((c as bv16) << 8) ^ (d as bv16)) >> 8 == c as bv16;
  }

  lemma OneByte(c: bv16, x: bv8, y: bv8)
    requires Byte16(c, x) == Byte16(c, y)
    ensures x == y
  {
    hide Byte16, Steps16, Xor;
    ByteIsSteps(c, x);
    ByteIsSteps(c, y);
    XorCancels(Steps16(c, 8), x as bv16, y as bv16);
  }

  lemma TwoBytes(c: bv16, a: bv8, b: bv8)
    ensures Byte16(Byte16(c, a), b) == Xor(Steps16(Steps16(c, 8), 8), Xor((a as bv16) << 8, b as bv16))
  {
    hide Byte16, Steps16, Xor;
    ByteIsSteps(c, a);
    ByteIsSteps(Byte16(c, a), b);
    StepsAreLinear(Steps16(c, 8), a as bv16, 8);
    assert (a as bv16) & 0xff00 == 0;
    ClearHighByteShifts(a as bv16);
    XorLaws(Steps16(Steps16(c, 8), 8), (a as bv16) << 8, b as bv16);
  }

  lemma TwoBytesTell(c: bv16, a: bv8, b: bv8, x: bv8, y: bv8)
    requires Byte16(Byte16(c, a), b) == Byte16(Byte16(c, x), y)
    ensures a == x && b == y
  {
    hide Byte16, Steps16, Xor;
    TwoBytes(c, a, b);
    TwoBytes(c, x, y);
    XorCancels(Steps16(Steps16(c, 8), 8), Xor((a as bv16) << 8, b as bv16), Xor((x as bv16) << 8, y as bv16));
    TwoBytesAreInjective(a, b, x, y);
  }

  lemma FoldOfTwo(c: bv16, u: seq<bv8>)
    requires |u| == 2
    ensures Fold16(c, u) == Byte16(Byte16(c, u[0]), u[1])
  {
    hide Byte16;
    assert u == [u[0]] + [u[1]];
    FoldSnoc(c, [u[0]], u[1]);
    assert [u[0]] == [] + [u[0]];
    FoldSnoc(c, [], u[0]);
    FoldNothing(c);
  }

  /** Windows of at most two bytes that lead to the same register are the same window. */
  lemma WindowIsInjective(c: bv16, u: seq<bv8>, v: seq<bv8>)
    requires |u| == |v| <= 2 && Fold16(c, u) == Fold16(c, v)
    ensures u == v
  {
    hide Byte16, Fold16;
    if |u| == 1 {
      assert u == [] + [u[0]] && v == [] + [v[0]];
      FoldSnoc(c, [], u[0]);
      FoldSnoc(c, [], v[0]);
      FoldNothing(c);
      OneByte(c, u[0], v[0]);
    } else if |u| == 2 {
      FoldOfTwo(c, u);
      FoldOfTwo(c, v);
      TwoBytesTell(c, u[0], u[1], v[0], v[1]);
      assert u == [u[0], u[1]] && v == [v[0], v[1]];
    }
  }

  /** Two streams that differ only inside a window of at most two bytes never share a CRC-16. */
  lemma BurstChanges16(crc: bv16, front: seq<bv8>, u: seq<bv8>, v: seq<bv8>, back: seq<bv8>)
    requires |u| == |v| <= 2 && u != v
    ensures Fold16(crc, front + u + back) != Fold16(crc, front + v + back)
  {
    hide Fold16;
    var c := Fold16(crc, front);
    FoldConcat(crc, front + u, back);
    FoldConcat(crc, front, u);
    FoldConcat(crc, front + v, back);
    FoldConcat(crc, front, v);
    if Fold16(Fold16(c, u), back) == Fold16(Fold16(c, v), back) {
      FoldIsInjective(Fold16(c, u), Fold16(c, v), back);
      WindowIsInjective(c, u, v);
      assert false;
    }
  }
}
