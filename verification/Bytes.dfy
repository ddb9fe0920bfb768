/** zmodem.h and the result codes of zmdm.h. */
module Bytes {

  const LF: bv8 := 0x0a
  const CR: bv8 := 0x0d
  const SO: bv8 := 0x0e
  const XON: bv8 := 0x11
  const XOFF: bv8 := 0x13
  const CAN: bv8 := 0x18

  const ZPAD: bv8 := 0x2a
  const ZDLE: bv8 := 0x18
  const ZDLEE: bv8 := 0x58
  const ZBIN: bv8 := 0x41
  const ZHEX: bv8 := 0x42
  const ZBIN32: bv8 := 0x43
  const ZBINR32: bv8 := 0x44
  const ZBINR32ESC8: bv8 := 0x31
  const ZBINP7: bv8 := 0x32
  const ZBINM32: bv8 := 0x33
  const ZVBIN: bv8 := 0x61
  const ZVHEX: bv8 := 0x62
  const ZVBIN32: bv8 := 0x63
  const ZVBINR32: bv8 := 0x64
  const ZRESC: bv8 := 0x7e

  const ZACK: bv8 := 0x03
  const ZFIN: bv8 := 0x08

  const ZCRCE: bv8 := 0x68
  const ZCRCG: bv8 := 0x69
  const ZCRCQ: bv8 := 0x6a
  const ZCRCW: bv8 := 0x6b
  const ZRUB0: bv8 := 0x6c
  const ZRUB1: bv8 := 0x6d

  const ZMAXHLEN: nat := 16
  const ZMAXSPLEN: nat := 8192
  const HDRLEN: nat := 5
  const INPUT_CAPACITY: nat := 2 * ZMAXSPLEN
  const WIRE_CAPACITY: nat := 2 * ZMAXSPLEN + 11

  const OK := 0
  const TIMEOUT := -1
  const INVALID_HEADER := -2
  const INVALID_DATA := -3
  const CANCELLED := -4
  const IO_ERROR := -5

  /** The four data-subpacket terminators. */
  predicate IsTerminator(t: bv8) {
    t == ZCRCE || t == ZCRCG || t == ZCRCQ || t == ZCRCW
  }

  type ErrorCode = c: int | c < 0 witness -1

  /** What the peer's line delivers: bytes, failures of the transport, then silence. */
  datatype Input =
    | Silence
    | Octet(b: bv8, rest: Input)
    | Fault(code: ErrorCode, rest: Input)

  /** The bytes of w, in front of what follows. */
  function Feed(w: seq<bv8>, rest: Input): Input
    decreases w
  {
    if w == [] then rest else Octet(w[0], Feed(w[1..], rest))
  }

  lemma {:induction false} FeedConcat(a: seq<bv8>, b: seq<bv8>, rest: Input)
    ensures Feed(a + b, rest) == Feed(a, Feed(b, rest))
    decreases a
  {
    if a == [] {
      assert a + b == b;
    } else {
      assert (a + b)[1..] == a[1..] + b;
      FeedConcat(a[1..], b, rest);
    }
  }

  lemma FeedTwo(a: bv8, b: bv8, rest: Input)
    ensures Feed([a, b], rest) == Octet(a, Octet(b, rest))
  {
    assert [a, b][1..] == [b];
    assert Feed([b], rest) == Octet(b, rest);
  }

  lemma Associates(a: seq<bv8>, b: seq<bv8>, c: seq<bv8>)
    ensures a + (b + c) == a + b + c
  {}

  // ---------- Frame checks as bytes on the wire ----------

  /** The four bytes of a CRC-32, low byte first. */
  function Bytes32(crc: bv32): (w: seq<bv8>)
    ensures |w| == 4
  {
    [(crc & 0xff) as bv8, ((crc >> 8) & 0xff) as bv8, ((crc >> 16) & 0xff) as bv8, (crc >> 24) as bv8]
  }

  /** The receiver's reading of four bytes. */
  function Word32(w: seq<bv8>): bv32
    requires |w| == 4
  {
    (w[0] as bv32) | ((w[1] as bv32) << 8) | ((w[2] as bv32) << 16) | ((w[3] as bv32) << 24)
  }

  /** The two bytes of a CRC-16, high byte first. */
  function Bytes16(crc: bv16): (w: seq<bv8>)
    ensures |w| == 2
  {
    [(crc >> 8) as bv8, (crc & 0xff) as bv8]
  }

  function Word16(w: seq<bv8>): bv16
    requires |w| == 2
  {
    ((w[0] as bv16) << 8) | (w[1] as bv16)
  }

  lemma WordOfParts32(crc: bv32)
    ensures (((crc & 0xff) as bv8) as bv32) | ((((crc >> 8) & 0xff) as bv8 as bv32) << 8)
          | ((((crc >> 16) & 0xff) as bv8 as bv32) << 16) | (((crc >> 24) as bv8 as bv32) << 24) == crc
  {}

  lemma WordOfBytes32(crc: bv32)
    ensures Word32(Bytes32(crc)) == crc
  {
    WordOfParts32(crc);
  }

  lemma WordOfBytes16(crc: bv16)
    ensures Word16(Bytes16(crc)) == crc
  {
    assert ((((crc >> 8) as bv8) as bv16) << 8) | (((crc & 0xff) as bv8) as bv16) == crc;
  }
}

/** Bytes as numbers. */
module Numbers {

  lemma NatOfByte(n: int)
    requires 0 <= n < 256
    ensures (n as bv8) as int == n
  {
    assert n % 256 == n;
  }

  lemma ByteOfNat(c: bv8)
    ensures 0 <= c as nat < 256 && (c as nat) as bv8 == c
  {}

  /** Order is the same among bytes and among their numbers. */
  lemma OrderOfBytes(a: bv8, b: bv8)
    ensures a <= b <==> a as nat <= b as nat
  {}
}
