/** A cleartext frame that decode still accepts after its payload length was lowered: the
    checksum (spcedp/wire.py:56-89) does not protect the two dlen bytes. */
module LengthCollision {
  import opened Bytes
  import opened Checksum
  import opened Codec
  import opened Detection

  /** A frame whose register is zero when it reaches the length, and so after one payload
      byte of 252 as after none. */
  const UNLUCKY := Frame(0, 0, 0x5000527A, 0, 192, [252], 0, 0)

  function Bit(a: nat, b: nat): nat {
    if a % 2 == b % 2 then 0 else 1
  }

  lemma XorBit(a: nat, b: nat, bits: nat)
    requires bits > 0
    ensures Xor(a, b, bits) == Bit(a, b) + 2 * Xor(a / 2, b / 2, bits - 1)
  {
  }

  lemma XorLow(a: nat, b: nat, bits: nat)
    requires bits >= 4
    ensures Xor(a, b, bits)
      == Bit(a, b) + 2 * Bit(a / 2, b / 2) + 4 * Bit(a / 4, b / 4) + 8 * Bit(a / 8, b / 8)
         + 16 * Xor(a / 16, b / 16, bits - 4)
  {
    hide Xor;
    hide Bit;
    XorBit(a, b, bits);
    XorBit(a / 2, b / 2, bits - 1);
    XorBit(a / 4, b / 4, bits - 2);
    XorBit(a / 8, b / 8, bits - 3);
    assert a / 2 / 2 == a / 4 && a / 4 / 2 == a / 8 && a / 8 / 2 == a / 16;
    assert b / 2 / 2 == b / 4 && b / 4 / 2 == b / 8 && b / 8 / 2 == b / 16;
  }

  /** The step out of a register with its top bit set, byte by byte. */
  lemma CarryStep(s: u16, b: byte, high: byte, low: byte, t: u16)
    requires s >= 0x8000 && AddLow(ShiftLeft(s), b) == high as int * 0x100 + low
    requires XorNibbles(high, 0xA0) == t / 0x100 && XorNibbles(low, 0x97) == t % 0x100
    ensures Step(s, b) == t
  {
    hide Xor8;
    XorNibblesIs(high, 0xA0);
    XorNibblesIs(low, 0x97);
    hide XorNibbles;
    var x := AddLow(ShiftLeft(s), b);
    assert x / 0x100 == high && x % 0x100 == low;
  }

  function XorNibbles(a: byte, b: byte): nat {
    Bit(a, b) + 2 * Bit(a / 2, b / 2) + 4 * Bit(a / 4, b / 4) + 8 * Bit(a / 8, b / 8)
    + 16 * Bit(a / 16, b / 16) + 32 * Bit(a / 32, b / 32)
    + 64 * Bit(a / 64, b / 64) + 128 * Bit(a / 128, b / 128)
  }

  lemma XorNibblesIs(a: byte, b: byte)
    ensures Xor8(a, b) as int == XorNibbles(a, b)
  {
    hide Bit;
    XorLow(a, b, 8);
    XorLow(a / 16, b / 16, 4);
    assert a / 16 / 2 == a / 32 && a / 16 / 4 == a / 64 && a / 16 / 8 == a / 128;
    assert b / 16 / 2 == b / 32 && b / 16 / 4 == b / 64 && b / 16 / 8 == b / 128;
    assert Xor(a / 16 / 16, b / 16 / 16, 0) == 0;
    hide Xor;
  }

  // The steps over the struct bytes of UNLUCKY at which a one is shifted out.

  lemma StepAt0()
    ensures Step(65535, 69) == 24532
  {
    hide Step;
    CarryStep(65535, 69, 0xFF, 0x43, 24532);
  }

  lemma StepAt2()
    ensures Step(49066, 0) == 57283
  {
    hide Step;
    CarryStep(49066, 0, 0x7F, 0x54, 57283);
  }

  lemma StepAt3()
    ensures Step(57283, 122) == 8087
  {
    hide Step;
    CarryStep(57283, 122, 0xBF, 0x00, 8087);
  }

  lemma StepAt7()
    ensures Step(65104, 0) == 23607
  {
    hide Step;
    CarryStep(65104, 0, 0xFC, 0xA0, 23607);
  }

  lemma StepAt9()
    ensures Step(47214, 0) == 53323
  {
    hide Step;
    CarryStep(47214, 0, 0x70, 0xDC, 53323);
  }

  lemma StepAt10()
    ensures Step(53323, 0) == 1
  {
    hide Step;
    CarryStep(53323, 0, 0xA0, 0x96, 1);
  }

  /** The step out of a register with its top bit clear: shift, then add to the low byte. */
  lemma PlainStep(r: u16, high: byte, low: byte, b: byte)
    requires r < 0x8000 && 2 * r as int == high as int * 0x100 + low
    ensures Step(r, b) as int
      == high as int * 0x100 + low + b - (if low as int + b < 0x100 then 0 else 0x100)
  {
    hide Xor16;
    AddSmall(2 * r as int, high, low, b);
    hide AddLow;
    assert ShiftLeft(r) == 2 * r as int;
    hide ShiftLeft;
  }

  /** One byte further along. */
  lemma Plain(s: seq<byte>, n: nat, r: u16, high: byte, low: byte, b: byte)
    requires n < |s| && (n < 17 || n > 18) && s[n] == b && r < 0x8000
    requires Register(s, n) == r && 2 * r as int == high as int * 0x100 + low
    ensures Register(s, n + 1) as int
      == high as int * 0x100 + low + b - (if low as int + b < 0x100 then 0 else 0x100)
  {
    hide *;
    Next(s, n);
    PlainStep(r, high, low, b);
  }

  lemma AddSmall(x: u16, high: byte, low: byte, b: byte)
    requires x == high as int * 0x100 + low
    ensures AddLow(x, b) == x as int + b - (if low as int + b < 0x100 then 0 else 0x100)
  {
    assert x % 0x100 == low;
  }

  lemma Begin(s: seq<byte>)
    ensures Register(s, 0) == 65535
  {
  }

  lemma Next(s: seq<byte>, n: nat)
    requires n < |s| && (n < 17 || n > 18)
    ensures Register(s, n + 1) == Step(Register(s, n), s[n])
  {
    hide Step;
  }

  /** The first struct bytes of UNLUCKY, up to its sequence. */
  lemma AfterSequence(s: seq<byte>)
    requires |s| >= 7 && s[0] == 69 && s[1] == 2 && s[2] == 0
    requires s[3] == 122 && s[4] == 82 && s[5] == 0 && s[6] == 80
    ensures Register(s, 7) == 65104
  {
    hide *;
    Begin(s);
    Next(s, 0);
    StepAt0();
    Plain(s, 1, 24532, 191, 168, 2);
    Next(s, 2);
    StepAt2();
    Next(s, 3);
    StepAt3();
    Plain(s, 4, 8087, 63, 46, 82);
    Plain(s, 5, 16256, 127, 0, 0);
    Plain(s, 6, 32512, 254, 0, 80);
  }

  /** The zero bytes of both IDs and the major code, then the minor code. */
  lemma AfterMinor(s: seq<byte>)
    requires |s| >= 17 && Register(s, 7) == 65104
    requires forall i :: 7 <= i < 16 ==> s[i] == 0
    requires s[16] == 192
    ensures Register(s, 17) == 0
  {
    hide *;
    Next(s, 7);
    StepAt7();
    Plain(s, 8, 23607, 184, 110, 0);
    Next(s, 9);
    StepAt9();
    Next(s, 10);
    StepAt10();
    Plain(s, 11, 1, 0, 2, 0);
    Plain(s, 12, 2, 0, 4, 0);
    Plain(s, 13, 4, 0, 8, 0);
    Plain(s, 14, 8, 0, 16, 0);
    Plain(s, 15, 16, 0, 32, 0);
    Plain(s, 16, 32, 0, 64, 192);
  }

  /** From a zero register, the two dlen bytes of 1 and a payload of 252 lead where two zero
      dlen bytes lead: to zero. */
  lemma SameEnd(s: seq<byte>)
    requires |s| >= 22 && Register(s, 17) == 0 && s[20] == 0
    ensures s[19] == 0 ==> Register(s, 21) == 0
    ensures s[19] == 1 && s[21] == 252 ==> Register(s, 22) == 0
  {
    hide Step;
    assert Register(s, 19) == 0 by {
      SlotSkipped(s);
    }
    hide *;
    if s[19] == 0 {
      Plain(s, 19, 0, 0, 0, 0);
      Plain(s, 20, 0, 0, 0, 0);
    } else if s[19] == 1 {
      Plain(s, 19, 0, 0, 0, 1);
      Plain(s, 20, 1, 0, 2, 0);
      if s[21] == 252 {
        Plain(s, 21, 2, 0, 4, 252);
      }
    }
  }

  lemma SlotSkipped(s: seq<byte>)
    requires |s| >= 19
    ensures Register(s, 19) == Register(s, 17)
  {
    hide Step;
  }

  lemma UnluckyRegister(s: seq<byte>)
    requires |s| == 22 && s[20] == 0
    requires s[..17] == [69, 2, 0, 122, 82, 0, 80, 0, 0, 0, 0, 0, 0, 0, 0, 0, 192]
    ensures s[19] == 0 ==> Register(s, 21) == 0
    ensures s[19] == 1 && s[21] == 252 ==> Register(s, 22) == 0
  {
    hide *;
    assert forall i :: 0 <= i < 17 ==> s[i] == s[..17][i];
    AfterSequence(s);
    AfterMinor(s);
    SameEnd(s);
  }

  lemma UnluckyHeader(csum: u16)
    ensures var h := Header(UNLUCKY, 0, csum, 1);
      && h[..17] == [69, 2, 0, 122, 82, 0, 80, 0, 0, 0, 0, 0, 0, 0, 0, 0, 192]
      && h[19] == 1 && h[20] == 0
  {
    assert Mask32(0x5000527A) == 0x5000527A && Mask32(0) == 0 && Mask8(0) == 0 && Mask8(192) == 192;
    hide Mask32;
    hide Mask8;
    assert Le32(0x5000527A) == [122, 82, 0, 80] && Le32(0) == [0, 0, 0, 0] && Le16(1) == [1, 0];
    hide Le32;
  }

  lemma UnluckyWire()
    ensures Encode(UNLUCKY, None).Ok?
    ensures var wire := Encode(UNLUCKY, None).value.wire;
      |wire| == 24
      && wire[2..19] == [69, 2, 0, 122, 82, 0, 80, 0, 0, 0, 0, 0, 0, 0, 0, 0, 192]
      && wire[21] == 1 && wire[22] == 0 && wire[23] == 252
  {
    EncodeBound(UNLUCKY, None);
    EncodeShape(UNLUCKY, None);
    hide Encode;
    hide Register;
    var csum := StructChecksum(UNLUCKY, 0);
    UnluckyHeader(csum);
    var h := Header(UNLUCKY, 0, csum, 1);
    hide Header;
    hide StructChecksum;
    assert Encode(UNLUCKY, None).value.wire == Le16(22) + (h + [252]);
    var body := h + [252];
    assert body[..17] == h[..17];
    Prefixed(Le16(22), body, Encode(UNLUCKY, None).value.wire);
  }

  lemma Prefixed(prefix: seq<byte>, body: seq<byte>, wire: seq<byte>)
    requires |prefix| == 2 && |body| == 22 && wire == prefix + body
    ensures |wire| == 24 && wire[2..19] == body[..17]
    ensures wire[21] == body[19] && wire[22] == body[20] && wire[23] == body[21]
  {
  }

  /** One dlen byte of this encoded frame can be lowered unnoticed: decode accepts the result,
      and its payload has lost a byte. */
  lemma LoweredLengthCanPass()
    ensures Encode(UNLUCKY, None).Ok?
    ensures var wire := Encode(UNLUCKY, None).value.wire;
      && |wire| == 24 && wire[DLEN_OFFSET] == 1
      && Decode(wire[DLEN_OFFSET := 0], None).Ok?
      && Decode(wire[DLEN_OFFSET := 0], None).value.payload == []
  {
    UnluckyWire();
    EncodedClear(UNLUCKY);
    LoweredLengthDecides(UNLUCKY, DLEN_OFFSET, 0);
    hide *;
    var wire := Encode(UNLUCKY, None).value.wire;
    var s, t := wire[2..], wire[DLEN_OFFSET := 0][2..];
    assert s[..17] == wire[2..19] == t[..17];
    UnluckyRegister(s);
    UnluckyRegister(t);
  }
}
