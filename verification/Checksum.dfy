/** The EDP v2 frame checksum (spcedp/wire.py:48-89): a 16-bit shift-and-add register. */
module Checksum {
  import opened Bytes

  const CSUM_INIT: u16 := 0xFFFF
  const CSUM_POLY: u16 := 0xA097
  const CSUM_OFFSET_LOW := 0x11
  const CSUM_OFFSET_HIGH := 0x12

  // ----- Bitwise exclusive or -----

  function Pow2(bits: nat): (p: nat)
    ensures p > 0
  {
    if bits == 0 then 1 else 2 * Pow2(bits - 1)
  }

  /** Exclusive or of the low `bits` bits of two numbers, bit by bit. */
  function Xor(a: nat, b: nat, bits: nat): (r: nat)
    ensures r < Pow2(bits)
  {
    if bits == 0 then 0
    else (if a % 2 == b % 2 then 0 else 1) + 2 * Xor(a / 2, b / 2, bits - 1)
  }

  lemma {:induction false} XorTwice(a: nat, b: nat, bits: nat)
    requires a < Pow2(bits)
    ensures Xor(Xor(a, b, bits), b, bits) == a
  {
    if bits > 0 {
      var r := Xor(a / 2, b / 2, bits - 1);
      assert Xor(a, b, bits) / 2 == r;
      XorTwice(a / 2, b / 2, bits - 1);
    }
  }

  function Xor8(a: byte, b: byte): byte {
    assert Pow2(4) == 0x10 && Pow2(8) == 0x100;
    Xor(a, b, 8)
  }

  function Xor16(a: u16, b: u16): u16 {
    Xor8(a / 0x100, b / 0x100) as int * 0x100 + Xor8(a % 0x100, b % 0x100)
  }

  lemma Xor8Facts(a: byte, mask: byte)
    ensures Xor8(Xor8(a, mask), mask) == a
    ensures mask % 2 == 1 ==> Xor8(a, mask) % 2 != a % 2
  {
    Pow2Of8();
    XorTwice(a, mask, 8);
    XorParity(a, mask, 8);
    hide Xor;
    hide Pow2;
  }

  lemma Pow2Of8()
    ensures Pow2(8) == 0x100
  {
    assert Pow2(4) == 0x10;
  }

  lemma XorParity(a: nat, mask: nat, bits: nat)
    requires bits > 0
    ensures mask % 2 == 1 ==> Xor(a, mask, bits) % 2 != a % 2
  {
  }

  /** An odd mask flips parity, and a second application undoes the first. */
  lemma Xor16Facts(a: u16, mask: u16)
    requires mask % 2 == 1
    ensures Xor16(Xor16(a, mask), mask) == a
    ensures Xor16(a, mask) % 2 != a % 2
  {
    hide Xor8;
    Xor8Facts(a / 0x100, mask / 0x100);
    Xor8Facts(a % 0x100, mask % 0x100);
    var h, l := Xor8(a / 0x100, mask / 0x100), Xor8(a % 0x100, mask % 0x100);
    assert Xor16(a, mask) == h as int * 0x100 + l;
    assert Xor16(a, mask) / 0x100 == h && Xor16(a, mask) % 0x100 == l;
  }

  // ----- One step of the register -----

  function ShiftLeft(s: u16): u16 { s as int * 2 % 0x1_0000 }

  /** Adds `d` to the low byte of `x`; the high byte sees no carry or borrow. */
  function AddLow(x: u16, d: int): u16 { x - x % 0x100 + (x % 0x100 + d) % 0x100 }

  /** The 16-bit register as PROTOCOL.md:85-88 tells it: shift left, add the byte without
      carrying into the high half, and fold in the polynomial if a one was shifted out. */
  function Step(s: u16, b: byte): u16 {
    var added := AddLow(ShiftLeft(s), b);
    if s >= 0x8000 then Xor16(added, CSUM_POLY) else added
  }

  /** The one register value from which byte `b` leads to `t`. The polynomial is odd, so
      the parity of `t` tells whether a one was shifted out. */
  function Unstep(t: u16, b: byte): u16 {
    var carry := t % 2 != b % 2;
    var added := if carry then Xor16(t, CSUM_POLY) else t;
    AddLow(added, -(b as int)) / 2 + (if carry then 0x8000 else 0)
  }

  lemma AddLowParts(x: u16, d: int)
    ensures AddLow(x, d) / 0x100 == x / 0x100
    ensures AddLow(x, d) % 0x100 == (x % 0x100 + d) % 0x100
  {
  }

  lemma AddLowFacts(x: u16, d: int)
    ensures AddLow(AddLow(x, d), -d) == x
    ensures AddLow(x, d) % 2 == (x + d) % 2
  {
    hide AddLow;
    AddLowParts(x, d);
    AddLowParts(AddLow(x, d), -d);
    ModularUndo(x % 0x100, d);
    AddLowParity(x, d);
  }

  lemma AddLowParity(x: u16, d: int)
    ensures AddLow(x, d) % 2 == (x + d) % 2
  {
    AddLowParts(x, d);
    hide AddLow;
    ModularParity(AddLow(x, d), x % 0x100 + d);
    ModularParity(x + d, x % 0x100 + d);
  }

  lemma ModularParity(n: int, m: int)
    requires (n - m) % 0x100 == 0
    ensures n % 2 == m % 2
  {
    var k := (n - m) / 0x100;
    assert n == m + 2 * (0x80 * k);
  }

  lemma ModularUndo(l: byte, d: int)
    ensures ((l + d) % 0x100 - d) % 0x100 == l
  {
  }

  lemma ShiftLeftHalf(x: u16, top: bool)
    requires x % 2 == 0
    ensures var s := x / 2 + (if top then 0x8000 else 0);
      s < 0x1_0000 && ShiftLeft(s) == x && (s >= 0x8000 <==> top)
  {
  }

  lemma ShiftLeftSplit(s: u16)
    ensures ShiftLeft(s) % 2 == 0
    ensures ShiftLeft(s) / 2 + (if s >= 0x8000 then 0x8000 else 0) == s
  {
  }

  lemma UnstepStep(s: u16, b: byte)
    ensures Unstep(Step(s, b), b) == s
  {
    hide Xor8;
    hide Xor16;
    hide AddLow;
    hide ShiftLeft;
    var shifted := ShiftLeft(s);
    ShiftLeftSplit(s);
    AddLowFacts(shifted, b);
    Xor16Facts(AddLow(shifted, b), CSUM_POLY);
    assert AddLow(shifted, b) % 2 == b % 2;
  }

  lemma StepUnstep(t: u16, b: byte)
    ensures Step(Unstep(t, b), b) == t
  {
    hide Xor8;
    hide Xor16;
    hide AddLow;
    hide ShiftLeft;
    Xor16Facts(t, CSUM_POLY);
    var carry := t % 2 != b % 2;
    var added := if carry then Xor16(t, CSUM_POLY) else t;
    AddLowFacts(added, -(b as int));
    var shifted := AddLow(added, -(b as int));
    assert AddLow(shifted, b) == added;
    ShiftLeftHalf(shifted, carry);
  }

  /** For a fixed byte the step is a permutation of the 65536 register values, with
      `Unstep` as its inverse; in particular it is injective. */
  lemma StepIsPermutation(s: u16, t: u16, b: byte)
    ensures Step(s, b) == t <==> s == Unstep(t, b)
  {
    UnstepStep(s, b);
    StepUnstep(t, b);
  }

  /** For a fixed register value the step is injective in the byte. */
  lemma StepInjectiveInByte(s: u16, b: byte, c: byte)
    ensures Step(s, b) == Step(s, c) <==> b == c
  {
    hide Xor8;
    hide Xor16;
    hide AddLow;
    hide ShiftLeft;
    var x := ShiftLeft(s);
    Xor16Facts(AddLow(x, b), CSUM_POLY);
    Xor16Facts(AddLow(x, c), CSUM_POLY);
    AddLowParts(x, b);
    AddLowParts(x, c);
    ModularUndo(b, x % 0x100);
    ModularUndo(c, x % 0x100);
  }

  // ----- The whole checksum -----

  predicate InSlot(i: int) {
    i == CSUM_OFFSET_LOW || i == CSUM_OFFSET_HIGH
  }

  /** The register after the first `n` struct bytes, the checksum slot left out. */
  function Register(s: seq<byte>, n: nat): u16
    requires n <= |s|
  {
    if n == 0 then CSUM_INIT
    else if InSlot(n - 1) then Register(s, n - 1)
    else Step(Register(s, n - 1), s[n - 1])
  }

  /** The step worked on separate halves, as the loop does it. */
  lemma HalvesStep(high: byte, low: byte, b: byte)
    ensures var state := (high as int * 0x100 + low) * 2 % 0x1_0000;
      var l: byte := (state % 0x100 + b) % 0x100;
      var h: byte := state / 0x100;
      Step(high as int * 0x100 + low, b) as int
      == if high >= 0x80
         then Xor8(h, CSUM_POLY / 0x100) as int * 0x100 + Xor8(l, CSUM_POLY % 0x100)
         else h as int * 0x100 + l
  {
    hide Xor8;
    var state := (high as int * 0x100 + low) * 2 % 0x1_0000;
    var l: byte := (state % 0x100 + b) % 0x100;
    var h: byte := state / 0x100;
    var x := AddLow(ShiftLeft(high as int * 0x100 + low), b);
    assert x == h as int * 0x100 + l;
    assert x / 0x100 == h && x % 0x100 == l;
  }

  /** `edp_checksum`; None is its ValueError for a struct shorter than dlen says. */
  method EdpChecksum(structBytes: seq<byte>, dlen: nat) returns (csum: Option<u16>)
    ensures csum == if |structBytes| < dlen + 0x15 then None
                    else Some(Register(structBytes, dlen + 0x15))
  {
    hide Xor8;
    hide Step;
    var end := dlen + 0x15;
    if |structBytes| < end {
      return None;
    }
    var low: byte, high: byte := CSUM_INIT % 0x100, CSUM_INIT / 0x100;
    for i := 0 to end
      invariant high as int * 0x100 + low == Register(structBytes, i)
    {
      if InSlot(i) {
        continue;
      }
      HalvesStep(high, low, structBytes[i]);
      var carry := high >= 0x80;
      var state: u16 := (high as int * 0x100 + low) * 2 % 0x1_0000;
      low := (state as int % 0x100 + structBytes[i]) % 0x100;
      high := state / 0x100;
      if carry {
        low := Xor8(low, CSUM_POLY % 0x100);
        high := Xor8(high, CSUM_POLY / 0x100);
      }
    }
    return Some(high as int * 0x100 + low);
  }

  // ----- What it computes -----

  /** Bit `k` of a number, counted from the lowest. */
  function BitAt(n: nat, k: nat): nat {
    if k == 0 then n % 2 else BitAt(n / 2, k - 1)
  }

  /** Each bit of the exclusive or is the sum of the two bits without carry. */
  lemma {:induction false} XorBits(a: nat, b: nat, bits: nat, k: nat)
    requires k < bits
    ensures BitAt(Xor(a, b, bits), k) == (BitAt(a, k) + BitAt(b, k)) % 2
    decreases k
  {
    var x := Xor(a, b, bits);
    assert x / 2 == Xor(a / 2, b / 2, bits - 1);
    if k == 0 {
      assert x % 2 == (a + b) % 2;
    } else {
      XorBits(a / 2, b / 2, bits - 1, k - 1);
    }
  }

  /** The register over one struct byte more: it starts at 0xFFFF; bytes 17 and 18 do not count;
      otherwise it shifts left by one bit, adds the byte to its low half without a carry into
      the high half, and folds in 0xA097 by exclusive or if a one was shifted out. */
  lemma RegisterByByte(s: seq<byte>, n: nat)
    requires n < |s|
    ensures Register(s, 0) == 0xFFFF
    ensures n == 17 || n == 18 ==> Register(s, n + 1) == Register(s, n)
    ensures n != 17 && n != 18 ==>
      var r := Register(s, n) as int;
      var shifted := 2 * r % 0x1_0000;
      var low, high := (shifted % 0x100 + s[n]) % 0x100, shifted / 0x100;
      Register(s, n + 1) as int
      == if r < 0x8000 then 0x100 * high + low else 0x100 * Xor(high, 0xA0, 8) + Xor(low, 0x97, 8)
  {
    hide Step;
    if n != 17 && n != 18 {
      StepByByte(Register(s, n), s[n]);
    }
  }

  lemma StepByByte(r: u16, b: byte)
    ensures var shifted := 2 * r as int % 0x1_0000;
      var low, high := (shifted % 0x100 + b) % 0x100, shifted / 0x100;
      Step(r, b) as int
      == if r < 0x8000 then 0x100 * high + low else 0x100 * Xor(high, 0xA0, 8) + Xor(low, 0x97, 8)
  {
    hide Step;
    hide Xor;
    var high, low := r as int / 0x100, r as int % 0x100;
    assert high * 0x100 + low == r as int;
    HalvesStep(high, low, b);
  }

  // ----- What it detects -----

  /** Bytes in the checksum slot do not count, and nothing past `n` does. */
  lemma {:induction false} RegisterFrame(s: seq<byte>, t: seq<byte>, n: nat)
    requires n <= |s| && n <= |t|
    requires forall i :: 0 <= i < n && !InSlot(i) ==> s[i] == t[i]
    ensures Register(s, n) == Register(t, n)
  {
    if n > 0 {
      RegisterFrame(s, t, n - 1);
    }
  }

  /** Once two registers differ, equal bytes keep them different. */
  lemma {:induction false} RegisterStaysDifferent(s: seq<byte>, t: seq<byte>, m: nat, n: nat)
    requires m <= n <= |s| && n <= |t|
    requires forall i :: m <= i < n && !InSlot(i) ==> s[i] == t[i]
    requires Register(s, m) != Register(t, m)
    ensures Register(s, n) != Register(t, n)
    decreases n
  {
    if m < n {
      RegisterStaysDifferent(s, t, m, n - 1);
      if !InSlot(n - 1) {
        UnstepStep(Register(s, n - 1), s[n - 1]);
        UnstepStep(Register(t, n - 1), s[n - 1]);
      }
    }
  }

  /** Two structs that differ in exactly one covered byte have different checksums. */
  lemma SingleByteDetected(s: seq<byte>, t: seq<byte>, n: nat, at: nat)
    requires at < n <= |s| && n <= |t| && !InSlot(at)
    requires s[at] != t[at]
    requires forall i :: 0 <= i < n && i != at && !InSlot(i) ==> s[i] == t[i]
    ensures Register(s, n) != Register(t, n)
  {
    RegisterFrame(s, t, at);
    StepInjectiveInByte(Register(s, at), s[at], t[at]);
    RegisterStaysDifferent(s, t, at + 1, n);
  }
}
