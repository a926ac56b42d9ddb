/** EDP v2 frames on the wire (spcedp/wire.py:114-290). */
module Codec {
  import opened Bytes
  import opened Checksum
  import opened Cipher

  const PROTOCOL_BYTE: byte := 0x45
  const PROTOCOL_VERSION: byte := 0x02
  const HEADER_LEN := 23
  const MAX_FRAME_LEN := 0xFFFF
  const ENCRYPT_OFFSET_IN_WIRE := 17

  /** The largest payload whose frame still fits the 16-bit length prefix. */
  const MAX_PAYLOAD := 65514

  /** Why a codec call raised. `Crash` stands for the IndexError or struct.error that decode
      meets on an encrypted buffer claiming less than a header. */
  datatype Error =
    | ShortHeader | Truncated | BadMagic | RaggedTail | LengthOverflow | ChecksumMismatch
    | EncryptionRequired | BadKeyLength | TooLarge | BadFlag | Crash | GaveUp
  {
    /** A FrameDecodeError other than EncryptionRequired: the stream decoder resyncs past it. */
    predicate Recoverable() {
      this in {ShortHeader, Truncated, BadMagic, RaggedTail, LengthOverflow, ChecksumMismatch}
    }
  }

  datatype Result<+T> = Ok(value: T) | Err(error: Error)

  datatype Frame = Frame(
    srcId: int, dstId: int, sequence: int, major: int, minor: int,
    payload: seq<byte>, checksum: int, srcFlag: int)

  /** What encode returns, and the value it leaves in the frame's checksum field. */
  datatype Encoded = Encoded(wire: seq<byte>, checksum: u16)

  function SetBit0(x: int): int { x - x % 2 + 1 }

  function ClearBit0(x: int): int { x - x % 2 }

  // ----- Encoding -----

  /** The 21 struct bytes before the payload; the checksum slot is at 17 and 18. */
  function Header(f: Frame, flag: byte, csum: u16, dlen: u16): (h: seq<byte>)
    ensures |h| == HEADER_LEN - 2
  {
    [PROTOCOL_BYTE, PROTOCOL_VERSION, flag]
    + Le32(Mask32(f.sequence)) + Le32(Mask32(f.srcId)) + Le32(Mask32(f.dstId))
    + [Mask8(f.major), Mask8(f.minor)] + Le16(csum) + Le16(dlen)
  }

  function EncryptPayload(structBytes: seq<byte>, key: Key): Result<seq<byte>>
    requires |structBytes| >= 15
  {
    if |key.material| != 16 then Err(BadKeyLength)
    else Ok(structBytes[..15] + Ecb(key.seal, Padded(structBytes[15..])))
  }

  function Encode(f: Frame, key: Option<Key>): Result<Encoded> {
    var flag := if key.Some? then SetBit0(f.srcFlag) else f.srcFlag;
    if |f.payload| > MAX_FRAME_LEN then Err(TooLarge)
    else if !(0 <= flag < 0x100) then Err(BadFlag)
    else
      var blank := Header(f, flag, 0, |f.payload|) + f.payload;
      var csum := Register(blank, |f.payload| + 0x15);
      var filled := blank[..CSUM_OFFSET_LOW] + Le16(csum) + blank[CSUM_OFFSET_HIGH + 1..];
      var sealed := if key.Some? then EncryptPayload(filled, key.value) else Ok(filled);
      if sealed.Err? then Err(sealed.error)
      else if |sealed.value| > MAX_FRAME_LEN then Err(TooLarge)
      else Ok(Encoded(Le16(|sealed.value|) + sealed.value, csum))
  }

  // ----- Decoding -----

  function Claimed(buf: seq<byte>): (total: nat)
    requires |buf| >= 2
  {
    Get16(buf, 0) + 2
  }

  function DecryptInBuf(buf: seq<byte>, key: Key): Result<seq<byte>>
  {
    var cut := if |buf| < ENCRYPT_OFFSET_IN_WIRE then |buf| else ENCRYPT_OFFSET_IN_WIRE;
    var tail := buf[cut..];
    if |key.material| != 16 then Err(BadKeyLength)
    else if |tail| % AES_BLOCK_SIZE != 0 then Err(RaggedTail)
    else if |buf| < 5 then Err(Crash)
    else
      var out := buf[..cut] + Ecb(key.open, tail);
      Ok(out[4 := ClearBit0(out[4])])
  }

  /** The part of decode after decryption; `flag` is the flags byte as received. */
  function Finish(buf: seq<byte>, flag: byte, total: nat): Result<Frame>
    requires HEADER_LEN <= |buf| && 2 <= total <= |buf|
  {
    var csum, dlen := Get16(buf, 19), Get16(buf, 21);
    if HEADER_LEN + dlen > total then Err(LengthOverflow)
    else
      var structBytes := buf[2..total];
      var covered := if flag % 2 == 1 then structBytes[2 := SetBit0(structBytes[2])] else structBytes;
      if Register(covered, dlen + 0x15) != csum then Err(ChecksumMismatch)
      else
        Ok(Frame(Get32(buf, 9), Get32(buf, 13), Get32(buf, 5), buf[17], buf[18],
                 buf[HEADER_LEN..HEADER_LEN + dlen], csum, ClearBit0(flag)))
  }

  function Decode(buf: seq<byte>, key: Option<Key>): Result<Frame> {
    if |buf| < HEADER_LEN then Err(ShortHeader)
    else if |buf| < Claimed(buf) then Err(Truncated)
    else if buf[2] != PROTOCOL_BYTE || buf[3] != PROTOCOL_VERSION then Err(BadMagic)
    else if buf[4] % 2 == 0 then Finish(buf, buf[4], Claimed(buf))
    else if key.None? then Err(EncryptionRequired)
    else
      var plain := DecryptInBuf(buf[..Claimed(buf)], key.value);
      if plain.Err? then Err(plain.error)
      else if |plain.value| < HEADER_LEN then Err(Crash)
      else Finish(plain.value, buf[4], Claimed(buf))
  }

  // ----- Encode succeeds exactly up to the bound -----

  predicate UsableKey(key: Option<Key>) {
    key.Some? ==> |key.value.material| == 16
  }

  predicate ByteFlag(f: Frame) {
    0 <= f.srcFlag < 0x100
  }

  /** For a one-byte flag and a 16-byte key, encode succeeds for exactly the payloads of at
      most 65514 bytes, encrypted or not, and otherwise raises the typed ValueError. */
  lemma EncodeBound(f: Frame, key: Option<Key>)
    requires UsableKey(key) && ByteFlag(f)
    ensures Encode(f, key).Ok? <==> |f.payload| <= MAX_PAYLOAD
    ensures Encode(f, key).Err? ==> Encode(f, key).error == TooLarge
  {
    hide Header;
    hide Register;
    hide Ecb;
    var n := |f.payload| + 6;
    assert n + -n % AES_BLOCK_SIZE <= MAX_FRAME_LEN - 15 <==> n <= MAX_FRAME_LEN - 15;
  }

  // ----- Decode undoes encode -----

  /** What a peer gets back: fields cut to their width, the encrypted bit cleared, the
      checksum filled in. */
  function Received(f: Frame, csum: u16): Frame {
    Frame(Mask32(f.srcId), Mask32(f.dstId), Mask32(f.sequence), Mask8(f.major), Mask8(f.minor),
          f.payload, csum, ClearBit0(f.srcFlag))
  }

  /** The struct encode builds is the header with the checksum in place, then the payload,
      and its checksum does not depend on what sits in the slot. */
  lemma FilledStruct(f: Frame, flag: byte, csum: u16)
    requires |f.payload| <= MAX_FRAME_LEN
    ensures var blank := Header(f, flag, 0, |f.payload|) + f.payload;
      var full := Header(f, flag, csum, |f.payload|) + f.payload;
      && blank[..CSUM_OFFSET_LOW] + Le16(csum) + blank[CSUM_OFFSET_HIGH + 1..] == full
      && Register(blank, |f.payload| + 0x15) == Register(full, |f.payload| + 0x15)
  {
    hide Register;
    hide Step;
    var blank := Header(f, flag, 0, |f.payload|) + f.payload;
    var full := Header(f, flag, csum, |f.payload|) + f.payload;
    assert |blank| == |full| == 21 + |f.payload|;
    assert forall i :: 0 <= i < |full| && i != 17 && i != 18 ==> blank[i] == full[i];
    RegisterFrame(blank, full, |f.payload| + 0x15);
  }

  lemma HeaderFields(f: Frame, flag: byte, csum: u16, dlen: u16)
    ensures var h := Header(f, flag, csum, dlen);
      && h[0] == PROTOCOL_BYTE && h[1] == PROTOCOL_VERSION && h[2] == flag
      && Get32(h, 3) == Mask32(f.sequence) && Get32(h, 7) == Mask32(f.srcId)
      && Get32(h, 11) == Mask32(f.dstId) && h[15] == Mask8(f.major) && h[16] == Mask8(f.minor)
      && Get16(h, 17) == csum && Get16(h, 19) == dlen
  {
    var h := Header(f, flag, csum, dlen);
    var seq4, src4, dst4 := Le32(Mask32(f.sequence)), Le32(Mask32(f.srcId)), Le32(Mask32(f.dstId));
    var csum2, dlen2 := Le16(csum), Le16(dlen);
    assert forall k :: 0 <= k < 4 ==> h[3 + k] == seq4[k] && h[7 + k] == src4[k] && h[11 + k] == dst4[k] by {
      hide Le32;
      hide Le16;
    }
    assert h[17] == csum2[0] && h[18] == csum2[1] && h[19] == dlen2[0] && h[20] == dlen2[1] by {
      hide Le32;
      hide Le16;
    }
    Get32Moved(seq4, h, 3);
    Get32Moved(src4, h, 7);
    Get32Moved(dst4, h, 11);
    hide Le32;
    hide Get32;
    hide Mask32;
  }

  lemma Get32Moved(field: seq<byte>, h: seq<byte>, at: nat)
    requires |field| == 4 && at + 4 <= |h|
    requires forall k :: 0 <= k < 4 ==> h[at + k] == field[k]
    ensures Get32(h, at) == Get32(field, 0)
  {
  }

  /** The clear struct of a frame: its header with the right checksum, then its payload. */
  function ClearStruct(f: Frame, flag: byte): (s: seq<byte>)
    requires |f.payload| <= MAX_FRAME_LEN
    ensures |s| == 21 + |f.payload|
  {
    Header(f, flag, StructChecksum(f, flag), |f.payload|) + f.payload
  }

  function StructChecksum(f: Frame, flag: byte): u16
    requires |f.payload| <= MAX_FRAME_LEN
  {
    Register(Header(f, flag, 0, |f.payload|) + f.payload, |f.payload| + 0x15)
  }

  /** Any buffer that holds the clear struct of a frame after two prefix bytes (its flags
      byte possibly with the encrypted bit cleared) finishes decoding to that frame. */
  lemma FinishReadsBack(f: Frame, flag: byte, buf: seq<byte>)
    requires |f.payload| <= MAX_FRAME_LEN
    requires |buf| >= HEADER_LEN + |f.payload|
    requires forall i :: 0 <= i < 21 + |f.payload| && i != 2 ==> buf[2 + i] == ClearStruct(f, flag)[i]
    requires buf[4] == ClearBit0(flag)
    ensures Finish(buf, flag, |buf|)
         == Ok(Received(f, StructChecksum(f, flag)).(srcFlag := ClearBit0(flag)))
  {
    hide Register;
    hide Header;
    var csum, dlen := StructChecksum(f, flag), |f.payload|;
    var h := Header(f, flag, csum, dlen);
    HeaderFields(f, flag, csum, dlen);
    var s := ClearStruct(f, flag);
    assert forall i :: 0 <= i < 21 ==> s[i] == h[i];
    assert forall i :: 21 <= i < |s| ==> s[i] == f.payload[i - 21];
    assert Get16(buf, 19) == csum && Get16(buf, 21) == dlen;
    forall i | 0 <= i < dlen ensures buf[HEADER_LEN + i] == f.payload[i] {
      assert buf[2 + (21 + i)] == s[21 + i];
    }
    assert buf[HEADER_LEN..HEADER_LEN + dlen] == f.payload;
    var clear := buf[2..|buf|];
    var covered := if flag % 2 == 1 then clear[2 := SetBit0(clear[2])] else clear;
    assert forall i :: 0 <= i < |s| ==> covered[i] == s[i];
    assert Register(covered, dlen + 0x15) == csum by {
      RegisterFrame(covered, s, dlen + 0x15);
      FilledStruct(f, flag, csum);
    }
  }

  /** The wire image encode produces, in closed form. */
  lemma EncodeShape(f: Frame, key: Option<Key>)
    requires Encode(f, key).Ok?
    ensures var flag := if key.Some? then SetBit0(f.srcFlag) else f.srcFlag;
      && |f.payload| <= MAX_FRAME_LEN && 0 <= flag < 0x100
      && Encode(f, key).value.checksum == StructChecksum(f, flag)
      && var s := ClearStruct(f, flag);
      var body := if key.Some? then s[..15] + Ecb(key.value.seal, Padded(s[15..])) else s;
      |body| <= MAX_FRAME_LEN && Encode(f, key).value.wire == Le16(|body|) + body
  {
    hide Register;
    hide Header;
    var flag: byte := if key.Some? then SetBit0(f.srcFlag) else f.srcFlag;
    FilledStruct(f, flag, StructChecksum(f, flag));
  }

  lemma DecodeEncodeClear(f: Frame, key: Option<Key>)
    requires f.srcFlag % 2 == 0
    requires Encode(f, None).Ok?
    ensures var e := Encode(f, None).value;
      && Claimed(e.wire) == |e.wire| == HEADER_LEN + |f.payload|
      && e.wire[2] == PROTOCOL_BYTE && e.wire[3] == PROTOCOL_VERSION
      && Decode(e.wire, key) == Ok(Received(f, e.checksum))
  {
    hide Register;
    EncodeShape(f, None);
    var w := Encode(f, None).value.wire;
    HeaderFields(f, f.srcFlag, StructChecksum(f, f.srcFlag), |f.payload|);
    FinishReadsBack(f, f.srcFlag, w);
  }

  /** Decrypting a sealed wire image restores the clear struct, but for the encrypted bit. */
  lemma DecryptRestores(key: Key, prefix: seq<byte>, s: seq<byte>)
    requires |prefix| == 2 && |s| >= 21 && |key.material| == 16
    ensures var w := prefix + (s[..15] + Ecb(key.seal, Padded(s[15..])));
      var plain := DecryptInBuf(w, key);
      && plain.Ok? && |plain.value| == |w| >= 2 + |s|
      && (forall i :: 0 <= i < |s| && i != 2 ==> plain.value[2 + i] == s[i])
      && plain.value[4] == ClearBit0(s[2])
  {
    var padded := Padded(s[15..]);
    var w := prefix + (s[..15] + Ecb(key.seal, padded));
    assert w[17..] == Ecb(key.seal, padded);
    EcbInverse(key, padded);
    forall i | 15 <= i < |s| ensures padded[i - 15] == s[i] {
      assert padded[..|s| - 15][i - 15] == s[15..][i - 15];
    }
    var out := w[..17] + padded;
    assert forall i :: 0 <= i < |s| ==> out[2 + i] == s[i];
  }

  lemma DecodeEncodeSealed(f: Frame, key: Key)
    requires Encode(f, Some(key)).Ok?
    ensures var e := Encode(f, Some(key)).value;
      && HEADER_LEN + |f.payload| <= Claimed(e.wire) == |e.wire|
      && e.wire[2] == PROTOCOL_BYTE && e.wire[3] == PROTOCOL_VERSION
      && Decode(e.wire, Some(key)) == Ok(Received(f, e.checksum))
  {
    hide Register;
    hide Header;
    hide Finish;
    hide Ecb;
    hide Padded;
    EncodeShape(f, Some(key));
    var flag: byte := SetBit0(f.srcFlag);
    var s := ClearStruct(f, flag);
    HeaderFields(f, flag, StructChecksum(f, flag), |f.payload|);
    var w := Encode(f, Some(key)).value.wire;
    DecryptRestores(key, Le16(|w| - 2), s);
    FinishReadsBack(f, flag, DecryptInBuf(w, key).value);
    SealedDecode(w, key);
  }

  lemma SealedDecode(w: seq<byte>, key: Key)
    requires |w| >= HEADER_LEN && Claimed(w) == |w|
    requires w[2] == PROTOCOL_BYTE && w[3] == PROTOCOL_VERSION && w[4] % 2 == 1
    requires DecryptInBuf(w, key).Ok? && |DecryptInBuf(w, key).value| == |w|
    ensures Decode(w, Some(key)) == Finish(DecryptInBuf(w, key).value, w[4], |w|)
  {
    assert w[..Claimed(w)] == w;
  }

  // ----- Encode undoes decode -----

  lemma Le16Get16(b: seq<byte>, at: nat)
    requires at + 2 <= |b|
    ensures Le16(Get16(b, at)) == b[at..at + 2]
  {
    assert b[at..at + 2] == [b[at], b[at + 1]];
  }

  lemma Le32Get32(b: seq<byte>, at: nat)
    requires at + 4 <= |b|
    ensures Le32(Get32(b, at)) == b[at..at + 4]
  {
    Le16Get16(b, at);
    Le16Get16(b, at + 2);
    var low, high := Get16(b, at), Get16(b, at + 2);
    assert Get32(b, at) % 0x1_0000 == low && Get32(b, at) / 0x1_0000 == high;
    hide Get16;
    hide Get32;
    hide Le16;
    assert b[at..at + 4] == b[at..at + 2] + b[at + 2..at + 4];
  }

  /** The header of the frame decoded from clear struct bytes is those bytes again. */
  lemma HeaderOfDecoded(buf: seq<byte>, f: Frame)
    requires |buf| >= HEADER_LEN && buf[2] == PROTOCOL_BYTE && buf[3] == PROTOCOL_VERSION
    requires f.sequence == Get32(buf, 5) && f.srcId == Get32(buf, 9) && f.dstId == Get32(buf, 13)
    requires f.major == buf[17] && f.minor == buf[18]
    ensures Header(f, buf[4], Get16(buf, 19), Get16(buf, 21)) == buf[2..HEADER_LEN]
  {
    Le32Get32(buf, 5);
    Le32Get32(buf, 9);
    Le32Get32(buf, 13);
    Le16Get16(buf, 19);
    Le16Get16(buf, 21);
    SliceHeader(buf);
    hide Le32;
    hide Le16;
    hide Get16;
    hide Get32;
    assert Mask8(f.major) == buf[17] && Mask8(f.minor) == buf[18];
    assert Mask32(f.sequence) == f.sequence && Mask32(f.srcId) == f.srcId && Mask32(f.dstId) == f.dstId;
  }

  lemma SliceHeader(buf: seq<byte>)
    requires |buf| >= HEADER_LEN
    ensures [buf[2], buf[3], buf[4]] + buf[5..9] + buf[9..13] + buf[13..17] + [buf[17], buf[18]]
            + buf[19..21] + buf[21..23] == buf[2..HEADER_LEN]
  {
  }

  /** A clear buffer of exactly HEADER_LEN + dlen bytes that decode accepts is reproduced
      byte for byte by encoding the decoded frame. */
  lemma EncodeDecodeClear(buf: seq<byte>, key: Option<Key>)
    requires Decode(buf, key).Ok?
    requires buf[4] % 2 == 0 && |buf| == HEADER_LEN + Get16(buf, 21)
    ensures Encode(Decode(buf, key).value, None)
         == Ok(Encoded(buf, Get16(buf, 19)))
  {
    hide Register;
    hide Header;
    var f := Decode(buf, key).value;
    var csum, dlen := Get16(buf, 19), Get16(buf, 21);
    assert Decode(buf, key) == Finish(buf, buf[4], Claimed(buf));
    assert Claimed(buf) == |buf|;
    HeaderOfDecoded(buf, f);
    var full := Header(f, buf[4], csum, dlen) + f.payload;
    assert buf[2..] == full;
    assert buf[2..Claimed(buf)] == buf[2..];
    FilledStruct(f, buf[4], csum);
    assert Register(Header(f, buf[4], 0, dlen) + f.payload, dlen + 0x15) == csum;
    assert Le16(|full|) == buf[..2];
    assert Le16(|full|) + full == buf;
  }
}
