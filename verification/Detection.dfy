/** What the frame checksum and the decode guards detect (spcedp/wire.py:70-89, 178-222). */
module Detection {
  import opened Bytes
  import opened Checksum
  import opened Codec

  const DLEN_OFFSET := 21

  /** The checksum of a cleartext buffer covers every byte from the flags to the payload. */
  lemma CoveredByteRejected(wire: seq<byte>, tampered: seq<byte>, at: nat)
    requires |wire| == |tampered| >= HEADER_LEN
    requires Register(wire[2..], |wire| - 2) == Get16(wire, 19)
    requires 4 <= at < |wire| && at !in {21, 22}
    requires wire[at] != tampered[at]
    requires forall i :: 0 <= i < |wire| && i != at ==> wire[i] == tampered[i]
    ensures Register(tampered[2..], |wire| - 2) != Get16(tampered, 19)
  {
    hide Register;
    var s, t := wire[2..], tampered[2..];
    assert forall i :: 0 <= i < |s| ==> s[i] == wire[i + 2] && t[i] == tampered[i + 2];
    if InSlot(at - 2) {
      RegisterFrame(s, t, |s|);
      if Get16(wire, 19) == Get16(tampered, 19) {
        Get16Injective(wire, tampered, 19);
      }
    } else {
      SingleByteDetected(s, t, |s|, at - 2);
    }
  }

  /** What the checks of keyless decode come to on a buffer whose prefix is right. */
  lemma KeylessDecode(buf: seq<byte>)
    requires |buf| >= HEADER_LEN && Decode(buf, None).Ok?
    ensures Claimed(buf) <= |buf| && HEADER_LEN + Get16(buf, DLEN_OFFSET) <= Claimed(buf)
    ensures buf[2] == PROTOCOL_BYTE && buf[3] == PROTOCOL_VERSION && buf[4] % 2 == 0
    ensures Register(buf[2..Claimed(buf)], Get16(buf, DLEN_OFFSET) + 0x15) == Get16(buf, 19)
  {
    hide Register;
  }

  /** The same facts of an encoded cleartext frame, where the claim is exact. */
  lemma EncodedClear(f: Frame)
    requires f.srcFlag % 2 == 0 && Encode(f, None).Ok?
    ensures var wire := Encode(f, None).value.wire;
      && Claimed(wire) == |wire| == HEADER_LEN + |f.payload|
      && Get16(wire, DLEN_OFFSET) == |f.payload|
      && wire[2] == PROTOCOL_BYTE && wire[3] == PROTOCOL_VERSION && wire[4] == f.srcFlag
      && Register(wire[2..], |wire| - 2) == Get16(wire, 19)
  {
    hide Register;
    hide Header;
    EncodeShape(f, None);
    var s, wire := ClearStruct(f, f.srcFlag), Encode(f, None).value.wire;
    HeaderFields(f, f.srcFlag, StructChecksum(f, f.srcFlag), |f.payload|);
    FilledStruct(f, f.srcFlag, StructChecksum(f, f.srcFlag));
    assert wire[2..] == s;
  }

  /** Keyless decode rejects an encoded cleartext frame in which any one byte was changed,
      the two bytes of the payload length excepted. */
  lemma OneByteChangeRejected(f: Frame, at: nat, b: byte)
    requires f.srcFlag % 2 == 0 && Encode(f, None).Ok?
    requires at < |Encode(f, None).value.wire| && at !in {DLEN_OFFSET, DLEN_OFFSET + 1}
    requires Encode(f, None).value.wire[at] != b
    ensures Decode(Encode(f, None).value.wire[at := b], None).Err?
  {
    hide Register;
    hide Encode;
    hide Decode;
    EncodedClear(f);
    var wire := Encode(f, None).value.wire;
    var tampered := wire[at := b];
    if Decode(tampered, None).Ok? {
      KeylessDecode(tampered);
      assert Get16(tampered, DLEN_OFFSET) == |f.payload|;
      assert Claimed(tampered) == |wire|;
      if at < 2 {
        Get16Injective(tampered, wire, 0);
      } else {
        assert tampered[2..|wire|] == tampered[2..];
        CoveredByteRejected(wire, tampered, at);
      }
      assert false;
    }
  }

  /** A raised payload length is always rejected; only a lowered one can slip through. */
  lemma RaisedLengthRejected(f: Frame, at: nat, b: byte)
    requires f.srcFlag % 2 == 0 && Encode(f, None).Ok?
    requires at in {DLEN_OFFSET, DLEN_OFFSET + 1} && Encode(f, None).value.wire[at] < b
    ensures Decode(Encode(f, None).value.wire[at := b], None) == Err(LengthOverflow)
  {
    hide Register;
    hide Header;
    EncodedClear(f);
    hide Encode;
    var wire := Encode(f, None).value.wire;
    assert Get16(wire[at := b], DLEN_OFFSET) > |f.payload|;
  }

  /** Keyless decode of a cleartext buffer whose prefix is right and which dlen fits: the
      checksum decides. */
  lemma ChecksumDecides(buf: seq<byte>)
    requires |buf| >= HEADER_LEN && Claimed(buf) == |buf|
    requires buf[2] == PROTOCOL_BYTE && buf[3] == PROTOCOL_VERSION && buf[4] % 2 == 0
    requires HEADER_LEN + Get16(buf, DLEN_OFFSET) <= |buf|
    ensures var dlen := Get16(buf, DLEN_OFFSET);
      if Register(buf[2..], dlen + 0x15) == Get16(buf, 19)
      then Decode(buf, None).Ok? && Decode(buf, None).value.payload == buf[HEADER_LEN..HEADER_LEN + dlen]
      else Decode(buf, None) == Err(ChecksumMismatch)
  {
    hide Register;
    assert buf[2..|buf|] == buf[2..];
  }

  lemma LoweredField(wire: seq<byte>, at: nat, b: byte)
    requires |wire| >= HEADER_LEN && at in {DLEN_OFFSET, DLEN_OFFSET + 1} && b < wire[at]
    ensures var tampered := wire[at := b];
      Get16(tampered, DLEN_OFFSET) < Get16(wire, DLEN_OFFSET)
      && Get16(tampered, 19) == Get16(wire, 19) && Get16(tampered, 0) == Get16(wire, 0)
  {
  }

  /** A lowered payload length is accepted exactly when the register over the struct, which
      now ends earlier, happens to equal the checksum sent. */
  lemma LoweredLengthDecides(f: Frame, at: nat, b: byte)
    requires f.srcFlag % 2 == 0 && Encode(f, None).Ok?
    requires at in {DLEN_OFFSET, DLEN_OFFSET + 1}
    requires at < |Encode(f, None).value.wire| && b < Encode(f, None).value.wire[at]
    ensures var wire := Encode(f, None).value.wire;
      var dlen := Get16(wire[at := b], DLEN_OFFSET);
      && dlen < |f.payload|
      && (if Register(wire[at := b][2..], dlen + 0x15) == Get16(wire, 19)
          then Decode(wire[at := b], None).Ok? && Decode(wire[at := b], None).value.payload == f.payload[..dlen]
          else Decode(wire[at := b], None) == Err(ChecksumMismatch))
  {
    EncodedClear(f);
    EncodedPayload(f);
    var wire := Encode(f, None).value.wire;
    hide Register;
    hide Encode;
    hide Decode;
    hide Get16;
    LoweredField(wire, at, b);
    var tampered := wire[at := b];
    var dlen := Get16(tampered, DLEN_OFFSET);
    ChecksumDecides(tampered);
    assert tampered[HEADER_LEN..] == wire[HEADER_LEN..];
    assert tampered[HEADER_LEN..HEADER_LEN + dlen] == f.payload[..dlen];
  }

  lemma EncodedPayload(f: Frame)
    requires f.srcFlag % 2 == 0 && Encode(f, None).Ok?
    ensures |Encode(f, None).value.wire| >= HEADER_LEN && Encode(f, None).value.wire[HEADER_LEN..] == f.payload
  {
    hide Register;
    hide Header;
    EncodeShape(f, None);
  }
}
