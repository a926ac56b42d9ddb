/** Frames byte by byte: what encode writes where, and exactly what decode accepts, in clear and
    under a key (spcedp/wire.py:127-290; PROTOCOL.md:10-23). */
module WireFormat {
  import opened Bytes
  import opened Checksum
  import opened Cipher
  import opened Codec
  import opened Detection

  /** Little-endian fields, straight from the bytes. */
  function U16(b: seq<byte>, at: nat): int
    requires at + 2 <= |b|
  {
    b[at] as int + 0x100 * b[at + 1] as int
  }

  function U32(b: seq<byte>, at: nat): int
    requires at + 4 <= |b|
  {
    b[at] as int + 0x100 * b[at + 1] as int + 0x1_0000 * b[at + 2] as int + 0x100_0000 * b[at + 3] as int
  }

  lemma FieldsAgree(b: seq<byte>, at: nat)
    ensures at + 2 <= |b| ==> Get16(b, at) as int == U16(b, at)
    ensures at + 4 <= |b| ==> Get32(b, at) as int == U32(b, at)
  {
  }

  // ----- Encoding -----

  /** Which frames encode, and which exception the others raise. */
  lemma EncodeOutcome(f: Frame, key: Option<Key>)
    ensures var flag := if key.Some? then f.srcFlag - f.srcFlag % 2 + 1 else f.srcFlag;
      Encode(f, key).Ok? <==>
        && 0 <= flag <= 255 && |f.payload| <= 65514
        && (key.Some? ==> |key.value.material| == 16)
    ensures Encode(f, key).Err? ==>
      var flag := if key.Some? then f.srcFlag - f.srcFlag % 2 + 1 else f.srcFlag;
      Encode(f, key).error ==
        if |f.payload| > 65535 then TooLarge
        else if !(0 <= flag <= 255) then BadFlag
        else if key.Some? && |key.value.material| != 16 then BadKeyLength
        else TooLarge
  {
    hide Header;
    hide Register;
    hide Ecb;
    hide Zeros;
    var n := |f.payload| + 6;
    assert n + -n % 16 <= 65520 <==> n <= 65520;
  }

  /** The bytes of an encoded cleartext frame. */
  lemma ClearBytes(f: Frame)
    requires Encode(f, None).Ok?
    ensures var w, n := Encode(f, None).value.wire, |f.payload|;
      && |w| == 23 + n && U16(w, 0) == 21 + n
      && w[2] == 0x45 && w[3] == 0x02 && w[4] == f.srcFlag
      && U32(w, 5) == f.sequence % 0x1_0000_0000
      && U32(w, 9) == f.srcId % 0x1_0000_0000
      && U32(w, 13) == f.dstId % 0x1_0000_0000
      && w[17] == f.major % 0x100 && w[18] == f.minor % 0x100
      && U16(w, 19) == Register(w[2..], 21 + n) as int == Encode(f, None).value.checksum as int
      && U16(w, 21) == n
      && w[23..] == f.payload
  {
    hide Register;
    EncodeShape(f, None);
    var csum := StructChecksum(f, f.srcFlag);
    var s, w := ClearStruct(f, f.srcFlag), Encode(f, None).value.wire;
    HeaderFields(f, f.srcFlag, csum, |f.payload|);
    FilledStruct(f, f.srcFlag, csum);
    ClearPlaces(f, csum, s, w);
  }

  lemma ClearPlaces(f: Frame, csum: u16, s: seq<byte>, w: seq<byte>)
    requires 0 <= f.srcFlag < 0x100 && |f.payload| <= 65514
    requires s == Header(f, f.srcFlag, csum, |f.payload|) + f.payload
    requires w == Le16(|s|) + s && csum == Register(s, |f.payload| + 0x15)
    ensures var n := |f.payload|;
      && |w| == 23 + n && U16(w, 0) == 21 + n
      && w[2] == 0x45 && w[3] == 0x02 && w[4] == f.srcFlag
      && U32(w, 5) == f.sequence % 0x1_0000_0000
      && U32(w, 9) == f.srcId % 0x1_0000_0000
      && U32(w, 13) == f.dstId % 0x1_0000_0000
      && w[17] == f.major % 0x100 && w[18] == f.minor % 0x100
      && U16(w, 19) == Register(w[2..], 21 + n) as int == csum as int
      && U16(w, 21) == n
      && w[23..] == f.payload
  {
    hide Register;
    var h := Header(f, f.srcFlag, csum, |f.payload|);
    HeaderFields(f, f.srcFlag, csum, |f.payload|);
    hide Header;
    assert w[2..] == s;
    assert forall i :: 0 <= i < 21 ==> w[2 + i] == h[i];
    FieldsAgree(h, 3);
    FieldsAgree(h, 7);
    FieldsAgree(h, 11);
    FieldsAgree(h, 17);
    FieldsAgree(h, 19);
    FieldsAgree(Le16(|s|), 0);
  }

  /** Block `i` of the part of `text` from offset 17 on, filled up with zeros. */
  function TailBlock(text: seq<byte>, i: nat): (b: Block) {
    seq(16, k requires 0 <= k < 16 => if 17 + 16 * i + k < |text| then text[17 + 16 * i + k] else 0)
  }

  /** `w` is `c` sealed: its own length prefix, 15 struct bytes as they are, and the rest, filled
      up with the fewest zeros, sealed block by block. */
  ghost predicate Seals(c: seq<byte>, w: seq<byte>, key: Key) {
    && 17 <= |c| <= |w| < |c| + 16 && (|w| - 17) % 16 == 0 && U16(w, 0) == |w| - 2
    && w[2..17] == c[2..17]
    && forall i: nat :: 17 + 16 * i < |w| ==> BlockAt(w, i) == key.seal(TailBlock(c, i))
  }

  /** Block `i` of the part of a buffer from offset 17 on. */
  function BlockAt(w: seq<byte>, i: nat): seq<byte> {
    if 17 + 16 * i + 16 <= |w| then w[17 + 16 * i..17 + 16 * i + 16] else []
  }

  /** A sealed wire image seals that of the same frame in clear with its encrypted bit set. */
  lemma SealedBytes(f: Frame, key: Key)
    requires Encode(f, Some(key)).Ok?
    ensures var g := f.(srcFlag := f.srcFlag - f.srcFlag % 2 + 1);
      Encode(g, None).Ok? && Seals(Encode(g, None).value.wire, Encode(f, Some(key)).value.wire, key)
  {
    hide Register;
    hide Header;
    hide Ecb;
    hide Padded;
    hide Seals;
    var g := f.(srcFlag := f.srcFlag - f.srcFlag % 2 + 1);
    EncodeOutcome(f, Some(key));
    EncodeOutcome(g, None);
    EncodeShape(f, Some(key));
    EncodeShape(g, None);
    hide Encode;
    var c, w := Encode(g, None).value.wire, Encode(f, Some(key)).value.wire;
    var s := ClearStruct(f, g.srcFlag);
    SameStruct(f, g, g.srcFlag);
    SealedPlaces(s, c, w, key);
  }

  /** The struct does not take its flags byte from the frame. */
  lemma SameStruct(f: Frame, g: Frame, flag: byte)
    requires |f.payload| <= MAX_FRAME_LEN && g == f.(srcFlag := g.srcFlag)
    ensures ClearStruct(g, flag) == ClearStruct(f, flag)
  {
    hide Register;
    hide Le32;
    assert forall csum: u16 :: Header(g, flag, csum, |f.payload|) == Header(f, flag, csum, |f.payload|);
  }

  lemma SealedPlaces(s: seq<byte>, c: seq<byte>, w: seq<byte>, key: Key)
    requires 21 <= |s| < 0x1_0000 && c == Le16(|s|) + s
    requires var body := s[..15] + Ecb(key.seal, Padded(s[15..]));
      |body| < 0x1_0000 && w == Le16(|body|) + body
    ensures Seals(c, w, key)
  {
    var padded := Padded(s[15..]);
    var sealed := Ecb(key.seal, padded);
    PaddedWithZeros(s[15..]);
    hide Padded;
    hide Ecb;
    assert w == Le16(|w| - 2) + s[..15] + sealed;
    assert w[17..] == sealed;
    FieldsAgree(w, 0);
    forall i: nat | 17 + 16 * i < |w| ensures BlockAt(w, i) == key.seal(TailBlock(c, i)) {
      WholeBlocks(|sealed|, i);
      EcbBlock(key.seal, padded, i);
      assert w[17 + 16 * i..17 + 16 * i + 16] == sealed[16 * i..16 * i + 16];
      assert padded[16 * i..16 * i + 16] == TailBlock(c, i);
    }
  }

  lemma WholeBlocks(n: nat, i: nat)
    requires n % 16 == 0 && 16 * i < n
    ensures 16 * i + 16 <= n
  {
  }

  // ----- Decoding -----

  /** The frame that the 23 header bytes and the payload of `p` spell. */
  predicate Spells(f: Frame, p: seq<byte>) {
    && |p| >= 23 && 23 + U16(p, 21) <= |p|
    && f.sequence == U32(p, 5) && f.srcId == U32(p, 9) && f.dstId == U32(p, 13)
    && f.major == p[17] as int && f.minor == p[18] as int
    && f.checksum == U16(p, 19) && f.payload == p[23..23 + U16(p, 21)]
  }

  /** What is tested of the plain bytes of a frame, flags byte as received: the payload fits,
      and the register over the struct up to its end is the checksum in it. */
  predicate Sound(p: seq<byte>) {
    && |p| >= 23 && 23 + U16(p, 21) <= |p|
    && Register(p[2..], 21 + U16(p, 21)) as int == U16(p, 19)
  }

  /** A buffer long enough for its claim, with the protocol bytes. */
  predicate Framed(buf: seq<byte>) {
    |buf| >= 23 && U16(buf, 0) + 2 <= |buf| && buf[2] == 0x45 && buf[3] == 0x02
  }

  /** Exactly which cleartext buffers decode, and to what, whatever the key setting. */
  lemma ClearAccepted(buf: seq<byte>, key: Option<Key>)
    requires |buf| >= 23 && buf[4] % 2 == 0
    ensures Decode(buf, key).Ok? <==> Framed(buf) && Sound(buf[..U16(buf, 0) + 2])
    ensures Decode(buf, key).Ok? ==>
      var f := Decode(buf, key).value;
      Spells(f, buf[..U16(buf, 0) + 2]) && f.srcFlag == buf[4] as int
  {
    hide Register;
    FieldsAgree(buf, 0);
    if Framed(buf) {
      var p := buf[..U16(buf, 0) + 2];
      assert p[2..] == buf[2..U16(buf, 0) + 2];
    }
  }

  /** The plain bytes under a received buffer: the first 17 as they are, the rest opened. */
  function Opened(buf: seq<byte>, key: Key): (p: seq<byte>)
    requires |buf| >= 17 && (|buf| - 17) % 16 == 0
  {
    buf[..17] + Ecb(key.open, buf[17..])
  }

  lemma OpenedBlocks(buf: seq<byte>, key: Key, i: nat)
    requires |buf| >= 17 && (|buf| - 17) % 16 == 0 && 17 + 16 * i + 16 <= |buf|
    ensures |Opened(buf, key)| == |buf| && Opened(buf, key)[..17] == buf[..17]
    ensures |BlockAt(buf, i)| == 16 && BlockAt(Opened(buf, key), i) == key.open(BlockAt(buf, i))
  {
    EcbBlock(key.open, buf[17..], i);
    hide Ecb;
    assert buf[17..][16 * i..16 * i + 16] == buf[17 + 16 * i..17 + 16 * i + 16];
    assert Opened(buf, key)[17 + 16 * i..17 + 16 * i + 16] == Ecb(key.open, buf[17..])[16 * i..16 * i + 16];
  }

  /** Exactly which encrypted buffers decode under a usable key, and to what: the tail is whole
      blocks, and the opened bytes, the encrypted bit in place, pass the same tests. */
  lemma SealedAccepted(buf: seq<byte>, key: Key)
    requires |buf| >= 23 && buf[4] % 2 == 1 && |key.material| == 16
    ensures Decode(buf, Some(key)).Ok? <==>
      && Framed(buf) && U16(buf, 0) + 2 >= 17 && (U16(buf, 0) + 2 - 17) % 16 == 0
      && Sound(Opened(buf[..U16(buf, 0) + 2], key))
    ensures Decode(buf, Some(key)).Ok? ==>
      var f := Decode(buf, Some(key)).value;
      Spells(f, Opened(buf[..U16(buf, 0) + 2], key)) && f.srcFlag == buf[4] as int - 1
  {
    hide Register;
    hide Ecb;
    hide Finish;
    FieldsAgree(buf, 0);
    if Framed(buf) {
      var total := U16(buf, 0) + 2;
      var cut := buf[..total];
      if total >= 17 && (total - 17) % 16 == 0 {
        var p := Opened(cut, key);
        assert DecryptInBuf(cut, key) == Ok(p[4 := ClearBit0(p[4])]);
        if total >= 23 {
          FinishOpened(p, total);
        }
      }
    }
  }

  lemma FinishOpened(p: seq<byte>, total: nat)
    requires |p| == total >= 23 && p[4] % 2 == 1
    ensures var r := Finish(p[4 := ClearBit0(p[4])], p[4], total);
      && (r.Ok? <==> Sound(p))
      && (r.Ok? ==> Spells(r.value, p) && r.value.srcFlag == p[4] as int - 1)
  {
    hide Register;
    var plain := p[4 := ClearBit0(p[4])];
    assert plain[2..total][2 := SetBit0(plain[2..total][2])] == p[2..];
  }

  /** Why a framed buffer of at least a header is rejected: an encrypted one for want of a key,
      or of a key of the right length, or of whole blocks; any for a payload that does not fit,
      and last for its checksum. */
  lemma DecodeErrors(buf: seq<byte>, key: Option<Key>)
    requires Framed(buf) && U16(buf, 0) >= 21 && Decode(buf, key).Err?
    ensures var total, sealed := U16(buf, 0) + 2, buf[4] % 2 == 1;
      Decode(buf, key).error ==
        if sealed && key.None? then EncryptionRequired
        else if sealed && |key.value.material| != 16 then BadKeyLength
        else if sealed && (total - 17) % 16 != 0 then RaggedTail
        else if 23 + U16(if sealed then Opened(buf[..total], key.value) else buf, 21) > total then LengthOverflow
        else ChecksumMismatch
  {
    hide Register;
    hide Ecb;
    FieldsAgree(buf, 0);
    FieldsAgree(buf, 21);
  }

  // ----- What a keyed receiver detects -----

  /** The opened bytes of an image that seals `c` are those of `c`, then the zeros of the pad. */
  lemma OpenedSeals(c: seq<byte>, w: seq<byte>, key: Key, i: nat)
    requires Seals(c, w, key) && 17 <= i < |w|
    ensures |Opened(w, key)| == |w| && Opened(w, key)[i] == if i < |c| then c[i] else 0
  {
    var j := (i - 17) / 16;
    WholeBlocks(|w| - 17, j);
    OpenedBlocks(w, key, j);
    hide Opened;
    assert BlockAt(w, j) == key.seal(TailBlock(c, j));
    assert BlockAt(Opened(w, key), j) == TailBlock(c, j);
    assert Opened(w, key)[i] == BlockAt(Opened(w, key), j)[(i - 17) % 16];
  }

  /** A received image that seals `c` is accepted exactly when `c` passes the tests: the payload
      ends within the padded struct, and the register up to there is the checksum in `c`. */
  lemma SealedDecides(c: seq<byte>, w: seq<byte>, key: Key)
    requires Seals(c, w, key) && |key.material| == 16
    requires |c| >= 23 && c[2] == 0x45 && c[3] == 0x02 && c[4] % 2 == 1 && 23 + U16(c, 21) <= |c|
    ensures Decode(w, Some(key)).Ok? <==> Register(c[2..], 21 + U16(c, 21)) as int == U16(c, 19)
    ensures Decode(w, Some(key)).Ok? ==> Decode(w, Some(key)).value.payload == c[23..23 + U16(c, 21)]
  {
    var p := Opened(w, key);
    OpenedPrefix(c, w, key);
    forall i | 17 <= i < |w| ensures p[i] == if i < |c| then c[i] else 0 {
      OpenedSeals(c, w, key, i);
    }
    hide Opened;
    hide Seals;
    hide Decode;
    SealedAccepted(w, key);
    assert w[..|w|] == w;
    var n := 21 + U16(c, 21);
    assert forall i :: 0 <= i < n ==> p[2..][i] == c[2..][i];
    RegisterFrame(p[2..], c[2..], n);
    hide Register;
    assert p[23..2 + n] == c[23..2 + n];
  }

  lemma OpenedPrefix(c: seq<byte>, w: seq<byte>, key: Key)
    requires Seals(c, w, key)
    ensures |Opened(w, key)| == |w| && U16(w, 0) + 2 == |w|
    ensures forall i :: 2 <= i < 17 ==> Opened(w, key)[i] == c[i] == w[i]
  {
    hide Ecb;
    forall i | 2 <= i < 17 ensures w[i] == c[i] {
      assert w[2..17][i - 2] == c[2..17][i - 2];
    }
  }

  /** A frame changed in one byte of its struct before it was sealed is rejected under the key:
      any byte from the flags to the payload but the two of dlen, the encrypted bit left set. */
  lemma SealedChangeRejected(f: Frame, key: Key, at: nat, b: byte, w: seq<byte>)
    requires f.srcFlag % 2 == 1 && Encode(f, None).Ok? && |key.material| == 16
    requires var c := Encode(f, None).value.wire;
      && 4 <= at < |c| && at != 21 && at != 22 && c[at] != b && (at == 4 ==> b % 2 == 1)
      && Seals(c[at := b], w, key)
    ensures Decode(w, Some(key)).Err?
  {
    ClearBytes(f);
    var c := Encode(f, None).value.wire;
    hide Encode;
    ChangedRejected(c, key, at, b, w);
  }

  lemma ChangedRejected(c: seq<byte>, key: Key, at: nat, b: byte, w: seq<byte>)
    requires |c| >= 23 && c[2] == 0x45 && c[3] == 0x02 && c[4] % 2 == 1 && 23 + U16(c, 21) == |c|
    requires U16(c, 19) == Register(c[2..], |c| - 2) as int && |key.material| == 16
    requires 4 <= at < |c| && at != 21 && at != 22 && c[at] != b && (at == 4 ==> b % 2 == 1)
    requires Seals(c[at := b], w, key)
    ensures Decode(w, Some(key)).Err?
  {
    hide Decode;
    hide Seals;
    hide Register;
    SealedDecides(c[at := b], w, key);
    FieldsAgree(c, 19);
    FieldsAgree(c[at := b], 19);
    CoveredByteRejected(c, c[at := b], at);
  }
}
