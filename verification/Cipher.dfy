/** The block cipher under the frame encryption, kept abstract: a key is whatever
    length-preserving, invertible map on 16-byte blocks AES-128 gives for it. */
module Cipher {
  import opened Bytes

  const AES_BLOCK_SIZE := 16

  type Block = b: seq<byte> | |b| == AES_BLOCK_SIZE witness Zeros(AES_BLOCK_SIZE)

  datatype KeyMaps = KeyMaps(material: seq<byte>, seal: Block -> Block, open: Block -> Block) {
    ghost predicate Invertible() {
      forall b: Block :: open(seal(b)) == b
    }
  }

  type Key = k: KeyMaps | k.Invertible()
    witness KeyMaps(Zeros(16), (b: Block) => b, (b: Block) => b)

  /** Electronic codebook mode (NIST SP 800-38A, section 6.1): each block on its own. */
  function Ecb(f: Block -> Block, text: seq<byte>): (r: seq<byte>)
    requires |text| % AES_BLOCK_SIZE == 0
    ensures |r| == |text|
  {
    if text == [] then []
    else f(text[..AES_BLOCK_SIZE]) + Ecb(f, text[AES_BLOCK_SIZE..])
  }

  lemma {:induction false} EcbInverse(key: Key, text: seq<byte>)
    requires |text| % AES_BLOCK_SIZE == 0
    ensures Ecb(key.open, Ecb(key.seal, text)) == text
  {
    if text != [] {
      var first: Block, rest := text[..AES_BLOCK_SIZE], text[AES_BLOCK_SIZE..];
      var sealed := Ecb(key.seal, text);
      assert sealed[..AES_BLOCK_SIZE] == key.seal(first);
      assert sealed[AES_BLOCK_SIZE..] == Ecb(key.seal, rest);
      EcbInverse(key, rest);
      assert text == first + rest;
    }
  }

  /** Zero padding up to the next block boundary. */
  function Padded(text: seq<byte>): (r: seq<byte>)
    ensures |r| % AES_BLOCK_SIZE == 0
    ensures |text| <= |r| < |text| + AES_BLOCK_SIZE
    ensures r[..|text|] == text
  {
    text + Zeros(-|text| % AES_BLOCK_SIZE)
  }

  /** What lies in 16-byte block `i` of the result is the image of block `i` of the text, and of
      nothing else. */
  lemma {:induction false} EcbBlock(f: Block -> Block, text: seq<byte>, i: nat)
    requires |text| % 16 == 0 && 16 * i + 16 <= |text|
    ensures |text[16 * i..16 * i + 16]| == 16
    ensures Ecb(f, text)[16 * i..16 * i + 16] == f(text[16 * i..16 * i + 16])
  {
    var rest := text[16..];
    var image := f(text[..16]);
    assert Ecb(f, text) == image + Ecb(f, rest);
    if i == 0 {
      assert Ecb(f, text)[..16] == image;
    } else {
      EcbBlock(f, rest, i - 1);
      assert text[16 * i..16 * i + 16] == rest[16 * (i - 1)..16 * (i - 1) + 16];
      assert Ecb(f, text)[16 * i..16 * i + 16] == Ecb(f, rest)[16 * (i - 1)..16 * (i - 1) + 16];
    }
  }

  /** The pad is the fewest zero bytes that fill the last block. */
  lemma PaddedWithZeros(text: seq<byte>)
    ensures |Padded(text)| % 16 == 0 && |text| <= |Padded(text)| < |text| + 16
    ensures forall i :: 0 <= i < |Padded(text)| ==> Padded(text)[i] == if i < |text| then text[i] else 0
  {
  }
}
