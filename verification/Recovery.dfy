/** Frames come out of the decoder as they went in, through garbage and any chunking
    (spcedp/wire.py:127-397). */
module Recovery {
  import opened Bytes
  import opened Cipher
  import opened Codec
  import opened Decoder
  import opened Streams
  import opened WireFormat

  // ----- Streams of garbage and frames -----

  /** Garbage, then the wire image of a frame. */
  datatype Item = Item(garbage: seq<byte>, wire: seq<byte>, frame: Frame)

  /** A whole wire image of chunk-safe size that decodes to `f`. */
  predicate GoodWire(wire: seq<byte>, f: Frame, key: Option<Key>) {
    && HEADER_LEN <= |wire| <= CHUNK_SAFE_FRAME
    && Claimed(wire) == |wire|
    && wire[2] == PROTOCOL_BYTE && wire[3] == PROTOCOL_VERSION
    && Decode(wire, key) == Ok(f)
  }

  /** No frame, nor the wait for one, at the front of `s`: its header is implausible, or it is
      that of a complete frame of chunk-safe size that does not decode, though not for want of a
      usable key. */
  predicate NoFrame(s: seq<byte>, key: Option<Key>)
    requires |s| >= 23
  {
    LooksValid(s) ==>
      && Claimed(s) <= CHUNK_SAFE_FRAME && Claimed(s) <= |s|
      && Decode(s[..Claimed(s)], key).Err?
      && (s[4] % 2 == 1 ==> key.Some? && |key.value.material| == 16)
  }

  /** That holds at each of the first `n` bytes of `s`, where a whole header fits. */
  ghost predicate NoFrameBefore(s: seq<byte>, n: nat, key: Option<Key>) {
    forall p {:trigger s[p..]} :: 0 <= p < n && p + 23 <= |s| ==> NoFrame(s[p..], key)
  }

  /** Garbage runs within the resync limit, in which no frame starts, and good frames; the
      garbage is judged by the whole stream from it on. */
  ghost predicate GoodStream(items: seq<Item>, trailing: seq<byte>, key: Option<Key>) {
    if items == [] then |trailing| <= RESYNC_LIMIT && NoFrameBefore(trailing, |trailing|, key)
    else
      && GoodWire(items[0].wire, items[0].frame, key)
      && |items[0].garbage| <= RESYNC_LIMIT
      && NoFrameBefore(StreamOf(items, trailing), |items[0].garbage|, key)
      && GoodStream(items[1..], trailing, key)
  }

  function StreamOf(items: seq<Item>, trailing: seq<byte>): seq<byte> {
    if items == [] then trailing
    else items[0].garbage + (items[0].wire + StreamOf(items[1..], trailing))
  }

  function FramesOf(items: seq<Item>): seq<Frame> {
    if items == [] then [] else [items[0].frame] + FramesOf(items[1..])
  }

  // ----- Garbage is dropped byte by byte -----

  function Drops(g: seq<byte>): (segs: seq<Segment>)
    ensures Frames(segs) == []
  {
    if g == [] then [] else [Dropped(g[0])] + Drops(g[1..])
  }

  lemma NoFrameTail(s: seq<byte>, n: nat, key: Option<Key>)
    requires NoFrameBefore(s, n, key) && s != [] && n > 0
    ensures NoFrameBefore(s[1..], n - 1, key)
  {
    hide NoFrame;
    forall p | 0 <= p < n - 1 && p + 23 <= |s[1..]| ensures NoFrame(s[1..][p..], key) {
      assert s[1..][p..] == s[p + 1..];
    }
  }

  /** The decoder resyncs past a complete frame that does not decode. */
  lemma RejectedIsSkipped(s: seq<byte>, key: Option<Key>)
    requires |s| >= 23 && NoFrame(s, key) && LooksValid(s)
    ensures Decode(s[..Claimed(s)], key).Err? && Decode(s[..Claimed(s)], key).error.Recoverable()
  {
    hide Decode;
    FieldsAgree(s, 0);
    DecodeErrors(s[..Claimed(s)], key);
  }

  lemma DropOne(s: seq<byte>, dropped: nat, key: Option<Key>)
    requires |s| >= 23 && NoFrame(s, key) && dropped < RESYNC_LIMIT
    ensures Scan(s, dropped, key) == Onto([Dropped(s[0])], Scan(s[1..], dropped + 1, key))
    ensures Tame(s[1..], dropped + 1, key) ==> Tame(s, dropped, key)
  {
    hide Decode;
    if LooksValid(s) {
      RejectedIsSkipped(s, key);
    }
  }

  lemma {:induction false} GarbageDrops(g: seq<byte>, s: seq<byte>, dropped: nat, key: Option<Key>)
    requires |s| >= HEADER_LEN && dropped + |g| <= RESYNC_LIMIT
    requires NoFrameBefore(g + s, |g|, key)
    ensures Scan(g + s, dropped, key) == Onto(Drops(g), Scan(s, dropped + |g|, key))
    ensures Tame(s, dropped + |g|, key) ==> Tame(g + s, dropped, key)
    decreases |g|
  {
    hide Scan;
    hide Tame;
    hide NoFrame;
    if g == [] {
      assert g + s == s;
      assert Drops(g) + Scan(s, dropped, key).segs == Scan(s, dropped, key).segs;
    } else {
      var t := g[1..] + s;
      assert (g + s)[0..] == g + s && (g + s)[1..] == t;
      NoFrameTail(g + s, |g|, key);
      DropOne(g + s, dropped, key);
      hide NoFrameBefore;
      GarbageDrops(g[1..], s, dropped + 1, key);
      Assoc([Dropped(g[0])], Drops(g[1..]), Scan(s, dropped + |g|, key).segs);
    }
  }

  /** Trailing garbage is dropped down to less than a header. */
  lemma {:induction false} TrailingDrops(g: seq<byte>, dropped: nat, key: Option<Key>)
    requires dropped + |g| <= RESYNC_LIMIT && NoFrameBefore(g, |g|, key)
    ensures var r := Scan(g, dropped, key);
      && r.error.None? && Frames(r.segs) == [] && Tame(g, dropped, key)
      && |r.rest| < HEADER_LEN && (g == [] ==> r == Scanned([], [], dropped, None))
    decreases |g|
  {
    hide Scan;
    hide Tame;
    hide NoFrame;
    if |g| < HEADER_LEN {
      ShortScan(g, dropped, key);
      assert Frames([]) == [];
    } else {
      assert g[0..] == g;
      NoFrameTail(g, |g|, key);
      DropOne(g, dropped, key);
      hide *;
      TrailingDrops(g[1..], dropped + 1, key);
      SegmentsAppend([Dropped(g[0])], Scan(g[1..], dropped + 1, key).segs);
      OneSegment(Dropped(g[0]));
    }
  }

  lemma ShortScan(s: seq<byte>, dropped: nat, key: Option<Key>)
    requires |s| < HEADER_LEN
    ensures Scan(s, dropped, key) == Scanned([], s, dropped, None) && Tame(s, dropped, key)
  {
  }

  // ----- A good frame is delivered -----

  lemma WireDelivered(wire: seq<byte>, f: Frame, rest: seq<byte>, dropped: nat, key: Option<Key>)
    requires GoodWire(wire, f, key)
    ensures Scan(wire + rest, dropped, key) == Onto([Delivered(wire, f)], Scan(rest, 0, key))
    ensures Tame(rest, 0, key) ==> Tame(wire + rest, dropped, key)
  {
    hide Decode;
    Halves(wire, rest);
    HeadExtends(wire, rest, dropped, key);
    assert wire[..|wire|] == wire && wire[|wire|..] == [];
    assert [] + rest == rest;
  }

  lemma {:induction false} ItemsDelivered(items: seq<Item>, trailing: seq<byte>, key: Option<Key>)
    requires GoodStream(items, trailing, key)
    ensures var s := StreamOf(items, trailing);
      var r := Scan(s, 0, key);
      && Tame(s, 0, key)
      && r.error.None? && Frames(r.segs) == FramesOf(items) && |r.rest| < HEADER_LEN
      && (trailing == [] ==> r.rest == [] && r.dropped == 0)
  {
    hide NoFrameBefore;
    hide GoodWire;
    hide Scan;
    hide Tame;
    if items == [] {
      TrailingDrops(trailing, 0, key);
    } else {
      ItemsDelivered(items[1..], trailing, key);
      ItemDelivered(items[0], StreamOf(items[1..], trailing), key);
    }
  }

  /** One run of garbage and its frame, in front of a stream. */
  lemma ItemDelivered(it: Item, rest: seq<byte>, key: Option<Key>)
    requires GoodWire(it.wire, it.frame, key) && |it.garbage| <= RESYNC_LIMIT
    requires NoFrameBefore(it.garbage + (it.wire + rest), |it.garbage|, key)
    ensures var s := it.garbage + (it.wire + rest);
      var r, after := Scan(s, 0, key), Scan(rest, 0, key);
      && (Tame(rest, 0, key) ==> Tame(s, 0, key))
      && r == after.(segs := r.segs) && Frames(r.segs) == [it.frame] + Frames(after.segs)
  {
    hide Scan;
    hide Tame;
    hide NoFrameBefore;
    assert |it.wire| >= HEADER_LEN;
    hide GoodWire;
    WireDelivered(it.wire, it.frame, rest, |it.garbage|, key);
    GarbageDrops(it.garbage, it.wire + rest, 0, key);
    FramesAround(it.garbage, it.wire, it.frame, Scan(rest, 0, key).segs);
    hide Frames;
  }

  lemma FramesAround(g: seq<byte>, wire: seq<byte>, f: Frame, segs: seq<Segment>)
    ensures Frames(Drops(g) + ([Delivered(wire, f)] + segs)) == [f] + Frames(segs)
  {
    SegmentsAppend([Delivered(wire, f)], segs);
    OneSegment(Delivered(wire, f));
    SegmentsAppend(Drops(g), [Delivered(wire, f)] + segs);
    hide Frames;
    assert [] + Frames([Delivered(wire, f)] + segs) == [f] + Frames(segs);
  }

  /** Garbage recovery: runs of garbage within the resync limit, in which no frame starts, cost
      no frame, whatever the chunking: the decoder never raises and delivers every frame in
      order. The garbage may hold plausible headers, of complete frames that do not decode. */
  lemma GarbageRecovery(items: seq<Item>, trailing: seq<byte>, chunks: seq<seq<byte>>, key: Option<Key>)
    requires GoodStream(items, trailing, key)
    requires Flatten(chunks) == StreamOf(items, trailing)
    ensures var o := Run(chunks, key);
      && o.error.None? && Frames(o.segs) == FramesOf(items) && |o.dec.buf| < HEADER_LEN
      && (trailing == [] ==> o.dec.buf == [] && o.dec.dropped == 0)
  {
    ItemsDelivered(items, trailing, key);
    RunIsScan(chunks, key);
  }

  // ----- Round trip of encoded frames -----

  /** A frame handed to encode, in cleartext or under the receiver's key. */
  datatype Sent = Sent(frame: Frame, sealed: bool)

  function KeyFor(x: Sent, key: Option<Key>): Option<Key> {
    if x.sealed then key else None
  }

  /** Encodable within the chunk-safe size; a cleartext frame has its encrypted bit clear. */
  predicate Sendable(x: Sent, key: Option<Key>) {
    && (x.sealed ==> key.Some?)
    && (!x.sealed ==> x.frame.srcFlag % 2 == 0)
    && Encode(x.frame, KeyFor(x, key)).Ok?
    && |Encode(x.frame, KeyFor(x, key)).value.wire| <= CHUNK_SAFE_FRAME
  }

  function EncodedOf(x: Sent, key: Option<Key>): Encoded
    requires Sendable(x, key)
  {
    Encode(x.frame, KeyFor(x, key)).value
  }

  function ItemOf(x: Sent, key: Option<Key>): Item
    requires Sendable(x, key)
  {
    Item([], EncodedOf(x, key).wire, Received(x.frame, EncodedOf(x, key).checksum))
  }

  ghost predicate AllSendable(xs: seq<Sent>, key: Option<Key>) {
    forall i :: 0 <= i < |xs| ==> Sendable(xs[i], key)
  }

  ghost function Items(xs: seq<Sent>, key: Option<Key>): seq<Item>
    requires AllSendable(xs, key)
  {
    if xs == [] then [] else [ItemOf(xs[0], key)] + Items(xs[1..], key)
  }

  lemma SendableIsGood(x: Sent, key: Option<Key>)
    requires Sendable(x, key)
    ensures GoodWire(ItemOf(x, key).wire, ItemOf(x, key).frame, key)
  {
    hide Encode;
    hide Decode;
    if x.sealed {
      DecodeEncodeSealed(x.frame, key.value);
    } else {
      DecodeEncodeClear(x.frame, key);
    }
  }

  /** Everything encoded, back to back. */
  ghost function WireOf(xs: seq<Sent>, key: Option<Key>): seq<byte>
    requires AllSendable(xs, key)
  {
    if xs == [] then [] else EncodedOf(xs[0], key).wire + WireOf(xs[1..], key)
  }

  /** The same frames as the receiver sees them: fields cut to width, encrypted bit clear. */
  ghost function ReceivedAll(xs: seq<Sent>, key: Option<Key>): seq<Frame>
    requires AllSendable(xs, key)
  {
    if xs == [] then []
    else [Received(xs[0].frame, EncodedOf(xs[0], key).checksum)] + ReceivedAll(xs[1..], key)
  }

  lemma {:induction false} ItemsSpell(xs: seq<Sent>, key: Option<Key>)
    requires AllSendable(xs, key)
    ensures StreamOf(Items(xs, key), []) == WireOf(xs, key)
    ensures FramesOf(Items(xs, key)) == ReceivedAll(xs, key)
    ensures GoodStream(Items(xs, key), [], key)
  {
    hide Sendable;
    hide EncodedOf;
    hide NoFrame;
    if xs != [] {
      ItemsSpell(xs[1..], key);
      SendableIsGood(xs[0], key);
      hide GoodWire;
      assert [] + (EncodedOf(xs[0], key).wire + WireOf(xs[1..], key)) == WireOf(xs, key);
    }
  }

  /** Stream round trip: encoded frames of at most 8216 wire bytes, concatenated and cut
      anywhere, come out of a fresh decoder exactly and in order, with nothing left over. */
  lemma StreamRoundTrip(xs: seq<Sent>, chunks: seq<seq<byte>>, key: Option<Key>)
    requires AllSendable(xs, key)
    requires Flatten(chunks) == WireOf(xs, key)
    ensures var o := Run(chunks, key);
      && o.error.None? && Frames(o.segs) == ReceivedAll(xs, key)
      && o.dec.buf == [] && o.dec.dropped == 0
  {
    ItemsSpell(xs, key);
    GarbageRecovery(Items(xs, key), [], chunks, key);
  }
}
