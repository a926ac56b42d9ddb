/** The scan skips nothing and never wedges (spcedp/wire.py:318-397). */
module Coverage {
  import opened Bytes
  import opened Cipher
  import opened Codec
  import opened Decoder
  import opened Streams

  // ----- Why each segment was consumed -----

  /** The reasons for dropping the first byte of `s`; no later input can take one back. */
  predicate MayDrop(s: seq<byte>, key: Option<Key>)
    requires |s| >= HEADER_LEN
  {
    || !LooksValid(s)
    || Claimed(s) > CHUNK_SAFE_FRAME
    || (Claimed(s) <= |s| && Decode(s[..Claimed(s)], key).Err?)
  }

  /** `seg` is what the decoder rightly made of the front of `s`. */
  predicate Justified(seg: Segment, s: seq<byte>, key: Option<Key>) {
    && |s| >= HEADER_LEN
    && match seg
       case Dropped(b) => s[0] == b && MayDrop(s, key)
       case Delivered(wire, f) =>
         && wire <= s && |wire| >= HEADER_LEN
         && LooksValid(wire) && Claimed(wire) == |wire| && Decode(wire, key) == Ok(f)
  }

  /** The stream from segment `i` on. */
  function From(segs: seq<Segment>, tail: seq<byte>, i: nat): seq<byte>
    requires i <= |segs|
  {
    Consumed(segs[i..]) + tail
  }

  ghost predicate AllJustified(segs: seq<Segment>, tail: seq<byte>, key: Option<Key>) {
    forall i {:trigger segs[i]} :: 0 <= i < |segs| ==> Justified(segs[i], From(segs, tail, i), key)
  }

  lemma JustifiedExtends(seg: Segment, s: seq<byte>, more: seq<byte>, key: Option<Key>)
    requires Justified(seg, s, key)
    ensures Justified(seg, s + more, key)
  {
    hide Decode;
    if Claimed(s) <= |s| {
      assert (s + more)[..Claimed(s)] == s[..Claimed(s)];
    }
  }

  lemma AllExtend(segs: seq<Segment>, tail: seq<byte>, more: seq<byte>, key: Option<Key>)
    requires AllJustified(segs, tail, key)
    ensures AllJustified(segs, tail + more, key)
  {
    hide Justified;
    hide Consumed;
    forall i | 0 <= i < |segs| ensures Justified(segs[i], From(segs, tail + more, i), key) {
      JustifiedExtends(segs[i], From(segs, tail, i), more, key);
      Assoc(Consumed(segs[i..]), tail, more);
    }
  }

  lemma FromAppend(a: seq<Segment>, b: seq<Segment>, tail: seq<byte>, i: nat)
    requires i <= |a|
    ensures From(a + b, tail, i) == From(a, Consumed(b) + tail, i)
  {
    hide Consumed;
    assert (a + b)[i..] == a[i..] + b;
    SegmentsAppend(a[i..], b);
    Assoc(Consumed(a[i..]), Consumed(b), tail);
  }

  lemma AllAppend(a: seq<Segment>, b: seq<Segment>, tail: seq<byte>, key: Option<Key>)
    requires AllJustified(a, Consumed(b) + tail, key) && AllJustified(b, tail, key)
    ensures AllJustified(a + b, tail, key)
  {
    hide Justified;
    hide From;
    forall i | 0 <= i < |a + b| ensures Justified((a + b)[i], From(a + b, tail, i), key) {
      if i < |a| {
        assert (a + b)[i] == a[i];
        FromAppend(a, b, tail, i);
      } else {
        assert (a + b)[i] == b[i - |a|];
        FromLater(a, b, tail, i - |a|);
      }
    }
  }

  lemma FromLater(a: seq<Segment>, b: seq<Segment>, tail: seq<byte>, i: nat)
    requires i <= |b|
    ensures From(a + b, tail, |a| + i) == From(b, tail, i)
  {
    assert (a + b)[|a| + i..] == b[i..];
  }

  lemma TurnJustified(d: Dec, key: Option<Key>)
    requires WaitOk(d)
    ensures var segs := TurnSegments(TurnOf(d, key));
      segs != [] ==> |segs| == 1 && Justified(segs[0], d.buf, key)
  {
    hide Decode;
    hide Get16;
    var t := TurnOf(d, key);
    if t.Accept? {
      HeadExtends(t.wire, d.buf[|t.wire|..], d.dropped, key);
      assert t.wire + d.buf[|t.wire|..] == d.buf;
    }
  }

  lemma TurnAllJustified(d: Dec, key: Option<Key>)
    requires WaitOk(d)
    ensures AllJustified(TurnSegments(TurnOf(d, key)), TurnOf(d, key).dec.buf, key)
  {
    TurnJustified(d, key);
    TurnConserves(d, key);
    hide TurnOf;
    hide Justified;
    hide Consumed;
    var segs := TurnSegments(TurnOf(d, key));
    assert segs[0..] == segs;
  }

  lemma {:induction false} LoopJustified(d: Dec, key: Option<Key>)
    requires WaitOk(d)
    ensures AllJustified(Loop(d, key).segs, Loop(d, key).dec.buf, key)
    decreases |d.buf|
  {
    var t := TurnOf(d, key);
    TurnAllJustified(d, key);
    LoopFirst(d, key);
    if t.Skip? || t.Accept? {
      TurnConserves(d, key);
      TurnKeepsWait(d, key);
      hide *;
      LoopJustified(t.dec, key);
      LoopConserves(t.dec, key);
      var rest := Loop(t.dec, key);
      AllAppend(TurnSegments(t), rest.segs, rest.dec.buf, key);
    }
  }

  lemma FeedJustified(segs: seq<Segment>, d: Dec, data: seq<byte>, key: Option<Key>)
    requires WaitOk(d) && AllJustified(segs, d.buf, key)
    ensures var o := FeedResult(d, data, key);
      AllJustified(segs + o.segs, o.dec.buf, key)
  {
    var e := d.(buf := d.buf + data);
    ExtendSettled(d, data);
    LoopJustified(e, key);
    LoopConserves(e, key);
    AllExtend(segs, d.buf, data, key);
    AllAppend(segs, Loop(e, key).segs, Loop(e, key).dec.buf, key);
  }

  /** Every segment of a run is justified by the stream from its own start on. */
  lemma {:induction false} RunJustified(chunks: seq<seq<byte>>, key: Option<Key>)
    ensures AllJustified(Run(chunks, key).segs, Run(chunks, key).dec.buf, key)
  {
    if chunks != [] {
      var init, last := chunks[..|chunks| - 1], chunks[|chunks| - 1];
      RunJustified(init, key);
      RunSettles(init, key);
      hide AllJustified;
      var before := Run(init, key);
      if before.error.None? {
        FeedJustified(before.segs, before.dec, last, key);
      }
    }
  }

  // ----- Nothing is skipped -----

  /** Where segment `i` starts in the stream. */
  function Offset(segs: seq<Segment>, i: nat): nat
    requires i <= |segs|
  {
    |Consumed(segs[..i])|
  }

  /** A frame of chunk-safe size that would decode sits at `p`. */
  predicate FrameAt(s: seq<byte>, p: nat, key: Option<Key>) {
    && p + HEADER_LEN <= |s|
    && LooksValid(s[p..])
    && Claimed(s[p..]) <= CHUNK_SAFE_FRAME
    && p + Claimed(s[p..]) <= |s|
    && Decode(s[p..p + Claimed(s[p..])], key).Ok?
  }

  lemma SplitAt(segs: seq<Segment>, tail: seq<byte>, i: nat)
    requires i < |segs|
    ensures Offset(segs, i + 1) == Offset(segs, i) + |SegmentBytes(segs[i])| <= |Consumed(segs)|
    ensures (Consumed(segs) + tail)[Offset(segs, i)..Offset(segs, i + 1)] == SegmentBytes(segs[i])
    ensures (Consumed(segs) + tail)[Offset(segs, i)..] == From(segs, tail, i)
  {
    hide Consumed;
    hide SegmentBytes;
    TakeOneMore(segs, i);
    DropOneMore(segs, i);
    JoinedSlices(Consumed(segs[..i]), SegmentBytes(segs[i]), Consumed(segs[i + 1..]), tail);
  }

  lemma TakeOneMore(segs: seq<Segment>, i: nat)
    requires i < |segs|
    ensures Consumed(segs[..i + 1]) == Consumed(segs[..i]) + SegmentBytes(segs[i])
  {
    OneSegment(segs[i]);
    hide *;
    Uncons(segs, i);
    SegmentsAppend(segs[..i], [segs[i]]);
  }

  lemma DropOneMore(segs: seq<Segment>, i: nat)
    requires i < |segs|
    ensures Consumed(segs[i..]) == SegmentBytes(segs[i]) + Consumed(segs[i + 1..])
    ensures Consumed(segs) == Consumed(segs[..i]) + (SegmentBytes(segs[i]) + Consumed(segs[i + 1..]))
  {
    OneSegment(segs[i]);
    hide *;
    Uncons(segs, i);
    SegmentsAppend([segs[i]], segs[i + 1..]);
    SegmentsAppend(segs[..i], segs[i..]);
  }

  lemma JoinedSlices(a: seq<byte>, b: seq<byte>, c: seq<byte>, tail: seq<byte>)
    ensures var s := a + (b + c) + tail;
      s[|a|..|a| + |b|] == b && s[|a|..] == b + c + tail
  {
    Assoc(a, b, c);
    Assoc(a + b, c, tail);
    Middle(a, b, c + tail);
    Assoc(a, b + c, tail);
    Halves(a, b + c + tail);
  }

  /** The segments of a run are consecutive slices of the bytes fed: delivered frames decode
      from disjoint slices, in the order of the stream. */
  lemma SegmentSlices(chunks: seq<seq<byte>>, key: Option<Key>, i: nat)
    requires i < |Run(chunks, key).segs|
    ensures var s, segs := Flatten(chunks), Run(chunks, key).segs;
      && Offset(segs, i) < Offset(segs, i + 1) <= |s|
      && s[Offset(segs, i)..Offset(segs, i + 1)] == SegmentBytes(segs[i])
      && (segs[i].Delivered? ==>
            Decode(s[Offset(segs, i)..Offset(segs, i + 1)], key) == Ok(segs[i].frame))
  {
    RunSettles(chunks, key);
    RunJustified(chunks, key);
    hide *;
    var o := Run(chunks, key);
    SliceOf(o.segs, o.dec.buf, Flatten(chunks), i, key);
  }

  /** A later segment starts no earlier than the one before it ends. */
  lemma {:induction false} SlicesDisjoint(segs: seq<Segment>, i: nat, j: nat)
    requires i < j <= |segs|
    ensures Offset(segs, i + 1) <= Offset(segs, j)
    decreases j
  {
    hide SegmentBytes;
    if i + 1 < j {
      SlicesDisjoint(segs, i, j - 1);
      TakeOneMore(segs, j - 1);
    }
  }

  lemma SliceOf(segs: seq<Segment>, tail: seq<byte>, s: seq<byte>, i: nat, key: Option<Key>)
    requires AllJustified(segs, tail, key) && i < |segs|
    requires Consumed(segs) + tail <= s
    ensures Offset(segs, i) < Offset(segs, i + 1) <= |s|
    ensures s[Offset(segs, i)..Offset(segs, i + 1)] == SegmentBytes(segs[i])
    ensures segs[i].Delivered? ==> Decode(SegmentBytes(segs[i]), key) == Ok(segs[i].frame)
  {
    JustifiedAt(segs, tail, i, key);
    hide *;
    SplitAt(segs, tail, i);
    SegmentNotEmpty(segs[i], From(segs, tail, i), key);
    SameSlice(Consumed(segs) + tail, s, Offset(segs, i), Offset(segs, i + 1));
  }

  lemma SameSlice(t: seq<byte>, s: seq<byte>, i: nat, j: nat)
    requires t <= s && i <= j <= |t|
    ensures s[i..j] == t[i..j]
  {
  }

  lemma SegmentNotEmpty(g: Segment, rest: seq<byte>, key: Option<Key>)
    requires Justified(g, rest, key)
    ensures SegmentBytes(g) != []
  {
    hide Decode;
  }

  /** The segment that holds position `p` of the consumed stream. */
  lemma {:induction false} Locate(segs: seq<Segment>, p: nat, n: nat) returns (i: nat)
    requires n <= |segs| && p < Offset(segs, n)
    ensures i < n && Offset(segs, i) <= p < Offset(segs, i + 1)
    decreases n
  {
    assert segs[..0] == [] && n > 0;
    if p < Offset(segs, n - 1) {
      i := Locate(segs, p, n - 1);
    } else {
      i := n - 1;
    }
  }

  lemma DroppedIsNoFrame(s: seq<byte>, p: nat, b: byte, key: Option<Key>)
    requires p <= |s| && Justified(Dropped(b), s[p..], key)
    ensures !FrameAt(s, p, key)
  {
    hide Decode;
    var total := Claimed(s[p..]);
    assert p + total <= |s| ==> s[p..p + total] == s[p..][..total];
  }

  lemma JustifiedAt(segs: seq<Segment>, tail: seq<byte>, i: nat, key: Option<Key>)
    requires AllJustified(segs, tail, key) && i < |segs|
    ensures Justified(segs[i], From(segs, tail, i), key)
    ensures segs[i].Delivered? ==> Decode(SegmentBytes(segs[i]), key) == Ok(segs[i].frame)
    ensures segs[i].Dropped? ==> |SegmentBytes(segs[i])| == 1 && segs[i] == Dropped(segs[i].b)
  {
    hide Decode;
    hide Consumed;
  }

  /** Segment `i` holds position `p` and delivers the decoding of its slice of the stream. */
  predicate DeliversAcross(segs: seq<Segment>, s: seq<byte>, p: nat, key: Option<Key>, i: nat) {
    && i < |segs| && segs[i].Delivered?
    && Offset(segs, i) <= p < Offset(segs, i + 1) <= |s|
    && Decode(s[Offset(segs, i)..Offset(segs, i + 1)], key) == Ok(segs[i].frame)
  }

  lemma HitIsDelivered(segs: seq<Segment>, tail: seq<byte>, p: nat, key: Option<Key>, i: nat)
    requires AllJustified(segs, tail, key) && FrameAt(Consumed(segs) + tail, p, key)
    requires i < |segs| && Offset(segs, i) <= p < Offset(segs, i + 1)
    ensures segs[i].Delivered?
  {
    JustifiedAt(segs, tail, i, key);
    hide *;
    SplitAt(segs, tail, i);
    if segs[i].Dropped? {
      var s := Consumed(segs) + tail;
      assert p == Offset(segs, i);
      DroppedAt(s, p, From(segs, tail, i), segs[i].b, key);
    }
  }

  lemma DroppedAt(s: seq<byte>, p: nat, rest: seq<byte>, b: byte, key: Option<Key>)
    requires p <= |s| && s[p..] == rest && Justified(Dropped(b), rest, key)
    ensures !FrameAt(s, p, key)
  {
    hide *;
    DroppedIsNoFrame(s, p, b, key);
  }

  lemma FrameIsDelivered(segs: seq<Segment>, tail: seq<byte>, p: nat, key: Option<Key>) returns (i: nat)
    requires AllJustified(segs, tail, key)
    requires p < |Consumed(segs)| && FrameAt(Consumed(segs) + tail, p, key)
    ensures DeliversAcross(segs, Consumed(segs) + tail, p, key, i)
  {
    assert segs[..|segs|] == segs;
    i := Locate(segs, p, |segs|);
    hide AllJustified;
    hide Consumed;
    hide FrameAt;
    hide Offset;
    hide Justified;
    hide From;
    hide Decode;
    HitIsDelivered(segs, tail, p, key, i);
    SplitAt(segs, tail, i);
    JustifiedAt(segs, tail, i, key);
  }

  /** Nothing is skipped: every decodable frame of at most 8216 bytes whose start the decoder
      has passed is itself delivered, or starts inside another delivered frame. */
  lemma NothingSkipped(chunks: seq<seq<byte>>, p: nat, key: Option<Key>)
    requires p < |Consumed(Run(chunks, key).segs)| && FrameAt(Flatten(chunks), p, key)
    ensures exists i: nat :: DeliversAcross(Run(chunks, key).segs, Flatten(chunks), p, key, i)
  {
    RunSettles(chunks, key);
    RunJustified(chunks, key);
    hide *;
    var o, s := Run(chunks, key), Flatten(chunks);
    var unfed := s[|Consumed(o.segs) + o.dec.buf|..];
    assert s == Consumed(o.segs) + o.dec.buf + unfed;
    AllExtend(o.segs, o.dec.buf, unfed, key);
    Assoc(Consumed(o.segs), o.dec.buf, unfed);
    var i := FrameIsDelivered(o.segs, o.dec.buf + unfed, p, key);
  }

  // ----- No wedge -----

  lemma ParkedFeed(d: Dec, data: seq<byte>, key: Option<Key>)
    requires Settled(d)
    requires FeedResult(d, data, key).segs == [] && FeedResult(d, data, key).error.None?
    ensures var e := FeedResult(d, data, key).dec;
      && e.buf == d.buf + data
      && (|d.buf| >= HEADER_LEN ==> e.waitStart == d.waitStart)
  {
    var e := d.(buf := d.buf + data);
    LoopFirst(e, key);
    LoopConserves(e, key);
    hide Loop;
    assert Loop(e, key).dec.buf == d.buf + data;
    ExtendSettled(d, data);
    hide TurnOf;
    if |d.buf| >= HEADER_LEN {
      ParkedTurn(e, key);
    }
  }

  /** A turn that neither consumes nor raises leaves an armed wait as it is. */
  lemma ParkedTurn(d: Dec, key: Option<Key>)
    requires WaitOk(d) && d.waitTotal.Some?
    requires TurnOf(d, key).Await?
    ensures TurnOf(d, key).dec.waitStart == d.waitStart
  {
    hide Decode;
    hide Get16;
  }

  /** `y` is `x` with more consumed, or else with just `fed` more bytes buffered behind an
      unchanged wait anchor. */
  predicate Continues(x: Outcome, y: Outcome, fed: seq<byte>) {
    && x.segs <= y.segs
    && (x.segs == y.segs ==> y.dec.buf == x.dec.buf + fed)
    && (x.segs == y.segs && |x.dec.buf| >= HEADER_LEN ==> y.dec.waitStart == x.dec.waitStart)
  }

  lemma FeedContinues(x: Outcome, m: Outcome, fed: seq<byte>, data: seq<byte>, key: Option<Key>)
    requires Continues(x, m, fed) && Settled(m.dec)
    requires FeedResult(m.dec, data, key).error.None?
    ensures Continues(x, Then(m.segs, FeedResult(m.dec, data, key)), fed + data)
  {
    hide FeedResult;
    hide Settled;
    var o := FeedResult(m.dec, data, key);
    if x.segs == m.segs + o.segs {
      assert |o.segs| == 0;
      ParkedFeed(m.dec, data, key);
    }
  }

  lemma {:induction false} RunContinues(a: seq<seq<byte>>, b: seq<seq<byte>>, key: Option<Key>)
    requires Run(a, key).error.None? && Run(a + b, key).error.None?
    ensures Continues(Run(a, key), Run(a + b, key), Flatten(b))
  {
    if b == [] {
      assert a + b == a;
    } else {
      hide *;
      var init, last := b[..|b| - 1], b[|b| - 1];
      assert init + [last] == b;
      Assoc(a, init, [last]);
      FlattenAppend(init, [last]);
      FlattenSingle(last);
      RunErrorStays(a + init, last, key);
      RunContinues(a, init, key);
      ExtendContinues(Run(a, key), a + init, last, Flatten(init), key);
    }
  }

  lemma ExtendContinues(x: Outcome, chunks: seq<seq<byte>>, data: seq<byte>, fed: seq<byte>, key: Option<Key>)
    requires Run(chunks, key).error.None? && Run(chunks + [data], key).error.None?
    requires Continues(x, Run(chunks, key), fed)
    ensures Continues(x, Run(chunks + [data], key), fed + data)
  {
    RunAppend(chunks, data, key);
    RunSettles(chunks, key);
    hide Run;
    hide FeedResult;
    hide Continues;
    FeedContinues(x, Run(chunks, key), fed, data, key);
  }

  lemma RunErrorStays(chunks: seq<seq<byte>>, data: seq<byte>, key: Option<Key>)
    ensures Run(chunks, key).error.Some? ==> Run(chunks + [data], key).error.Some?
  {
    assert (chunks + [data])[..|chunks|] == chunks;
  }

  /** From every state a run can reach, further feeds totalling 16384 bytes, or 8193 bytes once
      a header is buffered, deliver a frame, drop a byte or raise. */
  lemma NoWedge(a: seq<seq<byte>>, b: seq<seq<byte>>, key: Option<Key>)
    requires Run(a, key).error.None?
    requires |Flatten(b)| >= if |Run(a, key).dec.buf| >= 23 then 8193 else 16384
    ensures Run(a + b, key).error.Some? || Run(a, key).segs < Run(a + b, key).segs
  {
    if Run(a + b, key).error.None? {
      RunContinues(a, b, key);
      RunSettles(a, key);
      RunSettles(a + b, key);
    }
  }
}
