/** Whole byte streams through the decoder, whatever the chunking (spcedp/wire.py:315-397). */
module Streams {
  import opened Bytes
  import opened Cipher
  import opened Codec
  import opened Decoder

  /** The largest claim for which a wait can never outgrow the resync limit: a wait is armed
      with at least a header buffered, so it grows by at most claim - 1 - HEADER_LEN. */
  const CHUNK_SAFE_FRAME := RESYNC_LIMIT + HEADER_LEN + 1

  // ----- A pure scan of a whole stream, with no notion of waiting -----

  datatype Scanned = Scanned(segs: seq<Segment>, rest: seq<byte>, dropped: nat, error: Option<Error>)

  /** One move of the scan: stop, perhaps raising, or consume one segment. */
  datatype Head = Stop(out: Scanned) | Move(seg: Segment, rest: seq<byte>, dropped: nat)

  function SkipHead(s: seq<byte>, dropped: nat): Head
    requires s != []
  {
    if dropped + 1 > RESYNC_LIMIT then Stop(Scanned([Dropped(s[0])], s[1..], dropped + 1, Some(GaveUp)))
    else Move(Dropped(s[0]), s[1..], dropped + 1)
  }

  function ScanHead(s: seq<byte>, dropped: nat, key: Option<Key>): (h: Head)
    ensures h.Move? ==> |h.rest| < |s|
  {
    if |s| < HEADER_LEN then Stop(Scanned([], s, dropped, None))
    else if !LooksValid(s) then SkipHead(s, dropped)
    else if |s| < Claimed(s) then Stop(Scanned([], s, dropped, None))
    else
      var total := Claimed(s);
      match Decode(s[..total], key)
      case Ok(f) => Move(Delivered(s[..total], f), s[total..], 0)
      case Err(e) => if e.Recoverable() then SkipHead(s, dropped) else Stop(Scanned([], s, dropped, Some(e)))
  }

  function Onto(segs: seq<Segment>, r: Scanned): Scanned {
    r.(segs := segs + r.segs)
  }

  function Scan(s: seq<byte>, dropped: nat, key: Option<Key>): Scanned
    decreases |s|
  {
    match ScanHead(s, dropped, key)
    case Stop(out) => out
    case Move(seg, rest, next) => Onto([seg], Scan(rest, next, key))
  }

  /** No plausible header the scan comes to claims more than the chunk-safe size. */
  predicate Tame(s: seq<byte>, dropped: nat, key: Option<Key>)
    decreases |s|
  {
    && (|s| >= HEADER_LEN && LooksValid(s) ==> Claimed(s) <= CHUNK_SAFE_FRAME)
    && match ScanHead(s, dropped, key)
       case Stop(_) => true
       case Move(_, rest, next) => Tame(rest, next, key)
  }

  // ----- More input only continues a scan -----

  lemma HeadExtends(s: seq<byte>, more: seq<byte>, dropped: nat, key: Option<Key>)
    ensures match ScanHead(s, dropped, key)
      case Move(seg, rest, next) => ScanHead(s + more, dropped, key) == Move(seg, rest + more, next)
      case Stop(out) =>
        if out.error.Some?
        then ScanHead(s + more, dropped, key) == Stop(out.(rest := out.rest + more))
        else out == Scanned([], s, dropped, None)
    ensures |s| >= HEADER_LEN ==> LooksValid(s + more) == LooksValid(s) && Claimed(s + more) == Claimed(s)
  {
    hide Decode;
    if |s| >= HEADER_LEN {
      assert (s + more)[1..] == s[1..] + more;
      var total := Claimed(s);
      if total <= |s| {
        assert (s + more)[..total] == s[..total];
        assert (s + more)[total..] == s[total..] + more;
      }
    }
  }

  /** Scanning a longer stream raises where the prefix raises, and otherwise goes on from
      where the prefix left off. */
  lemma {:induction false} ScanExtends(s: seq<byte>, more: seq<byte>, dropped: nat, key: Option<Key>)
    ensures var r := Scan(s, dropped, key);
      Scan(s + more, dropped, key)
      == if r.error.Some? then r.(rest := r.rest + more)
         else Onto(r.segs, Scan(r.rest + more, r.dropped, key))
    decreases |s|
  {
    HeadExtends(s, more, dropped, key);
    hide ScanHead;
    match ScanHead(s, dropped, key)
    case Stop(out) =>
    case Move(seg, rest, next) =>
      ScanExtends(rest, more, next, key);
      var r := Scan(rest, next, key);
      assert [seg] + (r.segs + Scan(r.rest + more, r.dropped, key).segs)
          == [seg] + r.segs + Scan(r.rest + more, r.dropped, key).segs;
  }

  /** Prefixes of a tame stream are tame, and so is what the prefix scan leaves to do. */
  lemma {:induction false} TameExtends(s: seq<byte>, more: seq<byte>, dropped: nat, key: Option<Key>)
    requires Tame(s + more, dropped, key)
    ensures Tame(s, dropped, key)
    ensures var r := Scan(s, dropped, key);
      r.error.None? ==> Tame(r.rest + more, r.dropped, key)
    decreases |s|
  {
    HeadExtends(s, more, dropped, key);
    hide ScanHead;
    hide LooksValid;
    match ScanHead(s, dropped, key)
    case Stop(out) =>
    case Move(seg, rest, next) => TameExtends(rest, more, next, key);
  }

  // ----- On tame streams the decoder is the scan -----

  function Essence(o: Outcome): Scanned {
    Scanned(o.segs, o.dec.buf, o.dec.dropped, o.error)
  }

  lemma TurnIsHead(d: Dec, key: Option<Key>)
    requires WaitOk(d)
    requires |d.buf| >= HEADER_LEN && LooksValid(d.buf) ==> Claimed(d.buf) <= CHUNK_SAFE_FRAME
    ensures var t, h := TurnOf(d, key), ScanHead(d.buf, d.dropped, key);
      if t.Skip? || t.Accept?
      then TurnSegments(t) == [h.seg] && h == Move(h.seg, t.dec.buf, t.dec.dropped) && WaitOk(t.dec)
      else h == Stop(Scanned(TurnSegments(t), t.dec.buf, t.dec.dropped, TurnError(t)))
  {
    hide Decode;
    hide Get16;
  }

  lemma {:induction false} LoopIsScan(d: Dec, key: Option<Key>)
    requires WaitOk(d) && Tame(d.buf, d.dropped, key)
    ensures Essence(Loop(d, key)) == Scan(d.buf, d.dropped, key)
    decreases |d.buf|
  {
    TurnIsHead(d, key);
    LoopFirst(d, key);
    hide TurnOf;
    hide ScanHead;
    hide Loop;
    hide WaitOk;
    hide LooksValid;
    var t := TurnOf(d, key);
    if t.Skip? || t.Accept? {
      LoopIsScan(t.dec, key);
    }
  }

  /** The outcome of a run over a tame stream is that of one scan of all its bytes. */
  lemma {:induction false} RunIsScan(chunks: seq<seq<byte>>, key: Option<Key>)
    requires Tame(Flatten(chunks), 0, key)
    ensures var o, r := Run(chunks, key), Scan(Flatten(chunks), 0, key);
      && o.error == r.error && o.segs == r.segs
      && (o.error.None? ==> o.dec.buf == r.rest && o.dec.dropped == r.dropped)
  {
    if chunks != [] {
      var init, last := chunks[..|chunks| - 1], chunks[|chunks| - 1];
      assert chunks == init + [last];
      FlattenAppend(init, [last]);
      FlattenSingle(last);
      TameExtends(Flatten(init), last, 0, key);
      RunIsScan(init, key);
      ScanExtends(Flatten(init), last, 0, key);
      RunAppend(init, last, key);
      hide Scan;
      hide Loop;
      hide Tame;
      var before := Run(init, key);
      if before.error.None? {
        RunSettles(init, key);
        ExtendSettled(before.dec, last);
        LoopIsScan(before.dec.(buf := before.dec.buf + last), key);
      }
    }
  }

  /** Two runs end alike: both raise the same error, or both deliver the same frames and
      leave the same buffer and drop count. */
  predicate EndAlike(a: Outcome, b: Outcome) {
    && a.error == b.error
    && (a.error.None? ==>
          Frames(a.segs) == Frames(b.segs) && a.dec.buf == b.dec.buf && a.dec.dropped == b.dec.dropped)
  }

  /** Chunk independence for every stream whose scan meets no oversize claim. */
  lemma ChunkIndependence(chunks: seq<seq<byte>>, key: Option<Key>)
    requires Tame(Flatten(chunks), 0, key)
    ensures EndAlike(Run(chunks, key), Run([Flatten(chunks)], key))
  {
    FlattenSingle(Flatten(chunks));
    RunIsScan(chunks, key);
    RunIsScan([Flatten(chunks)], key);
  }

  // ----- The exact bound for chunk independence -----

  /** Every plausible-looking header anywhere in the stream claims at most `bound` bytes. */
  ghost predicate ClaimsAtMost(s: seq<byte>, bound: nat) {
    forall p :: 0 <= p && p + 4 <= |s| && LooksValid(s[p..]) ==> Claimed(s[p..]) <= bound
  }

  ghost predicate ChunkIndependentUpTo(bound: nat, key: Option<Key>) {
    forall chunks: seq<seq<byte>> :: ClaimsAtMost(Flatten(chunks), bound) ==>
      EndAlike(Run(chunks, key), Run([Flatten(chunks)], key))
  }

  lemma {:induction false} SmallClaimsAreTame(s: seq<byte>, dropped: nat, key: Option<Key>)
    requires ClaimsAtMost(s, CHUNK_SAFE_FRAME)
    ensures Tame(s, dropped, key)
    decreases |s|
  {
    if |s| >= HEADER_LEN {
      assert s[0..] == s;
    }
    match ScanHead(s, dropped, key)
    case Stop(_) =>
    case Move(seg, rest, next) =>
      var n := HeadConsumes(s, dropped, key);
      forall p | 0 <= p && p + 4 <= |rest| && LooksValid(rest[p..])
        ensures Claimed(rest[p..]) <= CHUNK_SAFE_FRAME
      {
        assert rest[p..] == s[n + p..];
      }
      SmallClaimsAreTame(rest, next, key);
  }

  lemma HeadConsumes(s: seq<byte>, dropped: nat, key: Option<Key>) returns (n: nat)
    requires ScanHead(s, dropped, key).Move?
    ensures n == |SegmentBytes(ScanHead(s, dropped, key).seg)| <= |s|
    ensures ScanHead(s, dropped, key).rest == s[n..]
  {
    n := |SegmentBytes(ScanHead(s, dropped, key).seg)|;
  }

  /** A lone header claiming `total` bytes, the rest of it zero. */
  function PhantomHeader(total: nat): (h: seq<byte>)
    requires HEADER_LEN <= total <= MAX_PLAUSIBLE_FRAME
    ensures |h| == HEADER_LEN
  {
    Le16(total - 2) + [PROTOCOL_BYTE, PROTOCOL_VERSION] + Zeros(HEADER_LEN - 4)
  }

  lemma PhantomClaims(total: nat, n: nat)
    requires HEADER_LEN <= total <= MAX_PLAUSIBLE_FRAME
    ensures var w := PhantomHeader(total) + Zeros(n);
      LooksValid(w) && Claimed(w) == total && ClaimsAtMost(w, total)
  {
    var w := PhantomHeader(total) + Zeros(n);
    assert w[0] == Le16(total - 2)[0] && w[1] == Le16(total - 2)[1];
    forall p | 0 <= p && p + 4 <= |w| && LooksValid(w[p..]) ensures Claimed(w[p..]) <= total {
      assert w[p + 2] == PROTOCOL_BYTE && w[p + 3] == PROTOCOL_VERSION;
      assert p == 0;
      assert w[0..] == w;
    }
  }

  /** A whole header with an incomplete claim, fed to a fresh decoder in one piece, parks. */
  lemma FirstFeedParks(w: seq<byte>, key: Option<Key>)
    requires HEADER_LEN <= |w| && LooksValid(w) && |w| < Claimed(w)
    ensures Run([w], key) == Outcome([], Dec(w, 0, Some(Claimed(w)), |w|), None)
  {
    assert [w][..0] == [];
    assert [] + w == w;
    LoopFirst(Dec(w, 0, None, 0), key);
    hide Loop;
    hide Decode;
    RunAppend([], w, key);
    assert [] + [w] == [w];
  }

  /** One byte above the bound, splitting after the header drops bytes that the whole stream,
      fed at once, still waits on. */
  lemma OversizeClaimSplits(key: Option<Key>)
    ensures var total := CHUNK_SAFE_FRAME + 1;
      var chunks := [PhantomHeader(total), Zeros(total - 1 - HEADER_LEN)];
      && ClaimsAtMost(Flatten(chunks), total)
      && !EndAlike(Run(chunks, key), Run([Flatten(chunks)], key))
  {
    var total := CHUNK_SAFE_FRAME + 1;
    var h, z := PhantomHeader(total), Zeros(total - 1 - HEADER_LEN);
    var w := h + z;
    PhantomClaims(total, 0);
    PhantomClaims(total, |z|);
    assert h + Zeros(0) == h;
    assert Flatten([h, z]) == w by {
      assert [h, z][1..] == [z];
      FlattenSingle(z);
    }
    hide PhantomHeader;
    hide ClaimsAtMost;
    hide Loop;
    FirstFeedParks(h, key);
    FirstFeedParks(w, key);
    assert [h] + [z] == [h, z];
    RunAppend([h], z, key);
    var d := Dec(w, 0, Some(total), HEADER_LEN);
    LoopFirst(d, key);
    LoopConserves(d, key);
    LoopConserves(Dec(w[1..], 1, None, 0), key);
  }

  lemma ChunkIndependenceBound(bound: nat, key: Option<Key>)
    ensures ChunkIndependentUpTo(bound, key) <==> bound <= 8216
  {
    if bound <= CHUNK_SAFE_FRAME {
      forall chunks: seq<seq<byte>> | ClaimsAtMost(Flatten(chunks), bound)
        ensures EndAlike(Run(chunks, key), Run([Flatten(chunks)], key))
      {
        SmallClaimsAreTame(Flatten(chunks), 0, key);
        ChunkIndependence(chunks, key);
      }
    } else {
      OversizeClaimSplits(key);
    }
  }
}
