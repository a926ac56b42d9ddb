/** One connection end to end: bytes in, frames dispatched, acknowledgement bytes out
    (spcedp/client.py:470-538 over spcedp/wire.py:315-375). */
module Connection {
  import opened Bytes
  import opened Checksum
  import opened Cipher
  import opened Codec
  import opened Decoder
  import opened Coverage
  import opened SessionModel
  import opened SessionObject

  // ----- Frames from the decoder are fit for the session -----

  lemma DecodedFits(wire: seq<byte>, f: Frame, key: Option<Key>)
    requires |wire| >= HEADER_LEN && LooksValid(wire) && Claimed(wire) == |wire|
    requires Decode(wire, key) == Ok(f)
    ensures FromDecoder(f)
  {
    hide Register;
    hide Ecb;
    hide Get16;
  }

  lemma {:induction false} SegmentFramesFit(segs: seq<Segment>, tail: seq<byte>, key: Option<Key>)
    requires AllJustified(segs, tail, key)
    ensures forall f :: f in Frames(segs) ==> FromDecoder(f)
  {
    if segs != [] {
      var rest := segs[1..];
      assert AllJustified(rest, tail, key) by {
        hide Justified;
        forall i | 0 <= i < |rest| ensures Justified(rest[i], From(rest, tail, i), key) {
          assert rest[i] == segs[i + 1] && rest[i..] == segs[i + 1..];
        }
      }
      SegmentFramesFit(rest, tail, key);
      assert segs[0..] == segs;
      assert Justified(segs[0], From(segs, tail, 0), key);
      hide AllJustified;
      hide From;
      hide Decode;
      hide FromDecoder;
      if segs[0].Delivered? {
        DecodedFits(segs[0].wire, segs[0].frame, key);
      }
    }
  }

  lemma FeedFramesFit(d: Dec, data: seq<byte>, key: Option<Key>)
    requires WaitOk(d)
    ensures forall f :: f in Frames(FeedResult(d, data, key).segs) ==> FromDecoder(f)
  {
    ExtendSettled(d, data);
    LoopJustified(d.(buf := d.buf + data), key);
    hide Loop;
    SegmentFramesFit(FeedResult(d, data, key).segs, FeedResult(d, data, key).dec.buf, key);
  }

  // ----- The frame loop -----

  predicate AllFit(frames: seq<Frame>) {
    forall i :: 0 <= i < |frames| ==> FromDecoder(frames[i])
  }

  /** Delivering frame after frame. */
  function DeliverAll(env: Env, s: State, frames: seq<Frame>): State
    requires AllFit(frames)
  {
    if frames == [] then s
    else Deliver(env, DeliverAll(env, s, frames[..|frames| - 1]), frames[|frames| - 1])
  }

  /** One turn of the read loop of `_handle` on a chunk read from the socket: false where the
      source breaks out of the loop, discarding the frames of the chunk. */
  method HandleChunk(decoder: FrameDecoder, session: Session, chunk: seq<byte>) returns (goOn: bool)
    requires decoder.Valid() && session.Valid()
    modifies decoder, session
    ensures decoder.Valid() && session.Valid()
    ensures var o := FeedResult(old(decoder.State()), chunk, decoder.key);
      && decoder.State() == o.dec && decoder.chunks == old(decoder.chunks) + [chunk]
      && decoder.log == old(decoder.log) + o.segs
      && (goOn <==> o.error.None?)
      && AllFit(Frames(o.segs))
      && session.State() == if goOn then DeliverAll(session.env, old(session.State()), Frames(o.segs))
                            else old(session.State())
  {
    hide Loop;
    FeedFramesFit(decoder.State(), chunk, decoder.key);
    var result := decoder.Feed(chunk);
    if result.Err? {
      return false;
    }
    DispatchFrames(session, result.value);
    return true;
  }

  method DispatchFrames(session: Session, frames: seq<Frame>)
    requires session.Valid() && AllFit(frames)
    modifies session
    ensures session.Valid() && session.State() == DeliverAll(session.env, old(session.State()), frames)
  {
    hide Deliver;
    hide Inv;
    hide FromDecoder;
    for i := 0 to |frames|
      invariant session.Valid()
      invariant session.State() == DeliverAll(session.env, old(session.State()), frames[..i])
    {
      DispatchOne(session, frames[i]);
      assert frames[..i + 1][..i] == frames[..i];
    }
    assert frames[..|frames|] == frames;
  }

  method DispatchOne(session: Session, frame: Frame)
    requires session.Valid() && FromDecoder(frame)
    modifies session
    ensures session.Valid() && session.State() == Deliver(session.env, old(session.State()), frame)
  {
    ReceiveIsDeliver(session.env, session.State(), frame);
    hide SessionModel.Next;
    hide SessionModel.Enabled;
    hide Deliver;
    hide Inv;
    session.Receive(frame);
    session.StepKeepsValid(SessionModel.Receive(frame));
  }

  lemma ReceiveIsDeliver(env: Env, s: State, f: Frame)
    requires FromDecoder(f)
    ensures SessionModel.Enabled(s, SessionModel.Receive(f))
    ensures SessionModel.Next(env, s, SessionModel.Receive(f)) == Deliver(env, s, f)
  {
    hide Deliver;
  }
}
