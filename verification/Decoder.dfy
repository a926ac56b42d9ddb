/** The stream decoder (spcedp/wire.py:16-24, 293-397): its loop as functions on the decoder
    state, and the mutable FrameDecoder proved against them. */
module Decoder {
  import opened Bytes
  import opened Cipher
  import opened Codec

  const MAX_PLAUSIBLE_FRAME := 16384
  const RESYNC_LIMIT := 8192

  /** The fields of a FrameDecoder. */
  datatype Dec = Dec(buf: seq<byte>, dropped: nat, waitTotal: Option<nat>, waitStart: nat)

  const FRESH := Dec([], 0, None, 0)

  /** What became of a stretch of input: one byte dropped by a resync, or one whole frame. */
  datatype Segment = Dropped(b: byte) | Delivered(wire: seq<byte>, frame: Frame)

  /** The segments consumed, the state left behind, and the exception raised, if any. */
  datatype Outcome = Outcome(segs: seq<Segment>, dec: Dec, error: Option<Error>)

  function SegmentBytes(s: Segment): seq<byte> {
    match s
    case Dropped(b) => [b]
    case Delivered(wire, _) => wire
  }

  function Consumed(segs: seq<Segment>): seq<byte> {
    if segs == [] then [] else SegmentBytes(segs[0]) + Consumed(segs[1..])
  }

  function Frames(segs: seq<Segment>): seq<Frame> {
    if segs == [] then []
    else (if segs[0].Delivered? then [segs[0].frame] else []) + Frames(segs[1..])
  }

  lemma SegmentsAppend(a: seq<Segment>, b: seq<Segment>)
    ensures Consumed(a + b) == Consumed(a) + Consumed(b)
    ensures Frames(a + b) == Frames(a) + Frames(b)
  {
    if a == [] {
      assert a + b == b;
    } else {
      assert (a + b)[0] == a[0] && (a + b)[1..] == a[1..] + b;
      SegmentsAppend(a[1..], b);
      hide SegmentBytes;
      Assoc(SegmentBytes(a[0]), Consumed(a[1..]), Consumed(b));
      Assoc(if a[0].Delivered? then [a[0].frame] else [], Frames(a[1..]), Frames(b));
    }
  }

  predicate LooksValid(buf: seq<byte>)
    requires |buf| >= 4
  {
    && HEADER_LEN <= Claimed(buf) <= MAX_PLAUSIBLE_FRAME
    && Get16(buf, 0) <= MAX_FRAME_LEN
    && buf[2] == PROTOCOL_BYTE
    && buf[3] == PROTOCOL_VERSION
  }

  // ----- One turn of the loop -----

  /** The five ways a turn ends; resync and bounded-wait resync both are `Skip`. */
  datatype Turn =
    | Await(dec: Dec)
    | Skip(b: byte, dec: Dec)
    | Accept(wire: seq<byte>, frame: Frame, dec: Dec)
    | GiveUp(b: byte, dec: Dec)
    | Refuse(error: Error, dec: Dec)

  function Resynced(d: Dec): Turn
    requires d.buf != []
  {
    var next := Dec(d.buf[1..], d.dropped + 1, None, 0);
    if next.dropped > RESYNC_LIMIT then GiveUp(d.buf[0], next) else Skip(d.buf[0], next)
  }

  /** The wait anchor once the header at the front is known to be incomplete. */
  function Anchored(d: Dec): Dec
    requires |d.buf| >= 2
  {
    if d.waitTotal == Some(Claimed(d.buf)) then d
    else d.(waitTotal := Some(Claimed(d.buf)), waitStart := |d.buf|)
  }

  function TurnOf(d: Dec, key: Option<Key>): Turn {
    if |d.buf| < HEADER_LEN then Await(d)
    else if !LooksValid(d.buf) then Resynced(d)
    else if |d.buf| < Claimed(d.buf) then
      var a := Anchored(d);
      if |d.buf| - a.waitStart > RESYNC_LIMIT then Resynced(d) else Await(a)
    else
      var total := Claimed(d.buf);
      match Decode(d.buf[..total], key)
      case Ok(f) => Accept(d.buf[..total], f, Dec(d.buf[total..], 0, None, 0))
      case Err(e) =>
        if e.Recoverable() then Resynced(d) else Refuse(e, d.(waitTotal := None, waitStart := 0))
  }

  /** `o` as the continuation of a run that had consumed `segs` before. */
  function Then(segs: seq<Segment>, o: Outcome): Outcome {
    o.(segs := segs + o.segs)
  }

  /** The whole `while True` loop. */
  function Loop(d: Dec, key: Option<Key>): Outcome
    decreases |d.buf|
  {
    match TurnOf(d, key)
    case Await(next) => Outcome([], next, None)
    case Skip(b, next) => Then([Dropped(b)], Loop(next, key))
    case Accept(wire, f, next) => Then([Delivered(wire, f)], Loop(next, key))
    case GiveUp(b, next) => Outcome([Dropped(b)], next, Some(GaveUp))
    case Refuse(e, next) => Outcome([], next, Some(e))
  }

  /** What `feed` hands its caller: a raise discards the frames of the same call. */
  function Reported(o: Outcome): Result<seq<Frame>> {
    if o.error.Some? then Err(o.error.value) else Ok(Frames(o.segs))
  }

  function FeedResult(d: Dec, data: seq<byte>, key: Option<Key>): Outcome {
    Loop(d.(buf := d.buf + data), key)
  }

  /** A fresh decoder fed chunk after chunk, up to the first exception. */
  function Run(chunks: seq<seq<byte>>, key: Option<Key>): Outcome {
    if chunks == [] then Outcome([], FRESH, None)
    else
      var before := Run(chunks[..|chunks| - 1], key);
      if before.error.Some? then before
      else
        Then(before.segs, FeedResult(before.dec, chunks[|chunks| - 1], key))
  }

  // ----- What every state between feeds keeps -----

  /** An armed wait is for the incomplete header at the front, was armed with a whole header
      buffered, and has grown by at most the resync limit. */
  predicate WaitOk(d: Dec) {
    d.waitTotal.Some? ==>
      && HEADER_LEN <= d.waitStart <= |d.buf|
      && LooksValid(d.buf) && d.waitTotal.value == Claimed(d.buf)
  }

  predicate Settled(d: Dec) {
    && WaitOk(d)
    && |d.buf| < MAX_PLAUSIBLE_FRAME
    && d.dropped <= RESYNC_LIMIT
    && (|d.buf| >= HEADER_LEN ==>
          d.waitTotal.Some? && |d.buf| < Claimed(d.buf) && |d.buf| - d.waitStart <= RESYNC_LIMIT)
    && (|d.buf| < HEADER_LEN ==> d.waitTotal.None?)
  }

  /** The segment one turn consumes, if any. */
  function TurnSegments(t: Turn): seq<Segment> {
    match t
    case Skip(b, _) => [Dropped(b)]
    case GiveUp(b, _) => [Dropped(b)]
    case Accept(wire, f, _) => [Delivered(wire, f)]
    case _ => []
  }

  function TurnError(t: Turn): Option<Error> {
    if t.GiveUp? then Some(GaveUp) else if t.Refuse? then Some(t.error) else None
  }

  /** The loop is its first turn, and the rest of the loop when that turn continues. */
  lemma LoopFirst(d: Dec, key: Option<Key>)
    ensures var t := TurnOf(d, key);
      Loop(d, key)
      == if t.Skip? || t.Accept? then Then(TurnSegments(t), Loop(t.dec, key))
         else Outcome(TurnSegments(t), t.dec, TurnError(t))
  {
    hide TurnOf;
  }

  lemma ThenNothing(o: Outcome)
    ensures Then([], o) == o
  {
    assert [] + o.segs == o.segs;
  }

  lemma ThenThen(a: seq<Segment>, b: seq<Segment>, o: Outcome)
    ensures Then(a, Then(b, o)) == Then(a + b, o)
  {
    assert a + (b + o.segs) == a + b + o.segs;
  }

  lemma OneSegment(s: Segment)
    ensures Consumed([s]) == SegmentBytes(s)
    ensures Frames([s]) == if s.Delivered? then [s.frame] else []
  {
    assert [s][1..] == [];
  }

  lemma TurnConserves(d: Dec, key: Option<Key>)
    ensures var t := TurnOf(d, key);
      && Consumed(TurnSegments(t)) + t.dec.buf == d.buf
      && (t.Skip? || t.Accept? ==> |t.dec.buf| < |d.buf|)
  {
    hide Decode;
    hide Get16;
    var t := TurnOf(d, key);
    match t
    case Await(_) => hide Consumed;
    case Accept(wire, f, _) => OneSegment(Delivered(wire, f));
    case Skip(b, _) => OneSegment(Dropped(b));
    case GiveUp(b, _) => OneSegment(Dropped(b));
    case Refuse(_, _) => hide Consumed;
  }

  lemma TurnSettles(d: Dec, key: Option<Key>)
    requires WaitOk(d) && d.dropped <= RESYNC_LIMIT
    ensures var t := TurnOf(d, key);
      && WaitOk(t.dec)
      && (t.Await? ==> Settled(t.dec))
      && (t.Skip? || t.Accept? ==> t.dec.dropped <= RESYNC_LIMIT)
  {
    hide Decode;
    hide Get16;
  }

  /** No byte is lost or invented: the loop's segments and its final buffer spell its input. */
  lemma {:induction false} LoopConserves(d: Dec, key: Option<Key>)
    ensures Consumed(Loop(d, key).segs) + Loop(d, key).dec.buf == d.buf
    decreases |d.buf|
  {
    TurnConserves(d, key);
    LoopFirst(d, key);
    hide TurnOf;
    hide Loop;
    hide TurnSegments;
    hide Consumed;
    var t := TurnOf(d, key);
    if t.Skip? || t.Accept? {
      LoopConserves(t.dec, key);
      var rest := Loop(t.dec, key);
      SegmentsAppend(TurnSegments(t), rest.segs);
      assert Consumed(TurnSegments(t)) + (Consumed(rest.segs) + rest.dec.buf)
          == Consumed(TurnSegments(t)) + Consumed(rest.segs) + rest.dec.buf;
    }
  }

  lemma {:induction false} LoopSettles(d: Dec, key: Option<Key>)
    requires WaitOk(d) && d.dropped <= RESYNC_LIMIT
    ensures WaitOk(Loop(d, key).dec)
    ensures Loop(d, key).error.None? ==> Settled(Loop(d, key).dec)
    decreases |d.buf|
  {
    TurnConserves(d, key);
    TurnSettles(d, key);
    LoopFirst(d, key);
    hide TurnOf;
    hide Loop;
    hide WaitOk;
    hide Settled;
    var t := TurnOf(d, key);
    if t.Skip? || t.Accept? {
      LoopSettles(t.dec, key);
    }
  }

  /** After every run of feeds the bytes fed are exactly the consumed segments, then the
      buffer, then (only after a raise) the chunks never fed; and a run that did not raise
      leaves a bounded state. */
  lemma {:induction false} RunSettles(chunks: seq<seq<byte>>, key: Option<Key>)
    ensures var o := Run(chunks, key);
      && WaitOk(o.dec)
      && Consumed(o.segs) + o.dec.buf <= Flatten(chunks)
      && (o.error.None? ==> Settled(o.dec) && Consumed(o.segs) + o.dec.buf == Flatten(chunks))
  {
    hide Loop;
    if chunks != [] {
      var init, last := chunks[..|chunks| - 1], chunks[|chunks| - 1];
      assert chunks == init + [last];
      FlattenAppend(init, [last]);
      FlattenSingle(last);
      RunSettles(init, key);
      var before := Run(init, key);
      if before.error.None? {
        ExtendSettled(before.dec, last);
        LoopSettles(before.dec.(buf := before.dec.buf + last), key);
        LoopConserves(before.dec.(buf := before.dec.buf + last), key);
        var o := FeedResult(before.dec, last, key);
        SegmentsAppend(before.segs, o.segs);
        hide Consumed;
        hide Settled;
        hide WaitOk;
        hide Run;
        Assoc(Consumed(before.segs), before.dec.buf, last);
        Assoc(Consumed(before.segs), Consumed(o.segs), o.dec.buf);
      }
    }
  }

  lemma ExtendSettled(d: Dec, data: seq<byte>)
    requires WaitOk(d)
    ensures WaitOk(d.(buf := d.buf + data))
  {
  }

  // ----- The decoder object -----

  class FrameDecoder {
    var buf: seq<byte>
    const key: Option<Key>
    var dropped: nat
    var waitTotal: Option<nat>
    var waitStartLen: nat
    /** Every chunk ever fed, every segment ever consumed, and whether a feed has raised. */
    ghost var chunks: seq<seq<byte>>
    ghost var log: seq<Segment>
    ghost var raised: bool

    ghost function State(): Dec
      reads this
    {
      Dec(buf, dropped, waitTotal, waitStartLen)
    }

    ghost predicate Valid()
      reads this
    {
      && WaitOk(State())
      && (!raised ==> Run(chunks, key) == Outcome(log, State(), None))
    }

    constructor (key: Option<Key>)
      ensures Valid() && !raised && this.key == key && chunks == [] && State() == FRESH
    {
      this.key := key;
      buf, dropped, waitTotal, waitStartLen := [], 0, None, 0;
      chunks, log, raised := [], [], false;
    }

    method ResetWait()
      modifies this`waitTotal, this`waitStartLen
      ensures waitTotal == None && waitStartLen == 0
    {
      waitTotal, waitStartLen := None, 0;
    }

    /** Drops one byte; `ok` is false where the source raises because the budget is spent. */
    method Resync() returns (ok: bool)
      requires buf != []
      modifies this`buf, this`dropped
      ensures buf == old(buf)[1..] && dropped == old(dropped) + 1
      ensures ok <==> dropped <= RESYNC_LIMIT
    {
      buf := buf[1..];
      dropped := dropped + 1;
      ok := dropped <= RESYNC_LIMIT;
    }

    /** The body of the source's loop: one turn, and what the loop does next. */
    method Advance() returns (s: Signal)
      modifies this`buf, this`dropped, this`waitTotal, this`waitStartLen
      ensures State() == TurnOf(old(State()), key).dec
      ensures s == SignalOf(TurnOf(old(State()), key))
    {
      hide Decode;
      if |buf| < HEADER_LEN {
        return Return;
      }
      var total := Claimed(buf);
      if !LooksValid(buf) {
        ResetWait();
        var ok := Resync();
        return if ok then Continue else Raise(GaveUp);
      }
      if |buf| < total {
        if waitTotal != Some(total) {
          waitTotal, waitStartLen := Some(total), |buf|;
        }
        if |buf| - waitStartLen > RESYNC_LIMIT {
          ResetWait();
          var ok := Resync();
          return if ok then Continue else Raise(GaveUp);
        }
        return Return;
      }
      ResetWait();
      var decoded := Decode(buf[..total], key);
      if decoded.Ok? {
        buf := buf[total..];
        dropped := 0;
        return Append(decoded.value);
      } else if decoded.error.Recoverable() {
        var ok := Resync();
        return if ok then Continue else Raise(GaveUp);
      }
      return Raise(decoded.error);
    }

    method Feed(data: seq<byte>) returns (r: Result<seq<Frame>>)
      requires Valid()
      modifies this
      ensures Valid()
      ensures var o := FeedResult(old(State()), data, key);
        && State() == o.dec && log == old(log) + o.segs
        && r == Reported(o)
        && raised == (old(raised) || o.error.Some?)
      ensures chunks == old(chunks) + [data]
    {
      ghost var goal := FeedResult(State(), data, key);
      ghost var segs: seq<Segment> := [];
      buf := buf + data;
      var out: seq<Frame> := [];
      var going := true;
      r := Ok([]);
      ThenNothing(goal);
      while going
        invariant going ==> goal == Then(segs, Loop(State(), key)) && out == Frames(segs)
        invariant !going ==> State() == goal.dec && r == Reported(goal)
        invariant raised == old(raised) && log == old(log) && chunks == old(chunks)
        decreases going, |buf|
      {
        hide Frames;
        hide Loop;
        hide Decode;
        ghost var t := TurnOf(State(), key);
        LoopFirst(State(), key);
        ThenThen(segs, TurnSegments(t), Loop(t.dec, key));
        SegmentsAppend(segs, TurnSegments(t));
        TurnFrames(State(), key);
        var s := Advance();
        hide TurnOf;
        segs := segs + TurnSegments(t);
        assert Frames(segs) == if t.Accept? then out + [t.frame] else out;
        match s
        case Continue =>
        case Append(f) => out := out + [f];
        case Return => going, r := false, Ok(out);
        case Raise(e) => going, r := false, Err(e);
      }
      RunAppend(chunks, data, key);
      chunks, log, raised := chunks + [data], log + goal.segs, raised || goal.error.Some?;
      FeedKeepsWait(old(State()), data, key);
    }
  }

  datatype Signal = Continue | Append(frame: Frame) | Return | Raise(error: Error)

  function SignalOf(t: Turn): Signal {
    match t
    case Await(_) => Return
    case Skip(_, _) => Continue
    case Accept(_, f, _) => Append(f)
    case GiveUp(_, _) => Raise(GaveUp)
    case Refuse(e, _) => Raise(e)
  }

  lemma TurnFrames(d: Dec, key: Option<Key>)
    ensures var t := TurnOf(d, key);
      && Frames(TurnSegments(t)) == (if t.Accept? then [t.frame] else [])
      && (t.Skip? || t.Accept? ==> |t.dec.buf| < |d.buf|)
  {
    TurnConserves(d, key);
    hide TurnOf;
    var t := TurnOf(d, key);
    if TurnSegments(t) != [] {
      OneSegment(TurnSegments(t)[0]);
    }
  }

  lemma RunAppend(chunks: seq<seq<byte>>, data: seq<byte>, key: Option<Key>)
    ensures var before := Run(chunks, key);
      before.error.None? ==>
        Run(chunks + [data], key) == Then(before.segs, FeedResult(before.dec, data, key))
  {
    assert (chunks + [data])[..|chunks|] == chunks;
  }

  lemma FeedKeepsWait(d: Dec, data: seq<byte>, key: Option<Key>)
    requires WaitOk(d)
    ensures WaitOk(FeedResult(d, data, key).dec)
  {
    ExtendSettled(d, data);
    LoopKeepsWait(d.(buf := d.buf + data), key);
  }

  lemma TurnKeepsWait(d: Dec, key: Option<Key>)
    requires WaitOk(d)
    ensures WaitOk(TurnOf(d, key).dec)
  {
    hide Decode;
    hide Get16;
  }

  lemma {:induction false} LoopKeepsWait(d: Dec, key: Option<Key>)
    requires WaitOk(d)
    ensures WaitOk(Loop(d, key).dec)
    decreases |d.buf|
  {
    TurnConserves(d, key);
    LoopFirst(d, key);
    TurnKeepsWait(d, key);
    var t := TurnOf(d, key);
    hide TurnOf;
    hide WaitOk;
    hide Loop;
    if t.Skip? || t.Accept? {
      LoopKeepsWait(t.dec, key);
    }
  }
}
