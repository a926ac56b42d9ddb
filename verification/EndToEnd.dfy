/** The acknowledgement stream of a connection as a function of its input stream, over every
    chunking and every interleaving (spcedp/client.py:488-534, 619-651). */
module EndToEnd {
  import opened Bytes
  import opened Cipher
  import opened Codec
  import opened Decoder
  import opened Streams
  import opened WriteQueue
  import opened Requests
  import opened SessionModel
  import opened SessionLaws
  import opened Connection

  /** A connection: the chunks read so far, the session, and the frames of the last chunk
      still to be dispatched. The decoder's state is that of a run over the chunks. */
  datatype Conn = Conn(chunks: seq<seq<byte>>, session: State, inbox: seq<Frame>)

  const FIRST := Conn([], START, [])

  /** The read loop reads a chunk or dispatches a frame; anything else is a step of the
      session. The source dispatches the frames of a chunk without a pause; allowing steps in
      between only adds behaviours. */
  datatype Move = Read(chunk: seq<byte>) | DispatchNext | Other(action: Action)

  predicate CanMove(env: Env, c: Conn, m: Move) {
    match m
    case Read(_) => c.inbox == [] && Run(c.chunks, env.key).error.None?
    case DispatchNext => c.inbox != [] && FromDecoder(c.inbox[0])
    case Other(a) => !a.Receive? && SessionModel.Enabled(c.session, a)
  }

  function Moved(env: Env, c: Conn, m: Move): Conn
    requires CanMove(env, c, m)
  {
    match m
    case Read(chunk) =>
      var o := FeedResult(Run(c.chunks, env.key).dec, chunk, env.key);
      c.(chunks := c.chunks + [chunk], inbox := if o.error.Some? then [] else Frames(o.segs))
    case DispatchNext => c.(session := Deliver(env, c.session, c.inbox[0]), inbox := c.inbox[1..])
    case Other(a) => c.(session := SessionModel.Next(env, c.session, a))
  }

  predicate Moves(env: Env, c: Conn, ms: seq<Move>)
    decreases |ms|
  {
    ms == [] || (CanMove(env, c, ms[0]) && Moves(env, Moved(env, c, ms[0]), ms[1..]))
  }

  function MovedAll(env: Env, c: Conn, ms: seq<Move>): Conn
    requires Moves(env, c, ms)
    decreases |ms|
  {
    if ms == [] then c else MovedAll(env, Moved(env, c, ms[0]), ms[1..])
  }

  // ----- Posted wires are encodings -----

  /** Every posted entry holds the encoding of its frame. */
  predicate Faithful(env: Env, o: Outbox) {
    forall i :: 0 <= i < |o.posted| ==> Encodes(env, o.posted[i].frame, o.posted[i].wire)
  }

  lemma PostFaithful(env: Env, o: Outbox, frame: Frame, command: bool, at: int, after: nat)
    requires Faithful(env, o) && Encode(frame, env.key).Ok?
    ensures Faithful(env, Post(o, frame, Encode(frame, env.key).value.wire, command, at, after))
  {
    hide Encode;
  }

  lemma DeliverFaithful(env: Env, s: State, f: Frame)
    requires UsableKey(env.key) && FromDecoder(f) && Faithful(env, s.out)
    ensures Faithful(env, Deliver(env, s, f).out)
  {
    var b := Greeted(s, f);
    DispatchPosts(env, b, f);
    hide Dispatch;
    hide Encode;
    hide EventIn;
    hide EventStream.Next;
    if WantsAck(f) {
      hide Faithful;
      PostFaithful(env, b.out, AckOf(env, b.panelId, f), false, b.now, |b.received| + 1);
    }
  }

  lemma ActionFaithful(env: Env, s: State, a: Action)
    requires Faithful(env, s.out) && !a.Receive? && SessionModel.Enabled(s, a)
    ensures Faithful(env, SessionModel.Next(env, s, a).out)
  {
    hide Encode;
    if a.QuietOver? && !s.out.closed {
      var frame := CommandFrame(env, s);
      if Encode(frame, env.key).Ok? {
        PostFaithful(env, s.out, frame, true, s.now, |s.received|);
        hide Faithful;
      }
    }
  }

  // ----- What every connection keeps -----

  /** The chunks whose feeds did not raise: only the last feed can have. */
  function Taken(chunks: seq<seq<byte>>, key: Option<Key>): seq<seq<byte>> {
    if chunks == [] || Run(chunks, key).error.None? then chunks else chunks[..|chunks| - 1]
  }

  /** The frames handed over by the feeds that did not raise. */
  function HandedOver(chunks: seq<seq<byte>>, key: Option<Key>): seq<Frame> {
    Frames(Run(Taken(chunks, key), key).segs)
  }

  /** The session is sound, and has been handed the decoder's frames in order. */
  ghost predicate Sound(env: Env, c: Conn) {
    && Inv(env, c.session) && Faithful(env, c.session.out)
    && AllFit(c.inbox)
    && c.session.received + c.inbox == HandedOver(c.chunks, env.key)
  }

  lemma ReadHandsOver(chunks: seq<seq<byte>>, chunk: seq<byte>, key: Option<Key>)
    requires Run(chunks, key).error.None?
    ensures var o := FeedResult(Run(chunks, key).dec, chunk, key);
      var inbox := if o.error.Some? then [] else Frames(o.segs);
      && HandedOver(chunks + [chunk], key) == HandedOver(chunks, key) + inbox
      && AllFit(inbox)
  {
    var before := Run(chunks, key);
    var o := FeedResult(before.dec, chunk, key);
    RunAppend(chunks, chunk, key);
    RunSettles(chunks, key);
    hide Run;
    hide FeedResult;
    hide FromDecoder;
    FeedFramesFit(before.dec, chunk, key);
    SegmentsAppend(before.segs, o.segs);
    hide Frames;
    assert (chunks + [chunk])[..|chunks|] == chunks;
    assert Frames(before.segs) + [] == Frames(before.segs);
  }

  lemma MoveKeepsSound(env: Env, c: Conn, m: Move)
    requires UsableKey(env.key) && Sound(env, c) && CanMove(env, c, m)
    ensures Sound(env, Moved(env, c, m))
  {
    match m {
      case Read(chunk) =>
        hide Inv;
        hide Faithful;
        ReadHandsOver(c.chunks, chunk, env.key);
        hide Run;
        hide FeedResult;
        hide HandedOver;
        assert c.session.received + [] == c.session.received;
      case DispatchNext => DispatchKeepsSound(env, c);
      case Other(a) => OtherKeepsSound(env, c, a);
    }
  }

  lemma DeliverReceives(env: Env, s: State, f: Frame)
    requires FromDecoder(f)
    ensures Deliver(env, s, f).received == s.received + [f]
  {
    AckedFrame(env, Noted(Greeted(s, f), f), f);
    hide Acked;
    hide SettleReply;
  }

  lemma DispatchKeepsSound(env: Env, c: Conn)
    requires UsableKey(env.key) && Sound(env, c) && CanMove(env, c, DispatchNext)
    ensures Sound(env, Moved(env, c, DispatchNext))
  {
    hide Inv;
    hide Deliver;
    hide Faithful;
    hide HandedOver;
    hide FromDecoder;
    var f := c.inbox[0];
    DeliverFaithful(env, c.session, f);
    ReceiveKeepsInv(env, c.session, f);
    DeliverReceives(env, c.session, f);
    assert c.inbox == [f] + c.inbox[1..];
    Assoc(c.session.received, [f], c.inbox[1..]);
  }

  lemma OtherKeepsSound(env: Env, c: Conn, a: Action)
    requires UsableKey(env.key) && Sound(env, c) && CanMove(env, c, Other(a))
    ensures Sound(env, Moved(env, c, Other(a)))
  {
    StepKeepsInv(env, c.session, a);
    ActionFaithful(env, c.session, a);
    ReceivedSame(env, c.session, a);
    hide Inv;
    hide Faithful;
    hide HandedOver;
    hide SessionModel.Next;
    hide SessionModel.Enabled;
  }

  lemma ReceivedSame(env: Env, s: State, a: Action)
    requires SessionModel.Enabled(s, a) && !a.Receive?
    ensures SessionModel.Next(env, s, a).received == s.received
  {
    hide Encode;
    hide Requested;
    hide Woken;
    hide Post;
    hide EventStream.Next;
  }

  lemma {:induction false} MovesKeepSound(env: Env, c: Conn, ms: seq<Move>)
    requires UsableKey(env.key) && Sound(env, c) && Moves(env, c, ms)
    ensures Sound(env, MovedAll(env, c, ms))
    decreases |ms|
  {
    if ms != [] {
      MoveKeepsSound(env, c, ms[0]);
      hide Sound;
      hide Moved;
      hide CanMove;
      MovesKeepSound(env, Moved(env, c, ms[0]), ms[1..]);
    }
  }

  // ----- The acknowledgement bytes -----

  /** The wire images of the posted entries that are commands, or that are not. */
  function KindredWires(posted: seq<Posted>, command: bool): seq<seq<byte>> {
    if posted == [] then []
    else
      var last := posted[|posted| - 1];
      KindredWires(posted[..|posted| - 1], command) + (if last.command == command then [last.wire] else [])
  }

  predicate Encodes(env: Env, f: Frame, wire: seq<byte>) {
    Encode(f, env.key).Ok? && Encode(f, env.key).value.wire == wire
  }

  lemma {:induction false} WiresEncode(env: Env, posted: seq<Posted>, command: bool)
    requires forall i :: 0 <= i < |posted| ==> Encodes(env, posted[i].frame, posted[i].wire)
    ensures var frames, wires := Kindred(posted, command), KindredWires(posted, command);
      |wires| == |frames| && forall i :: 0 <= i < |wires| ==> Encodes(env, frames[i], wires[i])
  {
    hide Encodes;
    if posted != [] {
      WiresEncode(env, posted[..|posted| - 1], command);
    }
  }

  /** `wires` are the encodings of the answers to the frames among `received` that ask, one by
      one and in order, addressed to the source of the first frame received. */
  ghost predicate AnswerBytes(env: Env, wires: seq<seq<byte>>, received: seq<Frame>) {
    var asking := Asking(received);
    && |wires| == |asking|
    && forall i :: 0 <= i < |wires| ==>
         received != [] && Encodes(env, Answer(env.receiverId, received[0].srcId, asking[i]), wires[i])
  }

  lemma SoundAnswers(env: Env, c: Conn)
    requires Sound(env, c)
    ensures AnswerBytes(env, KindredWires(c.session.out.posted, false), c.session.received)
  {
    var posted := c.session.out.posted;
    WiresEncode(env, posted, false);
    InvAnswers(env, c.session);
    hide Inv;
    hide HandedOver;
    hide Kindred;
    hide KindredWires;
    hide Encodes;
    hide Asking;
  }

  /** For every connection, whatever its bytes, chunking and interleaving, and whether or not
      its last feed raised: the frames dispatched and those still to be dispatched are the
      frames handed over, and the bytes posted that are not commands are the encodings of the
      answers to exactly those of the frames dispatched that ask for one. */
  lemma AcknowledgementsOfDispatched(env: Env, ms: seq<Move>)
    requires UsableKey(env.key) && Moves(env, FIRST, ms)
    ensures var c := MovedAll(env, FIRST, ms);
      var s := c.session;
      && s.received + c.inbox == HandedOver(c.chunks, env.key)
      && AnswerBytes(env, KindredWires(s.out.posted, false), s.received)
      && (!s.out.teardownRequested ==> Wires(s.out.posted) == s.out.written + s.out.queue)
  {
    var c := MovedAll(env, FIRST, ms);
    FirstSound(env);
    MovesKeepSound(env, FIRST, ms);
    hide MovedAll;
    hide HandedOver;
    SoundAnswers(env, c);
    hide AnswerBytes;
    if !c.session.out.teardownRequested {
      NothingRefusedWhileOpen(c.session.out);
    }
  }

  /** End to end: once the frames of the last chunk are dispatched, the bytes posted that are
      not commands are the encodings of the answers to exactly the asking frames that one scan
      of the input finds, up to the chunk whose feed raised, if one did. Neither the chunking nor
      the interleaving with commands, writes, timeouts or teardowns can change them. */
  lemma AcknowledgementBytes(env: Env, ms: seq<Move>)
    requires UsableKey(env.key) && Moves(env, FIRST, ms)
    requires var c := MovedAll(env, FIRST, ms);
      c.inbox == [] && Tame(Flatten(Taken(c.chunks, env.key)), 0, env.key)
    ensures var c := MovedAll(env, FIRST, ms);
      var found := Frames(Scan(Flatten(Taken(c.chunks, env.key)), 0, env.key).segs);
      AnswerBytes(env, KindredWires(c.session.out.posted, false), found)
  {
    var c := MovedAll(env, FIRST, ms);
    AcknowledgementsOfDispatched(env, ms);
    hide MovedAll;
    RunIsScan(Taken(c.chunks, env.key), env.key);
    hide *;
    assert c.session.received + [] == c.session.received;
    ReceivedIsFound(c, env.key);
  }

  lemma ReceivedIsFound(c: Conn, key: Option<Key>)
    requires c.session.received + c.inbox == HandedOver(c.chunks, key) && c.inbox == []
    requires Run(Taken(c.chunks, key), key).segs == Scan(Flatten(Taken(c.chunks, key)), 0, key).segs
    ensures c.session.received == Frames(Scan(Flatten(Taken(c.chunks, key)), 0, key).segs)
  {
    hide Run;
    hide Scan;
    hide Taken;
    assert c.session.received + [] == c.session.received;
  }

  lemma FirstSound(env: Env)
    ensures Sound(env, FIRST)
  {
    StartInv(env);
    hide Inv;
  }
}
