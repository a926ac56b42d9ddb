/** A session as a state machine over the steps between awaits (spcedp/client.py:70-393,
    515-538, 588-653), and what every interleaving of those steps keeps. */
module SessionModel {
  import opened Bytes
  import opened Cipher
  import opened Codec
  import opened Decoder
  import opened Reassembly
  import opened SiaEvents
  import opened EventStream
  import opened WriteQueue
  import opened Requests
  import opened RequestSafety

  /** 0.1 seconds, in the milliseconds of the model's clock. */
  const COMMAND_QUIET_TIME := 100
  const FLAG_FROM_RECEIVER := 0x08

  /** What a session is given: the receiver's ID, the key setting, and the decoding of event
      payload bytes into text. */
  datatype Env = Env(receiverId: int, key: Option<Key>, text: seq<byte> -> string)

  /** The fields of a Session, with the histories that its properties speak of: every frame
      dispatched and when, every event emitted, and the histories inside `out` and `calls`. */
  datatype State = State(
    panelId: int, handshake: bool,
    received: seq<Frame>, receivedAt: seq<int>, lastReceived: int, pollCount: nat,
    now: int, calls: Calls, out: Outbox, stream: Stream, events: seq<SiaEvent>,
    tornDown: bool, writerUp: bool)

  const START := State(0, false, [], [], 0, 0, 0, NONE, NEW, EMPTY, [], false, true)

  // ----- Frames sent -----

  function Outbound(env: Env, panelId: int, sequence: int, major: int, minor: int, payload: seq<byte>): Frame {
    Frame(env.receiverId, panelId, sequence, major, minor, payload, 0, FLAG_FROM_RECEIVER)
  }

  /** The acknowledgement a frame calls for, as minor code: POLL, HELLO and EVENT_PUSH. */
  predicate WantsAck(f: Frame) {
    (f.major == 1 && f.minor in {0, 2}) || (f.major == 2 && f.minor == 0)
  }

  function AckOf(env: Env, panelId: int, f: Frame): Frame {
    Outbound(env, panelId, f.sequence, f.major, f.minor + 1, f.payload)
  }

  /** `reply_echo`; None where encode raises. */
  function Echo(env: Env, s: State, f: Frame): Option<State> {
    var ack := AckOf(env, s.panelId, f);
    match Encode(ack, env.key)
    case Ok(e) => Some(s.(out := Post(s.out, ack, e.wire, false, s.now, |s.received|)))
    case Err(_) => None
  }

  // ----- Steps -----

  function Noted(s: State, f: Frame): State
    requires 0 <= f.sequence < 0x1_0000_0000
  {
    s.(received := s.received + [f], receivedAt := s.receivedAt + [s.now], lastReceived := s.now,
       calls := Heard(s.calls, f))
  }

  function Emitted(s: State, ev: SiaEvent): State {
    s.(events := s.events + [ev], stream := EventStream.Next(s.stream, Emit))
  }

  /** Acknowledging a panel-initiated frame and surfacing its event; an exception out of
      reply_echo skips the rest. */
  function Acked(env: Env, s: State, f: Frame): State {
    var b := Echo(env, s, f);
    if b.None? then s
    else if f.major == 1 then
      if f.minor == 0 then b.value.(pollCount := b.value.pollCount + 1) else b.value
    else
      var ev := Parse(env.text(f.payload));
      if ev.None? then b.value else Emitted(b.value, ev.value)
  }

  /** `_dispatch`. */
  function Dispatch(env: Env, s: State, f: Frame): State
    requires 0 <= f.sequence < 0x1_0000_0000
  {
    var a := Noted(s, f);
    var at := |s.received|;
    if IsReply(f, Xml) then a.(calls := SettleReply(a.calls, f, Xml, at))
    else if IsReply(f, Binary) then a.(calls := SettleReply(a.calls, f, Binary, at))
    else if WantsAck(f) then Acked(env, a, f)
    else a
  }

  /** The session the frame is dispatched in: the first frame names the panel. */
  function Greeted(s: State, f: Frame): State {
    if s.handshake then s else s.(handshake := true, panelId := f.srcId)
  }

  /** One turn of the frame loop of `_handle`. */
  function Deliver(env: Env, s: State, f: Frame): State
    requires 0 <= f.sequence < 0x1_0000_0000
  {
    Dispatch(env, Greeted(s, f), f)
  }

  function CommandFrame(env: Env, s: State): Frame
    requires s.calls.command.Some?
  {
    var cmd := s.calls.command.value;
    Outbound(env, s.panelId, NextSequence(s.calls), if cmd.task.XmlTask? then 10 else 4, 0,
             Payload(cmd.task, cmd.replies != []))
  }

  /** A command past its quiet time makes its next request, if its text encodes. */
  function SendRequest(env: Env, s: State): State
    requires s.calls.command.Some?
  {
    if Sendable(s.calls.command.value.task) then PostRequest(env, s) else s.(calls := Spent(s.calls))
  }

  /** The request gets its future and goes to `_send`. */
  function PostRequest(env: Env, s: State): State
    requires s.calls.command.Some?
  {
    var frame := CommandFrame(env, s);
    match Encode(frame, env.key)
    case Ok(e) =>
      s.(calls := Requested(s.calls, |s.received|, true),
         out := Post(s.out, frame, e.wire, true, s.now, |s.received|))
    case Err(_) => s.(calls := Requested(s.calls, |s.received|, false))
  }

  datatype Action =
    | Tick(dt: nat)
    | Begin(task: Task)            // a command gets the lock
    | QuietOver                    // _wait_to_send is done, one way or the other
    | QuietFails(reason: Reason)   // timed out or cancelled while waiting to send
    | Expire(reason: Reason)       // timed out or cancelled while awaiting the reply
    | Wake                         // the awaiting command resumes
    | Receive(frame: Frame)
    | Write | WriterDies
    | RequestTeardown              // by a done-callback
    | Teardown
    | Consume(step: Step)          // the events() consumer

  /** A frame as the stream decoder delivers it: its sequence is 32 bits wide, and its
      payload fits the largest plausible frame. */
  predicate FromDecoder(f: Frame) {
    0 <= f.sequence < 0x1_0000_0000 && |f.payload| <= MAX_PLAUSIBLE_FRAME - HEADER_LEN
  }

  predicate InPhase(s: State, quiet: bool) {
    s.calls.command.Some? && s.calls.command.value.phase.Quiet? == quiet
  }

  predicate Enabled(s: State, a: Action) {
    match a
    case Tick(_) => true
    case Begin(task) => s.calls.command.None? && Acceptable(task)
    case QuietOver =>
      InPhase(s, true) && (s.out.closed || s.lastReceived + COMMAND_QUIET_TIME - s.now <= 0)
    case QuietFails(_) => InPhase(s, true)
    case Expire(_) =>
      && InPhase(s, false) && s.calls.command.value.ids != []
      && AwaitedId(s.calls.command.value) < |s.calls.futures|
    case Wake => CanWake(s.calls, s.received)
    case Receive(f) => FromDecoder(f)
    case Write => s.writerUp && s.out.queue != []
    case WriterDies => s.writerUp
    case RequestTeardown => true
    case Teardown => true
    case Consume(step) =>
      !step.Emit? && (step.SeeClosed? ==> s.out.closed) && EventStream.Enabled(s.stream, step)
  }

  function Next(env: Env, s: State, a: Action): State
    requires Enabled(s, a)
  {
    match a
    case Tick(dt) => s.(now := s.now + dt)
    case Begin(task) =>
      var c := s.calls.(command := Some(Command(task, [], [], [], Quiet)));
      s.(calls := if s.out.closed then Ended(c, ConnectionLost) else c)
    case QuietOver =>
      if s.out.closed then s.(calls := Ended(s.calls, ConnectionLost)) else SendRequest(env, s)
    case QuietFails(reason) => s.(calls := Ended(s.calls, EndingOf(reason)))
    case Expire(reason) => s.(calls := Expired(s.calls, AwaitedId(s.calls.command.value), reason))
    case Wake => s.(calls := Woken(s.calls, s.received))
    case Receive(f) => Deliver(env, s, f)
    case Write => s.(out := WriteOne(s.out))
    case WriterDies => s.(writerUp := false)
    case RequestTeardown => s.(out := WriteQueue.RequestTeardown(s.out))
    case Teardown =>
      s.(calls := FailPending(s.calls), out := WriteQueue.RequestTeardown(s.out), tornDown := true)
    case Consume(step) => s.(stream := EventStream.Next(s.stream, step))
  }

  predicate Runs(env: Env, s: State, actions: seq<Action>)
    decreases |actions|
  {
    actions == [] || (Enabled(s, actions[0]) && Runs(env, Next(env, s, actions[0]), actions[1..]))
  }

  function After(env: Env, s: State, actions: seq<Action>): State
    requires Runs(env, s, actions)
    decreases |actions|
  {
    if actions == [] then s else After(env, Next(env, s, actions[0]), actions[1..])
  }

  // ----- What every state keeps -----

  /** The in-order image of the frames that want an acknowledgement. */
  function Acks(env: Env, panelId: int, received: seq<Frame>): seq<Frame> {
    if received == [] then []
    else
      var f := received[|received| - 1];
      Acks(env, panelId, received[..|received| - 1]) + (if WantsAck(f) then [AckOf(env, panelId, f)] else [])
  }

  /** The events in the received pushes, in order, malformed payloads left out. */
  function Pushed(env: Env, received: seq<Frame>): seq<SiaEvent> {
    if received == [] then []
    else
      var f := received[|received| - 1];
      var ev := Parse(env.text(f.payload));
      Pushed(env, received[..|received| - 1])
      + (if f.major == 2 && f.minor == 0 && ev.Some? then [ev.value] else [])
  }

  function Polls(received: seq<Frame>): nat {
    if received == [] then 0
    else
      var f := received[|received| - 1];
      Polls(received[..|received| - 1]) + (if f.major == 1 && f.minor == 0 then 1 else 0)
  }

  /** Everything posted that is not a command acknowledges, in order, exactly the received
      frames that want it; the panel ID is the source of the first frame. */
  predicate Acknowledged(env: Env, s: State) {
    && Kindred(s.out.posted, false) == Acks(env, s.panelId, s.received)
    && (s.handshake <==> s.received != [])
    && (s.handshake ==> s.panelId == s.received[0].srcId)
    && s.pollCount == Polls(s.received)
    && s.events == Pushed(env, s.received)
    && s.stream.emitted == |s.events| && InOrder(s.stream)
  }

  /** Every command frame was posted at least the quiet time after each frame dispatched
      before it. */
  predicate Timely(s: State) {
    && |s.receivedAt| == |s.received|
    && (s.received != [] ==> s.lastReceived <= s.now)
    && (forall k :: 0 <= k < |s.receivedAt| ==> s.receivedAt[k] <= s.lastReceived)
    && forall i :: 0 <= i < |s.out.posted| && s.out.posted[i].command ==>
         && s.out.posted[i].after <= |s.receivedAt|
         && forall k :: 0 <= k < s.out.posted[i].after ==>
              s.receivedAt[k] + COMMAND_QUIET_TIME <= s.out.posted[i].at
  }

  predicate TornDownOk(s: State) {
    s.tornDown ==> s.out.closed && s.calls.pendingXml == map[] && s.calls.pendingBin == map[]
  }

  ghost predicate Inv(env: Env, s: State) {
    && CallsOk(s.calls, s.received) && Fresh(s.calls, s.received)
    && Conserved(s.out) && Acknowledged(env, s) && Timely(s) && TornDownOk(s)
  }

  // ----- Encoding what a session sends -----

  lemma OutboundEncodes(env: Env, panelId: int, sequence: int, major: int, minor: int, payload: seq<byte>)
    requires UsableKey(env.key)
    ensures Encode(Outbound(env, panelId, sequence, major, minor, payload), env.key).Ok?
       <==> |payload| <= MAX_PAYLOAD
  {
    EncodeBound(Outbound(env, panelId, sequence, major, minor, payload), env.key);
  }

  // ----- Receiving -----

  lemma NotedKeepsCalls(s: State, f: Frame)
    requires CallsOk(s.calls, s.received) && Fresh(s.calls, s.received) && FromDecoder(f)
    ensures CallsOk(Heard(s.calls, f), s.received)
    ensures Fresh(Heard(s.calls, f), s.received + [f])
    ensures Evolves(s.calls, Heard(s.calls, f))
  {
    assert Correlated(s.calls, s.received);
    HeardKeeps(s.calls, s.received, f);
    HeardFresh(s.calls, s.received, f);
    hide CallsOk;
    hide Fresh;
    hide Evolves;
    hide Heard;
  }

  lemma HeardKeeps(c: Calls, received: seq<Frame>, f: Frame)
    requires CallsOk(c, received) && FromDecoder(f)
    ensures CallsOk(Heard(c, f), received) && Evolves(c, Heard(c, f))
  {
    assert |c.requests| == |c.futures|;
    IssuedSame(c, Heard(c, f), received);
    hide CallsOk;
    hide Heard;
  }

  lemma SettledFresh(c: Calls, f: Frame, kind: Kind, at: nat, received: seq<Frame>)
    requires Fresh(c, received)
    ensures Fresh(SettleReply(c, f, kind, at), received)
  {
  }

  lemma AckedFrame(env: Env, s: State, f: Frame)
    ensures var t := Acked(env, s, f);
      t == s.(out := t.out, pollCount := t.pollCount, stream := t.stream, events := t.events)
  {
    hide Encode;
    hide Parse;
    hide Post;
    hide EventStream.Next;
  }

  lemma DispatchCalls(env: Env, s: State, f: Frame)
    requires CallsOk(s.calls, s.received) && Fresh(s.calls, s.received) && FromDecoder(f)
    ensures var t := Dispatch(env, s, f);
      && t.received == s.received + [f]
      && CallsOk(t.calls, t.received) && Fresh(t.calls, t.received) && Evolves(s.calls, t.calls)
  {
    NotedKeepsCalls(s, f);
    AckedFrame(env, Noted(s, f), f);
    hide Acked;
    hide CallsOk;
    hide Fresh;
    hide SettleReply;
    var c, later := Heard(s.calls, f), s.received + [f];
    ReceiveKeeps(c, s.received, later);
    if IsReply(f, Xml) {
      SettleKeeps(c, s.received, f, Xml);
      SettledFresh(c, f, Xml, |s.received|, later);
      EvolvesOn(s.calls, c, SettleReply(c, f, Xml, |s.received|));
    } else if IsReply(f, Binary) {
      SettleKeeps(c, s.received, f, Binary);
      SettledFresh(c, f, Binary, |s.received|, later);
      EvolvesOn(s.calls, c, SettleReply(c, f, Binary, |s.received|));
    }
    hide Heard;
    hide Evolves;
  }

  lemma EvolvesOn(a: Calls, b: Calls, c: Calls)
    requires Evolves(a, b) && Evolves(b, c)
    ensures Evolves(a, c)
  {
  }

  lemma DeliverCalls(env: Env, s: State, f: Frame)
    requires CallsOk(s.calls, s.received) && Fresh(s.calls, s.received) && FromDecoder(f)
    ensures var t := Deliver(env, s, f);
      && t.received == s.received + [f]
      && CallsOk(t.calls, t.received) && Fresh(t.calls, t.received) && Evolves(s.calls, t.calls)
  {
    hide Dispatch;
    hide CallsOk;
    hide Fresh;
    hide Evolves;
    DispatchCalls(env, Greeted(s, f), f);
  }

  lemma AckedPosts(env: Env, s: State, f: Frame)
    requires UsableKey(env.key) && |f.payload| <= MAX_PAYLOAD && WantsAck(f)
    ensures var t := Acked(env, s, f);
      var ack := AckOf(env, s.panelId, f);
      && Encode(ack, env.key).Ok?
      && t.out == Post(s.out, ack, Encode(ack, env.key).value.wire, false, s.now, |s.received|)
      && t.pollCount == s.pollCount + (if f.major == 1 && f.minor == 0 then 1 else 0)
      && t.events == s.events + EventIn(env, f)
      && t.stream == (if EventIn(env, f) == [] then s.stream else EventStream.Next(s.stream, Emit))
  {
    hide Parse;
    hide Post;
    hide EventStream.Next;
    OutboundEncodes(env, s.panelId, f.sequence, f.major, f.minor + 1, f.payload);
    hide Encode;
    assert s.events + [] == s.events;
  }

  /** The wire image of the acknowledgement of `f`. */
  function AckImage(env: Env, s: State, f: Frame): Option<seq<byte>> {
    match Encode(AckOf(env, s.panelId, f), env.key)
    case Ok(e) => Some(e.wire)
    case Err(_) => None
  }

  /** What one dispatch adds to the record: `t` after `s` has dispatched `f`. */
  ghost predicate Records(env: Env, s: State, f: Frame, t: State) {
    && t.received == s.received + [f] && t.receivedAt == s.receivedAt + [s.now]
    && t.lastReceived == s.now == t.now && t.panelId == s.panelId && t.handshake == s.handshake
    && t.tornDown == s.tornDown
    && (if WantsAck(f)
        then AckImage(env, s, f).Some?
          && t.out == Post(s.out, AckOf(env, s.panelId, f), AckImage(env, s, f).value, false, s.now, |s.received| + 1)
        else t.out == s.out)
    && t.pollCount == s.pollCount + (if f.major == 1 && f.minor == 0 then 1 else 0)
    && t.events == s.events + EventIn(env, f)
    && t.stream == (if EventIn(env, f) == [] then s.stream else EventStream.Next(s.stream, Emit))
  }

  lemma DispatchPosts(env: Env, s: State, f: Frame)
    requires UsableKey(env.key) && FromDecoder(f)
    ensures Records(env, s, f, Dispatch(env, s, f))
  {
    if WantsAck(f) {
      AckDispatchPosts(env, s, f);
    } else {
      hide Acked;
      hide SettleReply;
      hide Heard;
      hide Parse;
      assert s.events + [] == s.events;
    }
  }

  lemma AckDispatchPosts(env: Env, s: State, f: Frame)
    requires UsableKey(env.key) && FromDecoder(f) && WantsAck(f)
    ensures Records(env, s, f, Dispatch(env, s, f))
  {
    var a := Noted(s, f);
    NotedRecord(s, f);
    assert |f.payload| <= MAX_PAYLOAD;
    hide *;
    DispatchIsAcked(env, s, f);
    AckedFrame(env, a, f);
    AckedPosts(env, a, f);
    AckedRecords(env, s, a, f, Acked(env, a, f));
  }

  lemma NotedRecord(s: State, f: Frame)
    requires FromDecoder(f)
    ensures var a := Noted(s, f);
      a == s.(received := s.received + [f], receivedAt := s.receivedAt + [s.now], lastReceived := s.now,
              calls := a.calls)
  {
    hide Heard;
  }

  /** The record of an acknowledged frame, from its parts: `a` has noted the frame, `t` has
      acknowledged it. */
  lemma AckedRecords(env: Env, s: State, a: State, f: Frame, t: State)
    requires WantsAck(f)
    requires a == s.(received := s.received + [f], receivedAt := s.receivedAt + [s.now], lastReceived := s.now,
                     calls := a.calls)
    requires t == a.(out := t.out, pollCount := t.pollCount, stream := t.stream, events := t.events)
    requires var ack := AckOf(env, a.panelId, f);
      && Encode(ack, env.key).Ok?
      && t.out == Post(a.out, ack, Encode(ack, env.key).value.wire, false, a.now, |a.received|)
    requires t.pollCount == a.pollCount + (if f.major == 1 && f.minor == 0 then 1 else 0)
    requires t.events == a.events + EventIn(env, f)
    requires t.stream == (if EventIn(env, f) == [] then a.stream else EventStream.Next(a.stream, Emit))
    ensures Records(env, s, f, t)
  {
    hide Encode;
    hide Post;
    hide EventIn;
    hide EventStream.Next;
    hide WantsAck;
    hide AckOf;
  }

  lemma DispatchIsAcked(env: Env, s: State, f: Frame)
    requires FromDecoder(f) && WantsAck(f)
    ensures Dispatch(env, s, f) == Acked(env, Noted(s, f), f)
  {
    hide Acked;
    hide SettleReply;
  }

  /** The event a received frame pushes, if any. */
  function EventIn(env: Env, f: Frame): seq<SiaEvent> {
    var ev := Parse(env.text(f.payload));
    if f.major == 2 && f.minor == 0 && ev.Some? then [ev.value] else []
  }

  lemma HistorySnoc(env: Env, panelId: int, received: seq<Frame>, f: Frame)
    ensures Acks(env, panelId, received + [f])
         == Acks(env, panelId, received) + (if WantsAck(f) then [AckOf(env, panelId, f)] else [])
    ensures Pushed(env, received + [f]) == Pushed(env, received) + EventIn(env, f)
    ensures Polls(received + [f]) == Polls(received) + (if f.major == 1 && f.minor == 0 then 1 else 0)
  {
    hide Parse;
    assert (received + [f])[..|received|] == received;
  }

  lemma PostKindred(o: Outbox, frame: Frame, wire: seq<byte>, command: bool, at: int, after: nat, which: bool)
    ensures Kindred(Post(o, frame, wire, command, at, after).posted, which)
         == Kindred(o.posted, which) + (if command == which then [frame] else [])
  {
    KindredSnoc(o.posted, Posted(frame, wire, command, at, after, |o.queue| < WRITE_QUEUE_MAXSIZE), which);
    hide Kindred;
  }

  lemma RecordsAcks(env: Env, s: State, f: Frame, t: State)
    requires Kindred(s.out.posted, false) == Acks(env, s.panelId, s.received)
    requires Records(env, s, f, t)
    ensures Kindred(t.out.posted, false) == Acks(env, t.panelId, t.received)
  {
    HistorySnoc(env, s.panelId, s.received, f);
    hide Post;
    hide Acks;
    hide EventIn;
    hide Kindred;
    hide EventStream.Next;
    hide AckImage;
    if WantsAck(f) {
      PostKindred(s.out, AckOf(env, s.panelId, f), AckImage(env, s, f).value, false, s.now, |s.received| + 1, false);
    }
  }

  lemma RecordsAcknowledged(env: Env, s: State, f: Frame, t: State)
    requires Acknowledged(env, s) && Records(env, Greeted(s, f), f, t)
    ensures Acknowledged(env, t)
  {
    var b := Greeted(s, f);
    if s.received == [] {
      assert Acks(env, b.panelId, s.received) == Acks(env, s.panelId, s.received);
    }
    RecordsAcks(env, b, f, t);
    HistorySnoc(env, b.panelId, s.received, f);
    DeliverStream(env, b, f);
    hide Post;
    hide Acks;
    hide Pushed;
    hide Polls;
    hide EventIn;
    hide Kindred;
    hide AckImage;
    hide InOrder;
    hide EventStream.Next;
  }

  lemma DeliverAcknowledged(env: Env, s: State, f: Frame)
    requires UsableKey(env.key) && FromDecoder(f) && Acknowledged(env, s)
    ensures Acknowledged(env, Deliver(env, s, f))
  {
    hide Acknowledged;
    hide Records;
    hide Dispatch;
    DispatchPosts(env, Greeted(s, f), f);
    RecordsAcknowledged(env, s, f, Deliver(env, s, f));
  }

  lemma DeliverStream(env: Env, s: State, f: Frame)
    requires InOrder(s.stream) && s.stream.emitted == |s.events|
    ensures var es := EventIn(env, f);
      var stream := if es == [] then s.stream else EventStream.Next(s.stream, Emit);
      InOrder(stream) && stream.emitted == |s.events + es|
  {
    hide Parse;
    StepLine(s.stream, Emit);
  }

  // ----- Times -----

  /** Posting an acknowledgement, or a command that has waited long enough, stays timely. */
  lemma PostTimely(s: State, frame: Frame, wire: seq<byte>, command: bool)
    requires Timely(s)
    requires command ==> s.received != [] ==> s.lastReceived + COMMAND_QUIET_TIME <= s.now
    ensures Timely(s.(out := Post(s.out, frame, wire, command, s.now, |s.received|)))
  {
    var t := s.(out := Post(s.out, frame, wire, command, s.now, |s.received|));
    var n := |s.out.posted|;
    assert t.out.posted[..n] == s.out.posted;
    assert forall i :: 0 <= i < n ==> t.out.posted[i] == s.out.posted[i];
  }

  lemma NotedTimely(s: State, f: Frame)
    requires Timely(s) && FromDecoder(f)
    ensures Timely(Noted(s, f))
  {
    hide Heard;
    var t := Noted(s, f);
    assert forall k :: 0 <= k < |s.receivedAt| ==> t.receivedAt[k] == s.receivedAt[k];
    forall k | 0 <= k < |t.receivedAt| ensures t.receivedAt[k] <= t.lastReceived {
      if k < |s.receivedAt| {
        assert s.received != [];
      }
    }
  }

  /** Only these fields matter for times. */
  lemma TimelySame(s: State, t: State)
    requires Timely(s) && t.receivedAt == s.receivedAt && |t.received| == |s.received|
    requires t.lastReceived == s.lastReceived && t.now >= s.now && t.out.posted == s.out.posted
    ensures Timely(t)
  {
  }

  lemma RecordsTimely(env: Env, s: State, f: Frame, t: State)
    requires FromDecoder(f) && Timely(s) && Records(env, s, f, t)
    ensures Timely(t)
  {
    hide Timely;
    hide EventIn;
    hide Heard;
    hide Post;
    hide EventStream.Next;
    hide AckImage;
    hide AckOf;
    hide WantsAck;
    NotedTimely(s, f);
    var a := Noted(s, f);
    if WantsAck(f) {
      PostTimely(a, AckOf(env, s.panelId, f), AckImage(env, s, f).value, false);
      TimelySame(a.(out := t.out), t);
    } else {
      TimelySame(a, t);
    }
  }

  lemma DeliverTimely(env: Env, s: State, f: Frame)
    requires UsableKey(env.key) && FromDecoder(f) && Timely(s)
    ensures Timely(Deliver(env, s, f))
  {
    TimelySame(s, Greeted(s, f));
    hide Timely;
    hide Records;
    hide Dispatch;
    DispatchPosts(env, Greeted(s, f), f);
    RecordsTimely(env, Greeted(s, f), f, Deliver(env, s, f));
  }

  lemma RecordsConserves(env: Env, s: State, f: Frame, t: State)
    requires Conserved(s.out) && Records(env, s, f, t)
    ensures Conserved(t.out) && (s.out.closed ==> t.out.closed)
    ensures Kindred(t.out.posted, true) == Kindred(s.out.posted, true)
  {
    hide EventIn;
    hide Conserved;
    hide Kindred;
    hide EventStream.Next;
    if WantsAck(f) {
      var ack := AckOf(env, s.panelId, f);
      var wire := AckImage(env, s, f).value;
      PostConserves(s.out, ack, wire, false, s.now, |s.received| + 1);
      PostKindred(s.out, ack, wire, false, s.now, |s.received| + 1, true);
    }
  }

  lemma DeliverConserves(env: Env, s: State, f: Frame)
    requires UsableKey(env.key) && FromDecoder(f) && Conserved(s.out)
    ensures Conserved(Deliver(env, s, f).out)
    ensures s.out.closed ==> Deliver(env, s, f).out.closed
    ensures Kindred(Deliver(env, s, f).out.posted, true) == Kindred(s.out.posted, true)
  {
    hide Conserved;
    hide Records;
    hide Kindred;
    hide Dispatch;
    DispatchPosts(env, Greeted(s, f), f);
    RecordsConserves(env, Greeted(s, f), f, Deliver(env, s, f));
  }

  /** A reply can only shrink the pending maps. */
  lemma SettleShrinks(c: Calls, f: Frame, kind: Kind, at: nat)
    ensures c.pendingXml == map[] ==> SettleReply(c, f, kind, at).pendingXml == map[]
    ensures c.pendingBin == map[] ==> SettleReply(c, f, kind, at).pendingBin == map[]
  {
  }

  lemma DispatchShrinks(env: Env, s: State, f: Frame)
    requires FromDecoder(f)
    ensures var t := Dispatch(env, s, f);
      && (s.calls.pendingXml == map[] ==> t.calls.pendingXml == map[])
      && (s.calls.pendingBin == map[] ==> t.calls.pendingBin == map[])
  {
    SettleShrinks(Heard(s.calls, f), f, Xml, |s.received|);
    SettleShrinks(Heard(s.calls, f), f, Binary, |s.received|);
    AckedFrame(env, Noted(s, f), f);
    hide SettleReply;
    hide Acked;
  }

  lemma ReceiveKeepsInv(env: Env, s: State, f: Frame)
    requires UsableKey(env.key) && FromDecoder(f) && Inv(env, s)
    ensures Inv(env, Deliver(env, s, f))
  {
    DispatchShrinks(env, Greeted(s, f), f);
    DispatchPosts(env, Greeted(s, f), f);
    hide Dispatch;
    hide CallsOk;
    hide Fresh;
    hide Timely;
    hide Conserved;
    DeliverCalls(env, s, f);
    DeliverTimely(env, s, f);
    DeliverConserves(env, s, f);
    DeliverAcknowledged(env, s, f);
    hide Acknowledged;
    hide EventIn;
  }

  // ----- Sending a request -----

  lemma RequestFrameEncodes(env: Env, s: State)
    requires UsableKey(env.key) && s.calls.command.Some?
    ensures var cmd := s.calls.command.value;
      Encode(CommandFrame(env, s), env.key).Ok? <==> |Payload(cmd.task, cmd.replies != [])| <= MAX_PAYLOAD
  {
    var cmd := s.calls.command.value;
    OutboundEncodes(env, s.panelId, NextSequence(s.calls), if cmd.task.XmlTask? then 10 else 4, 0,
                    Payload(cmd.task, cmd.replies != []));
  }

  lemma RequestedFresh(c: Calls, received: seq<Frame>, encodes: bool)
    requires Fresh(c, received) && c.command.Some?
    ensures Fresh(Requested(c, |received|, encodes), received)
  {
    RegisteredFresh(c, received);
    hide Registered;
  }

  /** Only these fields matter for acknowledgements. */
  lemma SameAcknowledged(env: Env, s: State, t: State)
    requires Acknowledged(env, s)
    requires Kindred(t.out.posted, false) == Kindred(s.out.posted, false)
    requires t == s.(now := t.now, calls := t.calls, out := t.out, tornDown := t.tornDown, writerUp := t.writerUp)
    ensures Acknowledged(env, t)
  {
  }

  lemma SendKeepsInv(env: Env, s: State)
    requires UsableKey(env.key) && Inv(env, s) && InPhase(s, true) && !s.out.closed
    requires s.lastReceived + COMMAND_QUIET_TIME <= s.now
    ensures Inv(env, SendRequest(env, s))
  {
    if Sendable(s.calls.command.value.task) {
      hide Inv;
      PostRequestKeepsInv(env, s);
    } else {
      SpentKeeps(s.calls, s.received);
      AllocatedFresh(s.calls, s.received);
      hide CallsOk;
      FreshSame(Allocated(s.calls), Spent(s.calls), s.received);
      hide Fresh;
      CallsStepKeepsInv(env, s, Spent(s.calls));
    }
  }

  lemma PostRequestKeepsInv(env: Env, s: State)
    requires UsableKey(env.key) && Inv(env, s) && InPhase(s, true) && !s.out.closed
    requires s.lastReceived + COMMAND_QUIET_TIME <= s.now && Sendable(s.calls.command.value.task)
    ensures Inv(env, PostRequest(env, s))
  {
    RequestFrameEncodes(env, s);
    hide Payload;
    hide Encode;
    var frame := CommandFrame(env, s);
    var encoded := Encode(frame, env.key);
    RequestKeeps(s.calls, s.received, encoded.Ok?);
    RequestedFresh(s.calls, s.received, encoded.Ok?);
    var t := PostRequest(env, s);
    hide Requested;
    hide CallsOk;
    hide Fresh;
    hide Acknowledged;
    hide Conserved;
    hide Kindred;
    if encoded.Ok? {
      var wire := encoded.value.wire;
      PostTimely(s, frame, wire, true);
      PostConserves(s.out, frame, wire, true, s.now, |s.received|);
      PostKindred(s.out, frame, wire, true, s.now, |s.received|, false);
      assert Kindred(s.out.posted, false) + [] == Kindred(s.out.posted, false);
    }
    SameAcknowledged(env, s, t);
    TimelyCalls(s, t);
  }

  lemma TimelyCalls(s: State, t: State)
    requires t == s.(calls := t.calls, out := t.out)
    requires Timely(s.(out := t.out))
    ensures Timely(t)
  {
  }

  // ----- Every step -----

  /** A step that only touches the requests. */
  lemma CallsStepKeepsInv(env: Env, s: State, c: Calls)
    requires Inv(env, s) && CallsOk(c, s.received) && Fresh(c, s.received)
    requires s.tornDown ==> c.pendingXml == map[] && c.pendingBin == map[]
    ensures Inv(env, s.(calls := c))
  {
    SameAcknowledged(env, s, s.(calls := c));
    hide CallsOk;
    hide Fresh;
    hide Acknowledged;
    hide Conserved;
    TimelyCalls(s, s.(calls := c));
  }

  /** Steps other than requests and receptions do not touch the sequence numbers. */
  lemma FreshSame(c: Calls, d: Calls, received: seq<Frame>)
    requires Fresh(c, received)
    requires d.nextSeq == c.nextSeq && d.wrapped == c.wrapped && d.issued == c.issued
    requires d.requests == c.requests
    ensures Fresh(d, received)
  {
  }

  lemma CommandStepKeepsInv(env: Env, s: State, a: Action)
    requires UsableKey(env.key) && Inv(env, s) && Enabled(s, a)
    requires a.Begin? || a.QuietFails? || a.Expire? || a.Wake?
    ensures Inv(env, Next(env, s, a))
  {
    var c := s.calls;
    var t := Next(env, s, a);
    match a {
      case Begin(task) =>
        var d := c.(command := Some(Command(task, [], [], [], Quiet)));
        BeginKeeps(c, task, s.received);
        if s.out.closed { QuitKeeps(d, ConnectionLost, s.received); }
      case QuietFails(reason) => QuitKeeps(c, EndingOf(reason), s.received);
      case Expire(reason) => ExpireKeeps(c, s.received, reason);
      case Wake =>
        WakeKeeps(c, s.received);
        WokenSame(c, s.received);
    }
    hide CallsOk;
    hide Acknowledged;
    hide Timely;
    hide Conserved;
    hide Woken;
    FreshSame(c, t.calls, s.received);
    CallsStepKeepsInv(env, s, t.calls);
  }

  lemma ConsumeSame(c: Calls, p: seq<byte>)
    requires c.command.Some?
    ensures var d := Requests.Consume(c, p);
      d == c.(command := d.command, finished := d.finished)
  {
    hide FeedOne;
  }

  lemma WokenSame(c: Calls, received: seq<Frame>)
    requires CanWake(c, received)
    ensures var d := Woken(c, received);
      && d.nextSeq == c.nextSeq && d.wrapped == c.wrapped && d.issued == c.issued
      && d.requests == c.requests
      && (c.pendingXml == map[] ==> d.pendingXml == map[])
      && (c.pendingBin == map[] ==> d.pendingBin == map[])
  {
    var id := AwaitedId(c.command.value);
    if c.futures[id].Resolved? {
      ConsumeSame(Popped(c, id), received[c.futures[id].at].payload);
    }
    hide Requests.Consume;
  }

  lemma QuietOverKeepsInv(env: Env, s: State)
    requires UsableKey(env.key) && Inv(env, s) && Enabled(s, QuietOver)
    ensures Inv(env, Next(env, s, QuietOver))
  {
    if s.out.closed {
      QuitKeeps(s.calls, ConnectionLost, s.received);
      var t := Next(env, s, QuietOver);
      hide CallsOk;
      hide Acknowledged;
      hide Timely;
      hide Conserved;
      FreshSame(s.calls, t.calls, s.received);
      CallsStepKeepsInv(env, s, t.calls);
    } else {
      hide Inv;
      SendKeepsInv(env, s);
    }
  }

  lemma TeardownKeepsInv(env: Env, s: State)
    requires Inv(env, s)
    ensures Inv(env, Next(env, s, Teardown))
  {
    var t := Next(env, s, Teardown);
    FailKeeps(s.calls, s.received);
    hide CallsOk;
    FreshSame(s.calls, t.calls, s.received);
    hide Fresh;
    SameAcknowledged(env, s, t);
    hide Acknowledged;
    TimelySame(s, t);
  }

  lemma OutboxStepKeepsInv(env: Env, s: State, a: Action)
    requires Inv(env, s) && Enabled(s, a)
    requires a.Tick? || a.Write? || a.WriterDies? || a.RequestTeardown?
    ensures Inv(env, Next(env, s, a))
  {
    var t := Next(env, s, a);
    hide CallsOk;
    hide Fresh;
    if a.Write? { WriteConserves(s.out); }
    SameAcknowledged(env, s, t);
    hide Acknowledged;
    TimelySame(s, t);
  }

  lemma ConsumeKeepsInv(env: Env, s: State, step: Step)
    requires Inv(env, s) && Enabled(s, Consume(step))
    ensures Inv(env, Next(env, s, Consume(step)))
  {
    ConsumeIs(env, s, step);
    hide *;
    ConsumerStep(s.stream, step);
    StreamStepKeepsInv(env, s, EventStream.Next(s.stream, step));
  }

  lemma ConsumeIs(env: Env, s: State, step: Step)
    requires Enabled(s, Consume(step))
    ensures EventStream.Enabled(s.stream, step) && !step.Emit?
    ensures Next(env, s, Consume(step)) == s.(stream := EventStream.Next(s.stream, step))
    ensures forall t: State :: Inv(env, t) ==> InOrder(t.stream)
  {
    hide EventStream.Next;
    hide EventStream.Enabled;
    hide InOrder;
    hide CallsOk;
    hide Fresh;
    hide Timely;
  }

  lemma StreamStepKeepsInv(env: Env, s: State, stream: Stream)
    requires Inv(env, s) && InOrder(stream) && stream.emitted == s.stream.emitted
    ensures Inv(env, s.(stream := stream))
  {
    var t := s.(stream := stream);
    hide CallsOk;
    hide Fresh;
    hide Conserved;
    hide InOrder;
    TimelySame(s, t);
    hide Timely;
  }

  lemma ConsumerStep(stream: Stream, step: Step)
    requires InOrder(stream) && EventStream.Enabled(stream, step) && !step.Emit?
    ensures InOrder(EventStream.Next(stream, step))
    ensures EventStream.Next(stream, step).emitted == stream.emitted
  {
    hide InOrder;
    StepLine(stream, step);
  }

  lemma StepKeepsInv(env: Env, s: State, a: Action)
    requires UsableKey(env.key) && Inv(env, s) && Enabled(s, a)
    ensures Inv(env, Next(env, s, a))
  {
    match a {
      case Receive(f) => ReceiveKeepsInv(env, s, f);
      case QuietOver => QuietOverKeepsInv(env, s);
      case Teardown => TeardownKeepsInv(env, s);
      case Consume(step) => ConsumeKeepsInv(env, s, step);
      case Begin(_) => CommandStepKeepsInv(env, s, a);
      case QuietFails(_) => CommandStepKeepsInv(env, s, a);
      case Expire(_) => CommandStepKeepsInv(env, s, a);
      case Wake => CommandStepKeepsInv(env, s, a);
      case _ => OutboxStepKeepsInv(env, s, a);
    }
  }

  lemma StartInv(env: Env)
    ensures Inv(env, START)
  {
  }

  /** Over every run, from the start of a session, under every interleaving of its steps. */
  lemma {:induction false} RunKeepsInv(env: Env, s: State, actions: seq<Action>)
    requires UsableKey(env.key) && Inv(env, s) && Runs(env, s, actions)
    ensures Inv(env, After(env, s, actions))
    decreases |actions|
  {
    hide Inv;
    hide Next;
    hide Enabled;
    if actions != [] {
      StepKeepsInv(env, s, actions[0]);
      RunKeepsInv(env, Next(env, s, actions[0]), actions[1..]);
    }
  }
}
