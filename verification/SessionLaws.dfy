/** What single steps of a session do, in plain terms (spcedp/client.py:111-143, 192-328,
    588-653): who is answered with what, which frame goes out for a request, which future a
    frame or a disconnect settles, and how a command ends. */
module SessionLaws {
  import opened Bytes
  import opened Codec
  import opened Reassembly
  import opened WriteQueue
  import opened Requests
  import opened RequestSafety
  import opened SessionModel
  import opened SessionSafety

  // ----- What every reachable session keeps, besides its invariant -----

  /** Future `id` is registered under its request's kind and sequence. */
  predicate Registers(c: Calls, id: nat)
    requires id < |c.requests|
  {
    var r := c.requests[id];
    var pending := if r.kind.Xml? then c.pendingXml else c.pendingBin;
    r.sequence in pending && pending[r.sequence] == id
  }

  /** The future that the running command awaits is registered as long as it is open. */
  predicate OpenRegistered(c: Calls) {
    forall id: nat :: id < |c.futures| && id < |c.requests| && c.futures[id].Pending? && Current(c, id) ==>
      Registers(c, id)
  }

  /** The ID the panel is addressed by: the source of the first frame, and 0 before it. */
  function PanelOf(received: seq<Frame>): int {
    if received == [] then 0 else received[0].srcId
  }

  /** The frame that goes out for a request: `_frame` with the major code of its kind. */
  function CommandImage(receiverId: int, received: seq<Frame>, r: Request): Frame {
    Frame(receiverId, if r.after == 0 then 0 else PanelOf(received), r.sequence,
          if r.kind.Xml? then 10 else 4, 0, r.payload, 0, 0x08)
  }

  /** The frames for a list of requests, those too long to encode left out. */
  function CommandImages(receiverId: int, received: seq<Frame>, requests: seq<Request>): seq<Frame> {
    if requests == [] then []
    else
      var r := requests[|requests| - 1];
      CommandImages(receiverId, received, requests[..|requests| - 1])
      + (if |r.payload| > 65514 then [] else [CommandImage(receiverId, received, r)])
  }

  ghost predicate CommandsMatch(env: Env, s: State) {
    && s.panelId == PanelOf(s.received)
    && Kindred(s.out.posted, true) == CommandImages(env.receiverId, s.received, s.calls.requests)
  }

  // ----- The awaited future stays registered -----

  lemma SettleRegistered(c: Calls, f: Frame, kind: Kind, at: nat)
    requires OneOpen(c) && OpenRegistered(c)
    ensures OpenRegistered(SettleReply(c, f, kind, at))
  {
  }

  lemma RequestRegistered(c: Calls, received: nat, encodes: bool)
    requires |c.requests| == |c.futures| && c.command.Some?
    ensures OpenRegistered(Requested(c, received, encodes))
  {
    hide Payload;
  }

  lemma FailRegistered(c: Calls)
    requires OpenRegistered(c) && |c.requests| == |c.futures|
    ensures OpenRegistered(FailPending(c))
  {
    forall id: nat | id < |c.requests| && Registers(c, id)
      ensures Requests.Held(c.pendingXml, id) || Requests.Held(c.pendingBin, id)
    {
      HeldIf(c, id);
    }
    assert forall id: nat :: Current(FailPending(c), id) <==> Current(c, id);
  }

  lemma HeldIf(c: Calls, id: nat)
    requires id < |c.requests| && Registers(c, id)
    ensures Requests.Held(c.pendingXml, id) || Requests.Held(c.pendingBin, id)
  {
    var q := c.requests[id].sequence;
    assert (q in c.pendingXml && c.pendingXml[q] == id) || (q in c.pendingBin && c.pendingBin[q] == id);
  }

  lemma WakeRegistered(c: Calls, received: seq<Frame>)
    requires CanWake(c, received)
    ensures OpenRegistered(Woken(c, received))
  {
    hide FeedOne;
    var d := Woken(c, received);
    assert forall id: nat :: !Current(d, id);
  }

  /** The calls part of a dispatch. */
  function Heeded(c: Calls, f: Frame, at: nat): Calls
    requires 0 <= f.sequence < 0x1_0000_0000
  {
    var d := Heard(c, f);
    if IsReply(f, Xml) then SettleReply(d, f, Xml, at)
    else if IsReply(f, Binary) then SettleReply(d, f, Binary, at) else d
  }

  lemma DispatchHeeds(env: Env, s: State, f: Frame)
    requires FromDecoder(f)
    ensures var t := Dispatch(env, s, f);
      && t.calls == Heeded(s.calls, f, |s.received|)
      && t.received == s.received + [f] && t.receivedAt == s.receivedAt + [s.now] && t.lastReceived == s.now
  {
    AckedFrame(env, Noted(s, f), f);
    hide Acked;
    hide Heard;
    hide SettleReply;
  }

  lemma HeededRequests(c: Calls, f: Frame, at: nat)
    requires 0 <= f.sequence < 0x1_0000_0000
    ensures Heeded(c, f, at).requests == c.requests
  {
  }

  lemma DispatchRegistered(env: Env, s: State, f: Frame)
    requires FromDecoder(f) && OneOpen(s.calls) && OpenRegistered(s.calls)
    ensures OpenRegistered(Dispatch(env, s, f).calls)
  {
    DispatchHeeds(env, s, f);
    hide Dispatch;
    var c := Heard(s.calls, f);
    assert OneOpen(c) && OpenRegistered(c);
    hide OneOpen;
    hide OpenRegistered;
    hide SettleReply;
    SettleRegistered(c, f, Xml, |s.received|);
    SettleRegistered(c, f, Binary, |s.received|);
  }

  lemma StepRegistered(env: Env, s: State, a: Action)
    requires UsableKey(env.key) && OneOpen(s.calls) && OpenRegistered(s.calls) && SessionModel.Enabled(s, a)
    ensures OpenRegistered(SessionModel.Next(env, s, a).calls)
  {
    hide Encode;
    hide Requested;
    hide Woken;
    hide FailPending;
    hide OneOpen;
    match a {
      case Receive(f) => DispatchRegistered(env, Greeted(s, f), f); hide Dispatch; hide OpenRegistered;
      case QuietOver =>
        if !s.out.closed && Sendable(s.calls.command.value.task) {
          SameLengths(s.calls);
          RequestRegistered(s.calls, |s.received|, Encode(CommandFrame(env, s), env.key).Ok?);
          hide OpenRegistered;
        }
      case Wake => WakeRegistered(s.calls, s.received); hide OpenRegistered;
      case Teardown => SameLengths(s.calls); FailRegistered(s.calls); hide OpenRegistered;
      case _ =>
    }
  }

  lemma SameLengths(c: Calls)
    requires OneOpen(c)
    ensures |c.requests| == |c.futures|
  {
  }

  // ----- Command frames go out for requests -----

  lemma {:induction false} ImagesKept(receiverId: int, received: seq<Frame>, later: seq<Frame>, requests: seq<Request>)
    requires received <= later && forall i :: 0 <= i < |requests| ==> requests[i].after <= |received|
    ensures CommandImages(receiverId, later, requests) == CommandImages(receiverId, received, requests)
  {
    if requests != [] {
      ImagesKept(receiverId, received, later, requests[..|requests| - 1]);
    }
  }

  lemma DeliverCommands(env: Env, s: State, f: Frame)
    requires UsableKey(env.key) && FromDecoder(f) && Inv(env, s) && CommandsMatch(env, s)
    ensures CommandsMatch(env, Deliver(env, s, f))
  {
    var b, t := Greeted(s, f), Deliver(env, s, f);
    InvFacts(env, s);
    hide Inv;
    hide Dispatch;
    hide Kindred;
    hide Conserved;
    DispatchPosts(env, b, f);
    RecordsConserves(env, b, f, t);
    DispatchHeeds(env, b, f);
    HeededRequests(b.calls, f, |b.received|);
    hide Heeded;
    hide Records;
    DispatchNames(env, b, f);
    ImagesKept(env.receiverId, s.received, t.received, s.calls.requests);
    hide CommandImages;
  }

  lemma InvFacts(env: Env, s: State)
    requires Inv(env, s)
    ensures Conserved(s.out) && OneOpen(s.calls)
    ensures forall i :: 0 <= i < |s.calls.requests| ==> s.calls.requests[i].after <= |s.received|
    ensures s.handshake <==> s.received != []
  {
    hide Fresh;
    hide Timely;
  }

  lemma DispatchNames(env: Env, s: State, f: Frame)
    requires UsableKey(env.key) && FromDecoder(f)
    ensures Dispatch(env, s, f).panelId == s.panelId && Dispatch(env, s, f).received == s.received + [f]
  {
    DispatchPosts(env, s, f);
    hide Dispatch;
  }

  lemma PostCommands(env: Env, s: State)
    requires UsableKey(env.key) && CommandsMatch(env, s) && s.calls.command.Some?
    ensures CommandsMatch(env, PostRequest(env, s))
  {
    RequestFrameEncodes(env, s);
    hide Encode;
    hide Payload;
    var c, frame, n := s.calls, CommandFrame(env, s), |s.received|;
    var sent := Encode(frame, env.key);
    ImagesGrow(env, s, sent.Ok?);
    if sent.Ok? {
      PostKindred(s.out, frame, sent.value.wire, true, s.now, n, true);
    }
    hide CommandFrame;
    hide CommandImages;
    hide Requested;
    hide Kindred;
    hide Post;
  }

  lemma ImagesGrow(env: Env, s: State, sent: bool)
    requires s.calls.command.Some? && s.panelId == PanelOf(s.received)
    requires sent <==> |Payload(s.calls.command.value.task, s.calls.command.value.replies != [])| <= 65514
    ensures CommandImages(env.receiverId, s.received, Requested(s.calls, |s.received|, sent).requests)
         == CommandImages(env.receiverId, s.received, s.calls.requests)
            + (if sent then [CommandFrame(env, s)] else [])
  {
    hide Payload;
    var c := s.calls;
    var requests := Requested(c, |s.received|, sent).requests;
    assert requests[..|c.requests|] == c.requests;
    assert CommandImage(env.receiverId, s.received, requests[|c.requests|]) == CommandFrame(env, s);
  }

  lemma StepCommands(env: Env, s: State, a: Action)
    requires UsableKey(env.key) && Inv(env, s) && CommandsMatch(env, s) && SessionModel.Enabled(s, a)
    ensures CommandsMatch(env, SessionModel.Next(env, s, a))
  {
    hide Inv;
    hide PostRequest;
    hide CommandImages;
    hide Kindred;
    if a.Receive? {
      hide CommandsMatch;
      DeliverCommands(env, s, a.frame);
    } else {
      if a.QuietOver? && !s.out.closed && Sendable(s.calls.command.value.task) {
        PostCommands(env, s);
      }
      hide Woken;
      if a.Wake? { WokenSame(s.calls, s.received); }
      hide EventStream.Next;
    }
  }

  // ----- All of it, in every reachable session -----

  ghost predicate Kept(env: Env, s: State) {
    Inv(env, s) && OpenRegistered(s.calls) && CommandsMatch(env, s)
  }

  lemma StepKept(env: Env, s: State, a: Action)
    requires UsableKey(env.key) && Kept(env, s) && SessionModel.Enabled(s, a)
    ensures Kept(env, SessionModel.Next(env, s, a))
  {
    InvFacts(env, s);
    hide *;
    StepKeepsInv(env, s, a);
    StepRegistered(env, s, a);
    StepCommands(env, s, a);
  }

  lemma {:induction false} RunKept(env: Env, s: State, actions: seq<Action>)
    requires UsableKey(env.key) && Kept(env, s) && SessionModel.Runs(env, s, actions)
    ensures Kept(env, SessionModel.After(env, s, actions))
    decreases |actions|
  {
    hide Kept;
    hide SessionModel.Next;
    hide SessionModel.Enabled;
    if actions != [] {
      StepKept(env, s, actions[0]);
      RunKept(env, SessionModel.Next(env, s, actions[0]), actions[1..]);
    }
  }

  lemma ReachableKept(env: Env, s: State)
    requires UsableKey(env.key) && Reachable(env, s)
    ensures Kept(env, s)
  {
    var actions: seq<Action> :| SessionModel.Runs(env, START, actions) && s == SessionModel.After(env, START, actions);
    StartKept(env);
    hide *;
    RunKept(env, START, actions);
  }

  lemma StartKept(env: Env)
    ensures Kept(env, START)
  {
    StartInv(env);
    hide Inv;
  }

  // ----- Answers -----

  /** POLL, HELLO and EVENT_PUSH, by their major and minor codes. */
  predicate Asks(f: Frame) {
    (f.major == 1 && f.minor == 0) || (f.major == 1 && f.minor == 2) || (f.major == 2 && f.minor == 0)
  }

  function Asking(received: seq<Frame>): seq<Frame> {
    if received == [] then []
    else
      var f := received[|received| - 1];
      Asking(received[..|received| - 1]) + (if Asks(f) then [f] else [])
  }

  /** POLL_ACK, HELLO_ACK or EVENT_ACK: the frame comes back with the minor code one higher, from
      the receiver to the panel. */
  function Answer(receiverId: int, panelId: int, f: Frame): Frame {
    Frame(receiverId, panelId, f.sequence, f.major, f.minor + 1, f.payload, 0, 0x08)
  }

  lemma {:induction false} AcksAreAnswers(env: Env, panelId: int, received: seq<Frame>)
    ensures var acks, asking := Acks(env, panelId, received), Asking(received);
      && |acks| == |asking|
      && forall i :: 0 <= i < |acks| ==> acks[i] == Answer(env.receiverId, panelId, asking[i])
  {
    if received != [] {
      AcksAreAnswers(env, panelId, received[..|received| - 1]);
    }
  }

  /** In every reachable session the frames posted that are not commands answer, one by one and
      in order, the received frames that ask: to the source of the first frame, with the same
      sequence, major code and payload, and the minor code one higher. */
  lemma AnswersExact(env: Env, s: State)
    requires UsableKey(env.key) && Reachable(env, s)
    ensures var answers, asking := Kindred(s.out.posted, false), Asking(s.received);
      && |answers| == |asking|
      && forall i :: 0 <= i < |asking| ==>
           s.received != [] && answers[i] == Answer(env.receiverId, s.received[0].srcId, asking[i])
  {
    ReachableInv(env, s);
    InvAnswers(env, s);
    hide *;
  }

  lemma InvAnswers(env: Env, s: State)
    requires Inv(env, s)
    ensures var answers, asking := Kindred(s.out.posted, false), Asking(s.received);
      && |answers| == |asking|
      && forall i :: 0 <= i < |asking| ==>
           s.received != [] && answers[i] == Answer(env.receiverId, s.received[0].srcId, asking[i])
  {
    AcksAreAnswers(env, s.panelId, s.received);
    hide Acks;
    hide Kindred;
    hide CallsOk;
    hide Fresh;
    hide Timely;
    hide Conserved;
  }

  /** The answer to any frame a decoder can deliver encodes. */
  lemma AnswerEncodes(env: Env, panelId: int, f: Frame)
    requires UsableKey(env.key) && FromDecoder(f)
    ensures Encode(Answer(env.receiverId, panelId, f), env.key).Ok?
  {
    EncodeBound(Answer(env.receiverId, panelId, f), env.key);
  }

  // ----- Requests -----

  /** The command frames posted are, in order, those of the requests made whose payload is at
      most 65514 bytes. */
  lemma CommandsExact(env: Env, s: State)
    requires UsableKey(env.key) && Reachable(env, s)
    ensures Kindred(s.out.posted, true) == CommandImages(env.receiverId, s.received, s.calls.requests)
  {
    ReachableKept(env, s);
    hide Inv;
  }

  /** The payload of a request: opcode, area and zero; or the fragment marker, then the text. */
  predicate AsksFor(r: Request, task: Task, first: bool) {
    match task
    case BinaryTask(op, target) => r.kind.Binary? && r.payload == [op, target, 0]
    case XmlTask(text) =>
      && r.kind.Xml? && |r.payload| == 1 + |text| && r.payload[0] == (if first then 0x01 else 0x02)
      && forall k :: 0 <= k < |text| ==> text[k] as int < 128 && r.payload[1 + k] as int == text[k] as int
  }

  lemma ExchangeAsks(
    task: Task, ids: seq<nat>, replies: seq<seq<byte>>, c: Calls, received: seq<Frame>, j: nat)
    requires Exchange(task, ids, replies, c, received) && j < |ids|
    ensures ids[j] < |c.requests| && AsksFor(c.requests[ids[j]], task, j == 0)
  {
  }

  /** Every request of a command asks for what the command was called with: each of a running
      one, and each of a finished one. */
  lemma RequestsAsk(env: Env, s: State, j: nat)
    requires UsableKey(env.key) && Reachable(env, s)
    ensures s.calls.command.Some? && j < |s.calls.command.value.ids| ==>
      var cmd := s.calls.command.value;
      cmd.ids[j] < |s.calls.requests| && AsksFor(s.calls.requests[cmd.ids[j]], cmd.task, j == 0)
    ensures forall n :: 0 <= n < |s.calls.finished| && j < |s.calls.finished[n].ids| ==>
      var x := s.calls.finished[n];
      x.ids[j] < |s.calls.requests| && AsksFor(s.calls.requests[x.ids[j]], x.task, j == 0)
  {
    ReachableInv(env, s);
    InvCalls(env, s);
    hide Reachable;
    hide Inv;
    hide Exchange;
    hide AsksFor;
    hide OneOpen;
    hide Correlated;
    var c := s.calls;
    if c.command.Some? && j < |c.command.value.ids| {
      ExchangeAsks(c.command.value.task, c.command.value.ids, c.command.value.replies, c, s.received, j);
    }
    forall n | 0 <= n < |c.finished| && j < |c.finished[n].ids|
      ensures c.finished[n].ids[j] < |c.requests|
      ensures AsksFor(c.requests[c.finished[n].ids[j]], c.finished[n].task, j == 0)
    {
      assert FinishedOk(c.finished[n], c, s.received);
      ExchangeAsks(c.finished[n].task, c.finished[n].ids, c.finished[n].replies, c, s.received, j);
    }
  }

  /** When a command that waits to send may go on: 100 ms after the last dispatched frame, or
      once the session has closed. */
  lemma QuietTime(env: Env, s: State)
    requires s.calls.command.Some? && s.calls.command.value.phase.Quiet?
    ensures SessionModel.Enabled(s, QuietOver) <==> s.out.closed || s.now >= s.lastReceived + 100
  {
  }

  /** A command past its quiet time on an open session, its text ASCII: one request more, with
      the next sequence modulo 2^32 and a future of its own that it awaits under that sequence. */
  lemma RequestMade(env: Env, s: State)
    requires UsableKey(env.key) && Reachable(env, s)
    requires SessionModel.Enabled(s, QuietOver) && !s.out.closed && Sendable(s.calls.command.value.task)
    requires |Payload(s.calls.command.value.task, s.calls.command.value.replies != [])| <= 65514
    ensures var c, d, id := s.calls, SessionModel.Next(env, s, QuietOver).calls, |s.calls.futures|;
      && d.futures == c.futures + [Pending] && |d.requests| == id + 1 && d.requests[..id] == c.requests
      && d.requests[id].sequence as int == (c.nextSeq as int + 1) % 0x1_0000_0000
      && d.nextSeq == d.requests[id].sequence && d.requests[id].after == |s.received|
      && Current(d, id) && Registers(d, id)
      && d.command.value.task == c.command.value.task && d.command.value.phase == Awaiting(None)
    ensures var o, p := s.out, SessionModel.Next(env, s, QuietOver).out;
      && |p.posted| == |o.posted| + 1 && p.posted[..|o.posted|] == o.posted
      && var sent := p.posted[|o.posted|];
      sent.command && sent.at == s.now && sent.after == |s.received|
  {
    ReachableInv(env, s);
    InvCalls(env, s);
    RequestFrameEncodes(env, s);
    hide Inv;
    hide Reachable;
    hide CallsOk;
    hide Fresh;
    hide Payload;
    hide Encode;
    RegisteredExactly(s.calls, |s.received|);
    hide Registered;
    hide Current;
    hide Registers;
  }

  lemma RegisteredExactly(c: Calls, received: nat)
    requires c.command.Some? && |c.requests| == |c.futures|
    ensures var d, id := Registered(c, received), |c.futures|;
      && d.futures == c.futures + [Pending] && |d.requests| == id + 1 && d.requests[..id] == c.requests
      && d.requests[id].sequence as int == (c.nextSeq as int + 1) % 0x1_0000_0000
      && d.nextSeq == d.requests[id].sequence && d.requests[id].after == received
      && Current(d, id) && Registers(d, id)
      && d.command.value.task == c.command.value.task && d.command.value.phase == Awaiting(None)
  {
    hide Payload;
  }

  // ----- Replies -----

  /** What a reply frame of the awaited kind and sequence does to an open awaited future. */
  predicate Resolves(c: Calls, f: Frame, id: nat)
    requires id < |c.futures| && id < |c.requests|
  {
    && c.futures[id].Pending?
    && (  (f.major == 10 && f.minor == 1 && f.sequence in c.pendingXml && c.pendingXml[f.sequence] == id)
       || (f.major == 4 && f.minor == 2 && f.sequence in c.pendingBin && c.pendingBin[f.sequence] == id))
  }

  lemma HeededExactly(c: Calls, f: Frame, at: nat, id: nat)
    requires 0 <= f.sequence < 0x1_0000_0000 && id < |c.futures| == |c.requests|
    ensures var d := Heeded(c, f, at);
      && d.nextSeq as int == (if f.sequence > c.nextSeq as int then f.sequence else c.nextSeq as int)
      && d.command == c.command && d.requests == c.requests && |d.futures| == |c.futures|
      && d.futures[id] == if Resolves(c, f, id) then Resolved(at) else c.futures[id]
  {
  }

  /** A received frame settles the one open future registered under its kind and sequence, with
      itself, and touches no other future; it moves the counter up to its sequence at most. */
  lemma ReceivedSettles(env: Env, s: State, f: Frame, id: nat)
    requires UsableKey(env.key) && Reachable(env, s) && FromDecoder(f) && id < |s.calls.futures|
    ensures id < |s.calls.requests|
    ensures var t := Deliver(env, s, f);
      && t.received == s.received + [f] && t.receivedAt == s.receivedAt + [s.now] && t.lastReceived == s.now
      && t.calls.nextSeq as int == (if f.sequence > s.calls.nextSeq as int then f.sequence else s.calls.nextSeq as int)
      && t.calls.command == s.calls.command && t.calls.requests == s.calls.requests
      && |t.calls.futures| == |s.calls.futures|
      && t.calls.futures[id] == if Resolves(s.calls, f, id) then Resolved(|s.received|) else s.calls.futures[id]
  {
    ReachableInv(env, s);
    InvCalls(env, s);
    hide Reachable;
    hide Inv;
    hide CallsOk;
    hide Fresh;
    hide Resolves;
    hide Dispatch;
    DispatchHeeds(env, Greeted(s, f), f);
    HeededExactly(s.calls, f, |s.received|, id);
    hide Heeded;
  }

  /** A reply to the request that the running command awaits, while its future is open, always
      reaches it: the future is resolved with the frame and the command can go on. */
  lemma ReplyReaches(env: Env, s: State, f: Frame, id: nat)
    requires UsableKey(env.key) && Reachable(env, s) && FromDecoder(f)
    requires Current(s.calls, id) && id < |s.calls.futures| && s.calls.futures[id].Pending?
    requires id < |s.calls.requests| && f.sequence == s.calls.requests[id].sequence
    requires if s.calls.requests[id].kind.Xml? then f.major == 10 && f.minor == 1 else f.major == 4 && f.minor == 2
    ensures var t := Deliver(env, s, f);
      id < |t.calls.futures| && t.calls.futures[id] == Resolved(|s.received|) && SessionModel.Enabled(t, Wake)
  {
    ReachableKept(env, s);
    KeptRegisters(env, s, id);
    ReceivedSettles(env, s, f, id);
    hide Reachable;
    hide Kept;
    hide Deliver;
    RegisteredResolves(s.calls, f, id);
    hide Registers;
  }

  lemma RegisteredResolves(c: Calls, f: Frame, id: nat)
    requires id < |c.futures| && id < |c.requests| && c.futures[id].Pending? && Registers(c, id)
    requires f.sequence == c.requests[id].sequence
    requires if c.requests[id].kind.Xml? then f.major == 10 && f.minor == 1 else f.major == 4 && f.minor == 2
    ensures Resolves(c, f, id)
  {
  }

  lemma KeptRegisters(env: Env, s: State, id: nat)
    requires Kept(env, s) && Current(s.calls, id) && id < |s.calls.futures| && id < |s.calls.requests|
    requires s.calls.futures[id].Pending?
    ensures Registers(s.calls, id)
  {
    hide Inv;
  }

  // ----- Disconnects -----

  /** A value of one of the two pending maps. */
  ghost predicate IsPending(c: Calls, id: nat) {
    || (exists q :: q in c.pendingXml && c.pendingXml[q] == id)
    || (exists q :: q in c.pendingBin && c.pendingBin[q] == id)
  }

  /** The teardown fails every open future in the two maps, empties both, and changes no other
      future. */
  lemma TeardownFails(s: State, env: Env, id: nat)
    requires id < |s.calls.futures|
    ensures var t := SessionModel.Next(env, s, Teardown);
      && t.calls.pendingXml == map[] && t.calls.pendingBin == map[]
      && |t.calls.futures| == |s.calls.futures|
      && t.calls.futures[id] == (if s.calls.futures[id].Pending? && IsPending(s.calls, id) then Failed
                                 else s.calls.futures[id])
      && t.out.closed && t.out.teardownRequested && t.tornDown
      && t.calls.command == s.calls.command && t.calls.requests == s.calls.requests && t.received == s.received
  {
    HeldIsPending(s.calls, id);
    hide IsPending;
    hide Requests.Held;
  }

  lemma HeldIsPending(c: Calls, id: nat)
    ensures IsPending(c, id) <==> Requests.Held(c.pendingXml, id) || Requests.Held(c.pendingBin, id)
  {
  }

  /** Once the teardown has run, no caller is left waiting: with encodable requests, no future
      is open in any later state. */
  lemma TornDownSettled(env: Env, s: State, id: nat)
    requires UsableKey(env.key) && Reachable(env, s) && s.tornDown && NoneTooBig(s.calls)
    requires id < |s.calls.futures|
    ensures !s.calls.futures[id].Pending?
  {
    ReachableKept(env, s);
    hide Reachable;
    KeptOpen(env, s, id);
    hide Kept;
  }

  lemma KeptOpen(env: Env, s: State, id: nat)
    requires Kept(env, s) && id < |s.calls.futures|
    ensures id < |s.calls.requests|
    ensures s.calls.futures[id].Pending? ==>
      TooBig(s.calls.requests[id]) || (Current(s.calls, id) && Registers(s.calls, id))
    ensures s.tornDown ==> s.calls.pendingXml == map[] && s.calls.pendingBin == map[]
  {
    InvFacts(env, s);
    hide Fresh;
    hide Correlated;
    hide CommandOk;
    hide AllFinishedOk;
    hide Acknowledged;
    hide Timely;
    hide Conserved;
    hide CommandsMatch;
  }

  // ----- How commands end -----

  /** The running command of `c` has ended in `d`, and how. */
  predicate Ends(c: Calls, d: Calls, how: Ending) {
    && c.command.Some? && d.command.None?
    && |d.finished| == |c.finished| + 1 && d.finished[..|c.finished|] == c.finished
    && d.finished[|c.finished|].task == c.command.value.task && d.finished[|c.finished|].ending == how
  }

  /** The future of the running command has left the pending maps. */
  predicate Gone(c: Calls, d: Calls)
    requires c.command.Some? && c.command.value.ids != [] && AwaitedId(c.command.value) < |c.requests|
  {
    var r := c.requests[AwaitedId(c.command.value)];
    if r.kind.Xml? then r.sequence !in d.pendingXml else r.sequence !in d.pendingBin
  }

  lemma AwaitedFacts(env: Env, s: State)
    requires UsableKey(env.key) && Reachable(env, s)
    requires s.calls.command.Some? && s.calls.command.value.phase.Awaiting?
    ensures var c := s.calls;
      && c.command.value.ids != [] && AwaitedId(c.command.value) < |c.futures| == |c.requests|
      && var id := AwaitedId(c.command.value);
      && Current(c, id)
      && (c.futures[id].Pending? ==> Registers(c, id))
      && (c.futures[id].Resolved? ==> c.futures[id].at < |s.received|)
  {
    ReachableKept(env, s);
    ReachableInv(env, s);
    InvCalls(env, s);
    AwaitedInRange(s.calls, s.received);
    hide Reachable;
    hide CommandOk;
    hide AllFinishedOk;
    hide OneOpen;
    if s.calls.futures[AwaitedId(s.calls.command.value)].Pending? {
      KeptRegisters(env, s, AwaitedId(s.calls.command.value));
    }
    hide Kept;
    hide Inv;
    hide Registers;
  }

  /** After a disconnect the awaiting command can go on at once; unless its reply or an expiry
      came first, it ends with the connection lost. */
  lemma TeardownEndsCommand(env: Env, s: State)
    requires UsableKey(env.key) && Reachable(env, s)
    requires s.calls.command.Some? && s.calls.command.value.phase.Awaiting?
    ensures var c, t := s.calls, SessionModel.Next(env, s, Teardown);
      && SessionModel.Enabled(t, Wake)
      && c.command.value.ids != [] && AwaitedId(c.command.value) < |c.futures|
      && (c.command.value.phase.expired.None? && c.futures[AwaitedId(c.command.value)].Pending? ==>
            Ends(t.calls, SessionModel.Next(env, t, Wake).calls, ConnectionLost))
  {
    AwaitedFacts(env, s);
    hide Reachable;
    var c, id := s.calls, AwaitedId(s.calls.command.value);
    TeardownFails(s, env, id);
    assert c.futures[id].Pending? ==> IsPending(c, id) by {
      if c.futures[id].Pending? { RegistersIsPending(c, id); }
    }
    hide IsPending;
    hide Registers;
    hide FailPending;
    var t := SessionModel.Next(env, s, Teardown);
    if c.command.value.phase.expired.None? && c.futures[id].Pending? {
      WakeFailed(t.calls, t.received);
    }
    hide Woken;
  }

  lemma RegistersIsPending(c: Calls, id: nat)
    requires id < |c.requests| && Registers(c, id)
    ensures IsPending(c, id)
  {
  }

  lemma WakeFailed(c: Calls, received: seq<Frame>)
    requires CanWake(c, received) && c.command.value.phase.expired.None?
    requires c.futures[AwaitedId(c.command.value)].Failed?
    ensures Ends(c, Woken(c, received), ConnectionLost) && Gone(c, Woken(c, received))
  {
  }

  /** A timeout or a cancellation while awaiting a reply ends the command as such, even if the
      reply came in the meantime, and its future leaves the maps. */
  lemma ExpiryEndsCommand(env: Env, s: State, reason: Reason)
    requires UsableKey(env.key) && Reachable(env, s) && SessionModel.Enabled(s, Expire(reason))
    ensures var t := SessionModel.Next(env, s, Expire(reason));
      && SessionModel.Enabled(t, Wake)
      && var u := SessionModel.Next(env, t, Wake);
      && Ends(s.calls, u.calls, if reason.TimedOut? then Timeout else WasCancelled)
      && AwaitedId(s.calls.command.value) < |s.calls.requests| && Gone(s.calls, u.calls)
  {
    AwaitedFacts(env, s);
    hide Reachable;
    hide Registers;
    var c := s.calls;
    var d := Expired(c, AwaitedId(c.command.value), reason);
    WakeExpired(d, s.received);
    hide Woken;
  }

  lemma WakeExpired(c: Calls, received: seq<Frame>)
    requires CanWake(c, received) && c.command.value.phase.expired.Some?
    ensures var how := if c.command.value.phase.expired.value.TimedOut? then Timeout else WasCancelled;
      Ends(c, Woken(c, received), how) && Gone(c, Woken(c, received))
  {
  }

  /** A command that has not sent yet ends as a timeout or a cancellation tells it, or with the
      connection lost if the session has closed, at the start or after the quiet wait; a text
      that is not ASCII costs it a sequence. None of these makes a request. */
  lemma UnsentEnds(env: Env, s: State)
    ensures forall reason :: SessionModel.Enabled(s, QuietFails(reason)) ==>
      Ends(s.calls, SessionModel.Next(env, s, QuietFails(reason)).calls,
           if reason.TimedOut? then Timeout else WasCancelled)
    ensures forall task :: SessionModel.Enabled(s, Begin(task)) ==>
      var d := SessionModel.Next(env, s, Begin(task)).calls;
      if s.out.closed
      then d.command.None? && d.finished == s.calls.finished + [Finished(task, [], [], ConnectionLost)]
      else d == s.calls.(command := Some(Command(task, [], [], [], Quiet)))
    ensures SessionModel.Enabled(s, QuietOver) && s.out.closed ==>
      Ends(s.calls, SessionModel.Next(env, s, QuietOver).calls, ConnectionLost)
    ensures SessionModel.Enabled(s, QuietOver) && !s.out.closed && !Sendable(s.calls.command.value.task) ==>
      var d := SessionModel.Next(env, s, QuietOver).calls;
      && Ends(s.calls, d, NotAscii) && d.futures == s.calls.futures && d.requests == s.calls.requests
      && d.nextSeq as int == (s.calls.nextSeq as int + 1) % 0x1_0000_0000
  {
    hide PostRequest;
    hide Sendable;
  }

  /** A request too long to encode ends its command with that error and posts nothing; its
      future stays behind, open and registered. */
  lemma OversizeEnds(env: Env, s: State)
    requires UsableKey(env.key) && |s.calls.requests| == |s.calls.futures|
    requires SessionModel.Enabled(s, QuietOver) && !s.out.closed && Sendable(s.calls.command.value.task)
    requires |Payload(s.calls.command.value.task, s.calls.command.value.replies != [])| > 65514
    ensures var t, id := SessionModel.Next(env, s, QuietOver), |s.calls.futures|;
      && Ends(s.calls, t.calls, Unencodable) && t.out == s.out
      && t.calls.futures == s.calls.futures + [Pending] && |t.calls.requests| == id + 1 && Registers(t.calls, id)
  {
    RequestFrameEncodes(env, s);
    hide Encode;
    hide Payload;
    RegisteredExactly(s.calls, |s.received|);
  }

  /** The reply to an area command decides how it ends. */
  lemma AreaReplyEnds(c: Calls, received: seq<Frame>)
    requires CanWake(c, received) && c.command.value.phase.expired.None?
    requires c.command.value.task.BinaryTask? && c.futures[AwaitedId(c.command.value)].Resolved?
    ensures var p := received[c.futures[AwaitedId(c.command.value)].at].payload;
      && Gone(c, Woken(c, received))
      && Ends(c, Woken(c, received),
              if p == [] then ProtocolError else if p[0] == 0xF0 then Armed else PanelRejected(p[0]))
  {
  }

  /** The reply to an XML request: its text joins what has been assembled; the command ends if
      that exceeds 1 MiB, or holds the closing tag, or if it was the 64th reply, and otherwise
      waits to ask for more. */
  lemma FragmentDecides(c: Calls, received: seq<Frame>)
    requires CanWake(c, received) && c.command.value.phase.expired.None?
    requires c.command.value.task.XmlTask? && c.futures[AwaitedId(c.command.value)].Resolved?
    ensures var p := received[c.futures[AwaitedId(c.command.value)].at].payload;
      var cmd, d := c.command.value, Woken(c, received);
      var grown := cmd.buf + (if p == [] then [] else p[1..]);
      && Gone(c, d)
      && if p != [] && |grown| > 1048576 then Ends(c, d, ProtocolError)
         else if p != [] && TagIn(grown) then Ends(c, d, Body(grown))
         else if |cmd.replies| + 1 >= 64 then Ends(c, d, ProtocolError)
         else d.command == Some(Command(cmd.task, cmd.ids, cmd.replies + [p], grown, Quiet))
  {
    var id := AwaitedId(c.command.value);
    var p := received[c.futures[id].at].payload;
    ConsumeDecides(Popped(c, id), p);
    ConsumeSame(Popped(c, id), p);
    hide Requests.Consume;
    hide TagIn;
  }

  lemma ConsumeDecides(c: Calls, p: seq<byte>)
    requires c.command.Some? && c.command.value.task.XmlTask?
    ensures var cmd, d := c.command.value, Requests.Consume(c, p);
      var grown := cmd.buf + (if p == [] then [] else p[1..]);
      if p != [] && |grown| > 1048576 then Ends(c, d, ProtocolError)
      else if p != [] && TagIn(grown) then Ends(c, d, Body(grown))
      else if |cmd.replies| + 1 >= 64 then Ends(c, d, ProtocolError)
      else d.command == Some(Command(cmd.task, cmd.ids, cmd.replies + [p], grown, Quiet))
  {
    var cmd := c.command.value;
    var grown := cmd.buf + (if p == [] then [] else p[1..]);
    TagSearch(grown);
    hide Contains;
    hide TagIn;
    assert cmd.buf + [] == cmd.buf;
  }
}
