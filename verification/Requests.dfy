/** Requests in flight: sequence allocation, futures, reply correlation, and the one command
    that holds the lock (spcedp/client.py:111-113, 192-328, 619-632). */
module Requests {
  import opened Bytes
  import opened Codec
  import opened Reassembly

  const MAX_XML_FRAGMENTS := 64
  const REPLY_OK: byte := 0xF0

  /** The opcodes of BinaryOp: AREA_SET, AREA_UNSET, AREA_SET_A and AREA_SET_B. */
  const BINARY_OPS: set<byte> := {0x01, 0x02, 0x0F, 0x10}

  datatype Kind = Xml | Binary

  /** A request frame as handed to `_send`; `after` counts the frames received before it. */
  datatype Request = Request(kind: Kind, sequence: u32, payload: seq<byte>, after: nat)

  /** A reply future; a result is named by the position of the reply among received frames. */
  datatype Future = Pending | Resolved(at: nat) | Failed | Cancelled

  datatype Reason = TimedOut | TaskCancelled

  /** What the holder of the command lock is doing: xml_command with its request text, or
      binary_command with its opcode and area. */
  datatype Task = XmlTask(xml: string) | BinaryTask(op: byte, target: byte)

  /** `Quiet` is inside _wait_to_send; `Awaiting` is inside wait_for, perhaps already expired
      but not resumed yet. */
  datatype Phase = Quiet | Awaiting(expired: Option<Reason>)

  /** The running command: its request futures in order, the reply payloads it has consumed,
      and its reply assembler's buffer. */
  datatype Command = Command(
    task: Task, ids: seq<nat>, replies: seq<seq<byte>>, buf: seq<byte>, phase: Phase)

  /** How a command ended. `Body` is the assembled XML handed to parse_reply; `Unencodable` and
      `NotAscii` are the exceptions of encode and of build_request. */
  datatype Ending =
    | Body(body: seq<byte>) | Armed | PanelRejected(code: byte)
    | Timeout | ConnectionLost | ProtocolError | WasCancelled | Unencodable | NotAscii

  datatype Finished = Finished(task: Task, ids: seq<nat>, replies: seq<seq<byte>>, ending: Ending)

  /** `wrapped` records whether the 32-bit sequence counter has ever wrapped, `issued` every
      sequence it has given out. */
  datatype Calls = Calls(
    nextSeq: u32, wrapped: bool, issued: seq<u32>,
    pendingXml: map<int, nat>, pendingBin: map<int, nat>,
    requests: seq<Request>, futures: seq<Future>,
    command: Option<Command>, finished: seq<Finished>)

  const NONE := Calls(0, false, [], map[], map[], [], [], Option<Command>.None, [])

  // ----- Steps -----

  /** What binary_command checks before it does anything. */
  predicate Acceptable(t: Task) {
    t.BinaryTask? ==> t.target >= 1 && t.op in BINARY_OPS
  }

  /** The request text encodes; opcodes and areas always do. */
  predicate Sendable(t: Task) {
    t.XmlTask? ==> IsAscii(t.xml)
  }

  function KindOf(t: Task): Kind { if t.XmlTask? then Xml else Binary }

  function Payload(t: Task, continuation: bool): seq<byte> {
    match t
    case XmlTask(xml) => BuildRequest(xml, continuation)
    case BinaryTask(op, target) => [op, target, 0]
  }

  /** `_alloc_seq`. */
  function NextSequence(c: Calls): u32 {
    if c.nextSeq == 0xFFFF_FFFF then 0 else c.nextSeq + 1
  }

  function Allocated(c: Calls): Calls {
    c.(nextSeq := NextSequence(c), wrapped := c.wrapped || c.nextSeq == 0xFFFF_FFFF,
       issued := c.issued + [NextSequence(c)])
  }

  function Ended(c: Calls, how: Ending): Calls
    requires c.command.Some?
  {
    var cmd := c.command.value;
    c.(command := None, finished := c.finished + [Finished(cmd.task, cmd.ids, cmd.replies, how)])
  }

  /** Allocating a sequence and registering a fresh future for the next request; the frame
      then goes to `_send`. */
  function Registered(c: Calls, received: nat): Calls
    requires c.command.Some?
  {
    var cmd := c.command.value;
    var a := Allocated(c);
    var id := |c.futures|;
    var request := Request(KindOf(cmd.task), a.nextSeq, Payload(cmd.task, cmd.replies != []), received);
    a.(pendingXml := if cmd.task.XmlTask? then a.pendingXml[a.nextSeq := id] else a.pendingXml,
       pendingBin := if cmd.task.XmlTask? then a.pendingBin else a.pendingBin[a.nextSeq := id],
       requests := a.requests + [request],
       futures := a.futures + [Pending],
       command := Some(cmd.(ids := cmd.ids + [id], phase := Awaiting(None))))
  }

  /** The future of an awaited request leaves the pending maps (the `finally` of a command). */
  function Popped(c: Calls, id: nat): Calls
    requires id < |c.requests|
  {
    var r := c.requests[id];
    if r.kind.Xml? then c.(pendingXml := c.pendingXml - {r.sequence})
    else c.(pendingBin := c.pendingBin - {r.sequence})
  }

  /** A timeout or task cancellation reaches the awaited future. */
  function Expired(c: Calls, id: nat, reason: Reason): Calls
    requires c.command.Some? && id < |c.futures|
  {
    c.(futures := if c.futures[id].Pending? then c.futures[id := Cancelled] else c.futures,
       command := Some(c.command.value.(phase := Awaiting(Some(reason)))))
  }

  function EndingOf(reason: Reason): Ending {
    if reason.TimedOut? then Timeout else WasCancelled
  }

  /** The command goes on with reply payload `p`. */
  function Consume(c: Calls, p: seq<byte>): Calls
    requires c.command.Some?
  {
    var cmd := c.command.value;
    var next := cmd.(replies := cmd.replies + [p]);
    var d := c.(command := Some(next));
    match cmd.task
    case BinaryTask(_, _) =>
      Ended(d, if p == [] then ProtocolError else if p[0] == REPLY_OK then Armed else PanelRejected(p[0]))
    case XmlTask(_) =>
      var (answer, buf) := FeedOne(cmd.buf, p, MAX_REPLY_BYTES);
      match answer
      case Oversize => Ended(d, ProtocolError)
      case Whole(body) => Ended(d, Body(body))
      case More =>
        if |next.replies| >= MAX_XML_FRAGMENTS then Ended(d, ProtocolError)
        else c.(command := Some(next.(buf := buf, phase := Quiet)))
  }

  /** Major and minor codes of the two kinds of reply. */
  predicate IsReply(f: Frame, kind: Kind) {
    match kind
    case Xml => f.major == 10 && f.minor == 1
    case Binary => f.major == 4 && f.minor == 2
  }

  /** The dispatch of a reply frame that is number `at` among those received. */
  function SettleReply(c: Calls, f: Frame, kind: Kind, at: nat): Calls {
    var pending := if kind.Xml? then c.pendingXml else c.pendingBin;
    if f.sequence !in pending then c
    else
      var id := pending[f.sequence];
      var d := if kind.Xml? then c.(pendingXml := pending - {f.sequence})
               else c.(pendingBin := pending - {f.sequence});
      if id < |c.futures| && c.futures[id].Pending? then d.(futures := c.futures[id := Resolved(at)]) else d
  }

  /** `fail_pending`. */
  function FailPending(c: Calls): Calls {
    c.(pendingXml := map[], pendingBin := map[],
       futures := seq(|c.futures|, i requires 0 <= i < |c.futures| =>
         if (Held(c.pendingXml, i) || Held(c.pendingBin, i)) && c.futures[i].Pending? then Failed
         else c.futures[i]))
  }

  predicate Held(pending: map<int, nat>, id: nat) {
    exists q :: q in pending && pending[q] == id
  }

  /** The command's next request: registered, and abandoned at once if its frame does not
      encode, because that exception escapes before the command's `try`. */
  function Requested(c: Calls, received: nat, encodes: bool): Calls
    requires c.command.Some?
  {
    var d := Registered(c, received);
    if encodes then d else Ended(d, Unencodable)
  }

  /** A request text that is not ASCII: build_request raises when the sequence has already been
      allocated, and before a future exists. */
  function Spent(c: Calls): Calls
    requires c.command.Some?
  {
    Ended(Allocated(c), NotAscii)
  }

  /** The future a command awaits. */
  function AwaitedId(cmd: Command): nat
    requires cmd.ids != []
  {
    cmd.ids[|cmd.ids| - 1]
  }

  predicate CanWake(c: Calls, received: seq<Frame>) {
    && c.command.Some? && c.command.value.phase.Awaiting? && c.command.value.ids != []
    && var id := AwaitedId(c.command.value);
    && id < |c.futures| && id < |c.requests|
    && !c.futures[id].Pending?
    && (c.futures[id].Resolved? ==> c.futures[id].at < |received|)
  }

  /** The awaiting command resumes: its entry is popped, and an expiry, a failure or the
      reply decides how it goes on. */
  function Woken(c: Calls, received: seq<Frame>): Calls
    requires CanWake(c, received)
  {
    var cmd := c.command.value;
    var id := AwaitedId(cmd);
    var d := Popped(c, id);
    if cmd.phase.expired.Some? then Ended(d, EndingOf(cmd.phase.expired.value))
    else if c.futures[id].Resolved? then Consume(d, received[c.futures[id].at].payload)
    else Ended(d, ConnectionLost)
  }

  // ----- Correlation -----

  /** A request whose frame encode refuses; its entry is registered all the same. */
  predicate TooBig(r: Request) {
    |r.payload| > MAX_PAYLOAD
  }

  predicate Current(c: Calls, id: nat) {
    c.command.Some? && c.command.value.phase.Awaiting?
    && c.command.value.ids != [] && AwaitedId(c.command.value) == id
  }

  predicate PendingOk(pending: map<int, nat>, kind: Kind, c: Calls) {
    forall q :: q in pending ==>
      && pending[q] < |c.requests|
      && c.requests[pending[q]].kind == kind && c.requests[pending[q]].sequence == q
      && (Current(c, pending[q]) || TooBig(c.requests[pending[q]]))
  }

  /** Only the awaited request, or one that could not be encoded, is still open. */
  predicate OneOpen(c: Calls) {
    && |c.requests| == |c.futures|
    && (forall id :: 0 <= id < |c.futures| && c.futures[id].Pending? ==>
          Current(c, id) || TooBig(c.requests[id]))
    && PendingOk(c.pendingXml, Xml, c) && PendingOk(c.pendingBin, Binary, c)
  }

  /** A settled future names a reply frame of the request's own kind and sequence, received
      after the request was made. */
  predicate RightReply(r: Request, at: nat, received: seq<Frame>) {
    r.after <= at < |received| && IsReply(received[at], r.kind) && received[at].sequence == r.sequence
  }

  predicate Correlated(c: Calls, received: seq<Frame>) {
    && |c.requests| == |c.futures|
    && (forall id :: 0 <= id < |c.requests| ==> c.requests[id].after <= |received|)
    && forall id :: 0 <= id < |c.futures| && c.futures[id].Resolved? ==>
         RightReply(c.requests[id], c.futures[id].at, received)
  }

  /** Requests and replies of one command, in step: the first request is marked first, the
      others as continuations, and each reply is the payload that settled its request. */
  predicate Exchange(task: Task, ids: seq<nat>, replies: seq<seq<byte>>, c: Calls, received: seq<Frame>) {
    && |c.requests| == |c.futures| && |replies| <= |ids| && (ids != [] ==> Sendable(task))
    && (forall j :: 0 <= j < |ids| ==>
          && ids[j] < |c.requests| && c.requests[ids[j]].kind == KindOf(task)
          && c.requests[ids[j]].payload == Payload(task, j > 0))
    && (forall j :: 0 <= j < |replies| ==>
          && c.futures[ids[j]].Resolved? && c.futures[ids[j]].at < |received|
          && received[c.futures[ids[j]].at].payload == replies[j])
  }

  /** The assembler asked for more after every reply so far, and holds `buf`. */
  predicate Gathered(replies: seq<seq<byte>>, buf: seq<byte>) {
    var (answers, left) := FeedAll([], replies, MAX_REPLY_BYTES);
    left == buf && forall i :: 0 <= i < |answers| ==> answers[i] == More
  }

  /** The assembler asked for more after every one of these replies. */
  predicate AllMore(replies: seq<seq<byte>>) {
    var answers := FeedAll([], replies, MAX_REPLY_BYTES).0;
    forall i :: 0 <= i < |answers| ==> answers[i] == More
  }

  /** The assembler asked for more until the last reply, which overflowed it or was the last
      one allowed. */
  predicate Spoiled(replies: seq<seq<byte>>) {
    var answers := FeedAll([], replies, MAX_REPLY_BYTES).0;
    && replies != [] && |answers| == |replies|
    && (forall i :: 0 <= i < |answers| - 1 ==> answers[i] == More)
    && (answers[|answers| - 1] == Oversize
        || (answers[|answers| - 1] == More && |replies| == MAX_XML_FRAGMENTS))
  }

  predicate CommandOk(c: Calls, received: seq<Frame>) {
    c.command.Some? ==>
      var cmd := c.command.value;
      && Exchange(cmd.task, cmd.ids, cmd.replies, c, received)
      && |cmd.ids| == |cmd.replies| + (if cmd.phase.Awaiting? then 1 else 0)
      && (cmd.task.BinaryTask? ==> cmd.replies == [])
      && (cmd.task.XmlTask? ==> |cmd.replies| < MAX_XML_FRAGMENTS && Gathered(cmd.replies, cmd.buf))
  }

  /** What a finished command promises: a success rests on the replies to its own requests, a
      protocol error on replies that spoil the exchange, and a command that ended otherwise had
      been asking for more. */
  predicate FinishedOk(x: Finished, c: Calls, received: seq<Frame>) {
    && Exchange(x.task, x.ids, x.replies, c, received) && |x.ids| <= |x.replies| + 1
    && match x.ending
       case Body(body) =>
         && x.task.XmlTask? && 1 <= |x.replies| == |x.ids| <= MAX_XML_FRAGMENTS
         && Completes(FeedAll([], x.replies, MAX_REPLY_BYTES), |x.replies|, body)
       case Armed =>
         x.task.BinaryTask? && |x.replies| == |x.ids| == 1 && x.replies[0] != [] && x.replies[0][0] == REPLY_OK
       case PanelRejected(code) =>
         && x.task.BinaryTask? && |x.replies| == |x.ids| == 1
         && x.replies[0] != [] && x.replies[0][0] == code != REPLY_OK
       case ProtocolError =>
         if x.task.XmlTask? then Spoiled(x.replies) else |x.replies| == |x.ids| == 1 && x.replies[0] == []
       case _ =>
         if x.task.XmlTask? then AllMore(x.replies) && |x.replies| < MAX_XML_FRAGMENTS else x.replies == []
  }

  predicate AllFinishedOk(c: Calls, received: seq<Frame>) {
    forall i :: 0 <= i < |c.finished| ==> FinishedOk(c.finished[i], c, received)
  }

  predicate CallsOk(c: Calls, received: seq<Frame>) {
    OneOpen(c) && Correlated(c, received) && CommandOk(c, received) && AllFinishedOk(c, received)
  }

  // ----- What a step may do to the past -----

  /** No future is touched again once it is done, and requests are only added. */
  predicate Evolves(c: Calls, d: Calls) {
    && |c.requests| == |c.futures| <= |d.futures| == |d.requests|
    && c.requests <= d.requests
    && forall id :: 0 <= id < |c.futures| && !c.futures[id].Pending? ==> d.futures[id] == c.futures[id]
  }

  lemma ExchangeKept(
    task: Task, ids: seq<nat>, replies: seq<seq<byte>>,
    c: Calls, d: Calls, received: seq<Frame>, later: seq<Frame>)
    requires Exchange(task, ids, replies, c, received)
    requires Evolves(c, d) && received <= later
    ensures Exchange(task, ids, replies, d, later)
  {
    hide Payload;
    forall j | 0 <= j < |replies|
      ensures d.futures[ids[j]].Resolved? && d.futures[ids[j]].at < |later|
      ensures later[d.futures[ids[j]].at].payload == replies[j]
    {
      assert d.futures[ids[j]] == c.futures[ids[j]];
    }
  }

  lemma FinishedKept(c: Calls, d: Calls, received: seq<Frame>, later: seq<Frame>)
    requires AllFinishedOk(c, received) && Evolves(c, d) && received <= later
    requires d.finished == c.finished
    ensures AllFinishedOk(d, later)
  {
    hide Exchange;
    hide Evolves;
    hide Completes;
    hide FeedAll;
    forall i | 0 <= i < |d.finished| ensures FinishedOk(d.finished[i], d, later) {
      var x := d.finished[i];
      assert FinishedOk(x, c, received);
      ExchangeKept(x.task, x.ids, x.replies, c, d, received, later);
    }
  }

  lemma OneMoreFinished(c: Calls, x: Finished, received: seq<Frame>)
    requires AllFinishedOk(c, received) && FinishedOk(x, c, received)
    ensures AllFinishedOk(c.(finished := c.finished + [x], command := None), received)
  {
    var d := c.(finished := c.finished + [x], command := None);
    FinishedKept(c, d.(finished := c.finished), received, received) by {
      hide Exchange;
      hide FinishedOk;
    }
    assert FinishedOk(x, d, received) by {
      ExchangeKept(x.task, x.ids, x.replies, c, d, received, received);
      hide Exchange;
      hide Completes;
      hide FeedAll;
    }
    hide FinishedOk;
    forall i | 0 <= i < |d.finished| ensures FinishedOk(d.finished[i], d, received) {
      if i < |c.finished| {
        FinishedSame(c.finished[i], d.(finished := c.finished), d, received);
      }
    }
  }

  lemma FinishedSame(x: Finished, c: Calls, d: Calls, received: seq<Frame>)
    requires FinishedOk(x, c, received) && c.requests == d.requests && c.futures == d.futures
    ensures FinishedOk(x, d, received)
  {
    hide Completes;
    hide FeedAll;
    hide Payload;
  }
}
