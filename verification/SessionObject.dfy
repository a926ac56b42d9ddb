/** The Session object (spcedp/client.py:70-393, 588-653). Each stretch of code between two
    awaits is a method whose whole effect is one step of the session machine; the parts they
    share are methods proved against the functions that the step is made of. */
module SessionObject {
  import opened Bytes
  import opened Codec
  import opened Reassembly
  import opened SiaEvents
  import opened EventStream
  import opened WriteQueue
  import opened Requests
  import opened RequestSafety
  import opened SessionModel

  class Session {
    const env: Env
    // The fields of the source's dataclass. Futures are kept in a table and named by index.
    var panelId: int
    var nextSeq: u32
    var pendingXml: map<int, nat>
    var pendingBin: map<int, nat>
    var futures: seq<Future>
    var events: seq<SiaEvent>
    var writeQueue: seq<seq<byte>>
    var closed: bool
    var teardownRequested: bool
    var pollCount: nat
    var lastReceived: int
    // Local variables of the running coroutines: the command that holds the lock, the
    // event the consumer of events() has pulled, the frame loop, the writer task.
    var command: Option<Command>
    var pulled: seq<SiaEvent>
    var handshake: bool
    var writerUp: bool
    // The clock, as last read.
    var now: int
    // The sequence and payload of each request, local to its coroutine, and the received
    // frames, from which the payloads that settle futures are read back.
    var requests: seq<Request>
    var received: seq<Frame>
    // Histories.
    ghost var receivedAt: seq<int>
    ghost var wrapped: bool
    ghost var issued: seq<u32>
    ghost var finished: seq<Finished>
    ghost var written: seq<seq<byte>>
    ghost var posted: seq<Posted>
    ghost var emitted: seq<SiaEvent>
    ghost var queueIds: seq<nat>
    ghost var consumer: Consumer
    ghost var deliveredIds: seq<nat>
    ghost var tornDown: bool

    ghost function CallsState(): Calls
      reads this`nextSeq, this`wrapped, this`issued, this`pendingXml, this`pendingBin, this`requests, this`futures,
            this`command, this`finished
    {
      Calls(nextSeq, wrapped, issued, pendingXml, pendingBin, requests, futures, command, finished)
    }

    ghost function OutState(): Outbox
      reads this`writeQueue, this`written, this`posted, this`closed, this`teardownRequested
    {
      Outbox(writeQueue, written, posted, closed, teardownRequested)
    }

    ghost function StreamState(): Stream
      reads this`emitted, this`queueIds, this`consumer, this`deliveredIds
    {
      Stream(|emitted|, queueIds, consumer, deliveredIds)
    }

    ghost function State(): State
      reads this
    {
      SessionModel.State(panelId, handshake, received, receivedAt, lastReceived, pollCount, now,
        CallsState(), OutState(), StreamState(), emitted, tornDown, writerUp)
    }

    /** The queued and pulled events are the ones their positions name. */
    ghost predicate EventsMatch()
      reads this`events, this`queueIds, this`emitted, this`consumer, this`pulled
    {
      && |events| == |queueIds|
      && (forall i :: 0 <= i < |queueIds| ==> queueIds[i] < |emitted| && events[i] == emitted[queueIds[i]])
      && (if consumer.Holding? then consumer.id < |emitted| && pulled == [emitted[consumer.id]] else pulled == [])
    }

    /** What ties the fields together; each step keeps it. */
    ghost predicate Linked()
      reads this`events, this`queueIds, this`emitted, this`consumer, this`pulled
    {
      EventsMatch() && |events| <= EVENT_QUEUE_MAXSIZE
    }

    /** The session machine's invariant, of the state these fields stand for. */
    ghost predicate Valid()
      reads this
    {
      UsableKey(env.key) && Inv(env, State()) && Linked()
    }

    lemma StartValid()
      requires Linked() && State() == START && UsableKey(env.key)
      ensures Valid()
    {
      StartInv(env);
    }

    /** A step of the machine keeps the object valid. */
    twostate lemma StepKeepsValid(a: Action)
      requires old(Valid()) && SessionModel.Enabled(old(State()), a)
      requires Linked() && State() == SessionModel.Next(env, old(State()), a)
      ensures Valid()
    {
      hide Inv;
      hide SessionModel.Next;
      hide SessionModel.Enabled;
      StepKeepsInv(env, old(State()), a);
    }

    constructor (env: Env)
      ensures Linked() && State() == START && this.env == env
      ensures UsableKey(env.key) ==> Valid()
    {
      this.env := env;
      panelId, nextSeq, pendingXml, pendingBin, futures := 0, 0, map[], map[], [];
      events, writeQueue, closed, teardownRequested := [], [], false, false;
      pollCount, lastReceived, command, consumer, pulled := 0, 0, None, Idle, [];
      handshake, writerUp, received := false, true, [];
      receivedAt, now, wrapped, issued, requests, finished := [], 0, false, [], [], [];
      written, posted, emitted, queueIds, deliveredIds, tornDown := [], [], [], [], [], false;
      new;
      assert State() == START && Linked();
      hide *;
      if UsableKey(env.key) { StartValid(); }
    }

    // ----- Sending -----

    method RequestTeardown()
      modifies this`closed, this`teardownRequested
      ensures State() == SessionModel.Next(env, old(State()), SessionModel.RequestTeardown)
    {
      hide SendRequest;
      hide Deliver;
      closed := true;
      teardownRequested := true;
    }

    /** `_alloc_seq`. */
    method AllocSeq() returns (sequence: u32)
      modifies this`nextSeq, this`wrapped, this`issued
      ensures sequence == nextSeq && CallsState() == Allocated(old(CallsState()))
    {
      wrapped := wrapped || nextSeq == 0xFFFF_FFFF;
      nextSeq := (nextSeq as int + 1) % 0x1_0000_0000;
      sequence := nextSeq;
      issued := issued + [sequence];
    }

    /** `_send`; `ok` is false where encode raises. */
    method Send(frame: Frame, ghost isCommand: bool) returns (ok: bool)
      modifies this`writeQueue, this`closed, this`teardownRequested, this`posted
      ensures ok <==> Encode(frame, env.key).Ok?
      ensures OutState() ==
        if ok then Post(old(OutState()), frame, Encode(frame, env.key).value.wire, isCommand, now, |received|)
        else old(OutState())
    {
      hide Encode;
      var data := Encode(frame, env.key);
      if data.Err? {
        return false;
      }
      var wire := data.value.wire;
      if |writeQueue| < WRITE_QUEUE_MAXSIZE {
        writeQueue := writeQueue + [wire];
        posted := posted + [Posted(frame, wire, isCommand, now, |received|, true)];
      } else {
        posted := posted + [Posted(frame, wire, isCommand, now, |received|, false)];
        RequestTeardown();
      }
      return true;
    }

    /** `reply_echo`. */
    method ReplyEcho(req: Frame, minor: int) returns (ok: bool)
      modifies this`writeQueue, this`closed, this`teardownRequested, this`posted
      ensures var ack := Outbound(env, panelId, req.sequence, req.major, minor, req.payload);
        && (ok <==> Encode(ack, env.key).Ok?)
        && OutState() ==
           if ok then Post(old(OutState()), ack, Encode(ack, env.key).value.wire, false, now, |received|)
           else old(OutState())
    {
      hide Encode;
      ok := Send(Outbound(env, panelId, req.sequence, req.major, minor, req.payload), false);
    }

    /** One turn of `_writer_loop`: take a frame off the queue and write it. */
    method WriterTurn()
      requires writerUp && writeQueue != []
      modifies this`writeQueue, this`written
      ensures State() == SessionModel.Next(env, old(State()), SessionModel.Write)
    {
      hide SendRequest;
      hide Deliver;
      written := written + [writeQueue[0]];
      writeQueue := writeQueue[1..];
    }

    /** The writer task ends on a socket error. */
    method WriterFails()
      requires writerUp
      modifies this`writerUp
      ensures State() == SessionModel.Next(env, old(State()), WriterDies)
    {
      hide SendRequest;
      hide Deliver;
      writerUp := false;
    }

    // ----- Requests -----

    /** A command gets the lock; it fails at once if the session has closed. */
    method BeginCommand(task: Task)
      requires command.None? && Acceptable(task)
      modifies this`command, this`finished
      ensures State() == SessionModel.Next(env, old(State()), SessionModel.Begin(task))
    {
      hide SendRequest;
      hide Deliver;
      if closed {
        finished := finished + [Finished(task, [], [], ConnectionLost)];
      } else {
        command := Some(Command(task, [], [], [], Quiet));
      }
    }

    /** A timeout or a cancellation ends a command that is still waiting to send. */
    method QuitWaiting(reason: Reason)
      requires InPhase(State(), true)
      modifies this`command, this`finished
      ensures State() == SessionModel.Next(env, old(State()), QuietFails(reason))
    {
      hide SendRequest;
      hide Deliver;
      End(EndingOf(reason));
    }

    /** The running command ends. */
    method End(how: Ending)
      requires command.Some?
      modifies this`command, this`finished
      ensures CallsState() == Ended(old(CallsState()), how)
    {
      var cmd := command.value;
      finished := finished + [Finished(cmd.task, cmd.ids, cmd.replies, how)];
      command := None;
    }

    /** Allocate a sequence, create a future and register it. */
    method RegisterRequest(payload: seq<byte>) returns (sequence: u32)
      requires command.Some? && payload == Payload(command.value.task, command.value.replies != [])
      modifies this`nextSeq, this`wrapped, this`issued, this`futures, this`requests, this`pendingXml, this`pendingBin,
               this`command
      ensures sequence == NextSequence(old(CallsState()))
      ensures CallsState() == Registered(old(CallsState()), |received|)
    {
      hide Payload;
      var cmd := command.value;
      sequence := AllocSeq();
      var fut := |futures|;
      futures := futures + [Pending];
      requests := requests + [Request(KindOf(cmd.task), sequence, payload, |received|)];
      if cmd.task.XmlTask? {
        pendingXml := pendingXml[sequence := fut];
      } else {
        pendingBin := pendingBin[sequence := fut];
      }
      command := Some(cmd.(ids := cmd.ids + [fut], phase := Awaiting(None)));
    }

    lemma Parts()
      ensures State().calls == CallsState() && State().out == OutState() && State().calls.command == command
      ensures State().panelId == panelId && State().received == received && State().now == now
    {
    }

    /** The command's next request goes to `_send`. */
    method MakeRequest()
      requires command.Some?
      modifies this`nextSeq, this`wrapped, this`issued, this`futures, this`requests, this`pendingXml, this`pendingBin,
               this`command, this`finished, this`writeQueue, this`closed, this`teardownRequested, this`posted
      ensures CallsState() == PostRequest(env, old(State())).calls
      ensures OutState() == PostRequest(env, old(State())).out
    {
      hide *;
      Parts();
      PostParts(env, State());
      var cmd := command.value;
      var payload := Payload(cmd.task, cmd.replies != []);
      ghost var before := CallsState();
      var sequence := RegisterRequest(payload);
      var ok := Send(Outbound(env, panelId, sequence, if cmd.task.XmlTask? then 10 else 4, 0, payload), true);
      if !ok {
        EndRegistered(before);
      }
    }

    /** The exception out of encode ends the command with its future still registered. */
    method EndRegistered(ghost before: Calls)
      requires before.command.Some? && CallsState() == Registered(before, |received|)
      modifies this`command, this`finished
      ensures CallsState() == Requested(before, |received|, false)
    {
      hide Payload;
      End(Unencodable);
    }

    /** The exception out of build_request ends the command with its sequence allocated. */
    method SpendSequence()
      requires command.Some?
      modifies this`nextSeq, this`wrapped, this`issued, this`command, this`finished
      ensures CallsState() == Spent(old(CallsState()))
    {
      var sequence := AllocSeq();
      End(NotAscii);
    }

    /** The end of `_wait_to_send` and, unless the session has closed, the next request. */
    method SendWhenQuiet()
      requires InPhase(State(), true) && (closed || lastReceived + COMMAND_QUIET_TIME - now <= 0)
      modifies this`nextSeq, this`wrapped, this`issued, this`futures, this`requests, this`pendingXml, this`pendingBin,
               this`command, this`finished, this`writeQueue, this`closed, this`teardownRequested, this`posted
      ensures State() == SessionModel.Next(env, old(State()), QuietOver)
    {
      hide SendRequest;
      hide StreamState;
      if closed {
        End(ConnectionLost);
      } else {
        NextRequest();
      }
    }

    method NextRequest()
      requires command.Some?
      modifies this`nextSeq, this`wrapped, this`issued, this`futures, this`requests, this`pendingXml, this`pendingBin,
               this`command, this`finished, this`writeQueue, this`closed, this`teardownRequested, this`posted
      ensures State() == SendRequest(env, old(State()))
    {
      hide PostRequest;
      hide Spent;
      hide Sendable;
      hide StreamState;
      hide OutState;
      PostTouches(env, State());
      if !Sendable(command.value.task) {
        SpendSequence();
      } else {
        MakeRequest();
      }
    }

    /** A timeout or a cancellation reaches the awaiting command. */
    method ExpireWait(reason: Reason)
      requires SessionModel.Enabled(State(), Expire(reason))
      modifies this`futures, this`command
      ensures State() == SessionModel.Next(env, old(State()), Expire(reason))
    {
      hide SendRequest;
      hide Deliver;
      var cmd := command.value;
      var fut := AwaitedId(cmd);
      if futures[fut].Pending? {
        futures := futures[fut := Cancelled];
      }
      command := Some(cmd.(phase := Awaiting(Some(reason))));
    }

    /** The command goes on with the payload of its reply. */
    method ConsumeReply(p: seq<byte>)
      requires command.Some?
      modifies this`command, this`finished
      ensures CallsState() == Requests.Consume(old(CallsState()), p)
    {
      hide FeedOne;
      var cmd := command.value;
      var next := cmd.(replies := cmd.replies + [p]);
      command := Some(next);
      if cmd.task.BinaryTask? {
        End(if p == [] then ProtocolError else if p[0] == REPLY_OK then Armed else PanelRejected(p[0]));
        return;
      }
      var (answer, buf) := FeedOne(cmd.buf, p, MAX_REPLY_BYTES);
      match answer
      case Oversize => End(ProtocolError);
      case Whole(body) => End(Body(body));
      case More =>
        if |next.replies| >= MAX_XML_FRAGMENTS {
          End(ProtocolError);
        } else {
          command := Some(next.(buf := buf, phase := Quiet));
        }
    }

    /** The `finally` of a command: its entry leaves the pending map. */
    method PopEntry(fut: nat)
      requires fut < |requests|
      modifies this`pendingXml, this`pendingBin
      ensures CallsState() == Popped(old(CallsState()), fut)
    {
      var request := requests[fut];
      if request.kind.Xml? {
        pendingXml := pendingXml - {request.sequence};
      } else {
        pendingBin := pendingBin - {request.sequence};
      }
    }

    /** The awaiting command resumes, and goes on to its next await. */
    method Resume()
      requires SessionModel.Enabled(State(), Wake)
      modifies this`pendingXml, this`pendingBin, this`command, this`finished
      ensures State() == SessionModel.Next(env, old(State()), Wake)
    {
      hide SendRequest;
      hide Deliver;
      hide CanWake;
      hide Woken;
      hide OutState;
      hide StreamState;
      GoOn();
    }

    /** The `finally` of the awaiting command, then the outcome of wait_for. */
    method GoOn()
      requires CanWake(CallsState(), received)
      modifies this`pendingXml, this`pendingBin, this`command, this`finished
      ensures CallsState() == Woken(old(CallsState()), received)
    {
      hide Requests.Consume;
      var cmd := command.value;
      var fut := AwaitedId(cmd);
      PopEntry(fut);
      if cmd.phase.expired.Some? {
        End(EndingOf(cmd.phase.expired.value));
      } else if futures[fut].Resolved? {
        ConsumeReply(received[futures[fut].at].payload);
      } else {
        End(ConnectionLost);
      }
    }

    /** One of the two loops of `fail_pending`: every future of `pending` still open fails. */
    method FailAll(pending: map<int, nat>)
      requires forall q :: q in pending ==> pending[q] < |futures|
      modifies this`futures
      ensures |futures| == |old(futures)|
      ensures forall i | 0 <= i < |futures| :: futures[i] ==
                (if old(futures[i]).Pending? && Requests.Held(pending, i) then Failed else old(futures[i]))
    {
      var todo := pending.Keys;
      while exists q :: q in todo
        invariant todo <= pending.Keys && |futures| == |old(futures)|
        invariant forall i | 0 <= i < |futures| :: futures[i] ==
                    (if old(futures[i]).Pending? && (exists q :: q in pending && q !in todo && pending[q] == i)
                     then Failed else old(futures[i]))
        decreases todo
      {
        var q :| q in todo;
        var fut := pending[q];
        if futures[fut].Pending? {
          futures := futures[fut := Failed];
        }
        todo := todo - {q};
      }
    }

    /** `fail_pending`. */
    method FailPendingFutures()
      requires forall q :: q in pendingXml ==> pendingXml[q] < |futures|
      requires forall q :: q in pendingBin ==> pendingBin[q] < |futures|
      modifies this`futures, this`pendingXml, this`pendingBin
      ensures CallsState() == FailPending(old(CallsState()))
    {
      FailAll(pendingXml);
      pendingXml := map[];
      FailAll(pendingBin);
      pendingBin := map[];
      assert futures == FailPending(old(CallsState())).futures;
    }

    /** `_teardown` up to its first await: `fail_pending`, then `request_teardown`. */
    method TearDown()
      requires forall q :: q in pendingXml ==> pendingXml[q] < |futures|
      requires forall q :: q in pendingBin ==> pendingBin[q] < |futures|
      modifies this`futures, this`pendingXml, this`pendingBin, this`closed, this`teardownRequested, this`tornDown
      ensures State() == SessionModel.Next(env, old(State()), Teardown)
    {
      hide SendRequest;
      hide Deliver;
      hide FailPending;
      hide CallsState;
      hide StreamState;
      FailPendingFutures();
      RequestTeardown();
      tornDown := true;
    }

    // ----- Events -----

    /** `emit_event`: when full, the oldest queued event makes room. */
    method EmitEvent(ev: SiaEvent)
      requires Linked()
      modifies this`events, this`queueIds, this`emitted
      ensures Linked() && emitted == old(emitted) + [ev]
      ensures events == (if |old(events)| < 1024 then old(events) else old(events)[1..]) + [ev]
      ensures StreamState() == EventStream.Next(old(StreamState()), Emit)
    {
      ghost var id := |emitted|;
      emitted := emitted + [ev];
      if |events| >= EVENT_QUEUE_MAXSIZE {
        events, queueIds := events[1..], queueIds[1..];
      }
      events, queueIds := events + [ev], queueIds + [id];
    }

    /** `_requeue_event`: drain the queue behind the event, then put back what fits. */
    method RequeueEvent(ev: SiaEvent)
      requires |events| <= EVENT_QUEUE_MAXSIZE
      modifies this`events
      ensures events == [ev] + (if |old(events)| < 1024 then old(events) else old(events)[..1023])
    {
      var items := [ev];
      while events != []
        invariant items + events == [ev] + old(events)
        decreases |events|
      {
        items := items + [events[0]];
        events := events[1..];
      }
      var i := 0;
      while i < |items| && |events| < EVENT_QUEUE_MAXSIZE
        invariant i <= |items| && events == items[..i] && i <= EVENT_QUEUE_MAXSIZE
      {
        events := events + [items[i]];
        i := i + 1;
      }
      assert items == [ev] + old(events);
    }

    /** The consumer is cancelled: an event it has already pulled goes back in front. */
    method CancelConsumer()
      requires Linked() && EventStream.Enabled(StreamState(), Cancel)
      modifies this`events, this`queueIds, this`consumer, this`pulled
      ensures Linked() && StreamState() == EventStream.Next(old(StreamState()), Cancel)
    {
      if pulled != [] {
        RequeueEvent(pulled[0]);
        queueIds := Requeue(queueIds, consumer.id);
      }
      consumer, pulled := Idle, [];
    }

    /** The front event leaves the queue for the consumer. */
    method PullEvent()
      requires Linked() && EventStream.Enabled(StreamState(), Pull)
      modifies this`events, this`queueIds, this`consumer, this`pulled
      ensures Linked() && StreamState() == EventStream.Next(old(StreamState()), Pull)
    {
      pulled := [events[0]];
      consumer := Holding(queueIds[0]);
      events, queueIds := events[1..], queueIds[1..];
    }

    /** What the consumer holds is handed out. */
    method YieldEvent() returns (ev: SiaEvent)
      requires Linked() && EventStream.Enabled(StreamState(), Yield)
      modifies this`consumer, this`pulled, this`deliveredIds
      ensures Linked() && StreamState() == EventStream.Next(old(StreamState()), Yield)
      ensures ev == emitted[old(consumer).id]
    {
      ev := pulled[0];
      deliveredIds := deliveredIds + [consumer.id];
      consumer, pulled := Idle, [];
    }

    /** The consumer asks for the next event. */
    method AskForEvent()
      requires Linked() && EventStream.Enabled(StreamState(), Ask)
      modifies this`consumer
      ensures Linked() && StreamState() == EventStream.Next(old(StreamState()), Ask)
    {
      consumer := Waiting;
    }

    /** The waiting consumer finds the session closed and turns to what is still queued. */
    method NoticeClosed()
      requires Linked() && EventStream.Enabled(StreamState(), SeeClosed)
      modifies this`consumer
      ensures Linked() && StreamState() == EventStream.Next(old(StreamState()), SeeClosed)
    {
      consumer := Draining;
    }

    /** After a disconnect the queued events are handed out one by one, and then the stream
        ends, which is the None. */
    method DrainEvent(ghost step: Step) returns (ev: Option<SiaEvent>)
      requires Linked() && step in {DrainOne, DrainEnd} && EventStream.Enabled(StreamState(), step)
      modifies this`events, this`queueIds, this`consumer, this`deliveredIds
      ensures Linked()
      ensures ev == if old(events) == [] then None else Some(old(events)[0])
      ensures StreamState() == EventStream.Next(old(StreamState()), step)
    {
      if events == [] {
        consumer := Idle;
        return None;
      }
      ev := Some(events[0]);
      deliveredIds := deliveredIds + [queueIds[0]];
      events, queueIds := events[1..], queueIds[1..];
    }

    /** The event that a turn of events() hands to the consumer: the one it holds, or the oldest
        one queued when the session has closed. */
    ghost function Handed(step: Step): Option<SiaEvent>
      requires Linked() && EventStream.Enabled(StreamState(), step)
      reads this`events, this`queueIds, this`emitted, this`consumer, this`pulled, this`deliveredIds
    {
      if step.Yield? then Some(emitted[consumer.id])
      else if step.DrainOne? then Some(emitted[queueIds[0]])
      else None
    }

    /** One turn of events(), whichever it is: the machine's step on the whole state. */
    method ConsumerTurn(step: Step) returns (yielded: Option<SiaEvent>)
      requires Linked() && SessionModel.Enabled(State(), Consume(step))
      modifies this`events, this`queueIds, this`consumer, this`pulled, this`deliveredIds
      ensures Linked() && State() == SessionModel.Next(env, old(State()), Consume(step))
      ensures EventStream.Enabled(old(StreamState()), step) && yielded == old(Handed(step))
    {
      ghost var before := State();
      hide SessionModel.Next;
      hide Handed;
      hide EventStream.Next;
      hide EventStream.Enabled;
      hide Linked;
      ConsumeIs(env, before, step);
      hide SessionModel.Enabled;
      hide CallsState;
      hide OutState;
      hide StreamState;
      yielded := MoveConsumer(step);
    }

    method MoveConsumer(step: Step) returns (yielded: Option<SiaEvent>)
      requires Linked() && !step.Emit? && EventStream.Enabled(StreamState(), step)
      modifies this`events, this`queueIds, this`consumer, this`pulled, this`deliveredIds
      ensures Linked() && StreamState() == EventStream.Next(old(StreamState()), step)
      ensures yielded == old(Handed(step))
    {
      hide EventStream.Next;
      yielded := None;
      if step.Ask? {
        AskForEvent();
      } else if step.Pull? {
        PullEvent();
      } else if step.Yield? {
        var ev := YieldEvent();
        yielded := Some(ev);
      } else if step.Cancel? {
        CancelConsumer();
      } else if step.SeeClosed? {
        NoticeClosed();
      } else {
        yielded := DrainEvent(step);
      }
    }

    // ----- Dispatch -----

    /** A reply frame settles the future registered under its sequence, if it is still open. */
    method SettleFuture(frame: Frame, kind: Kind)
      requires received != []
      modifies this`pendingXml, this`pendingBin, this`futures
      ensures CallsState() == SettleReply(old(CallsState()), frame, kind, |received| - 1)
    {
      var pending := if kind.Xml? then pendingXml else pendingBin;
      if frame.sequence in pending {
        var fut := pending[frame.sequence];
        if kind.Xml? {
          pendingXml := pending - {frame.sequence};
        } else {
          pendingBin := pending - {frame.sequence};
        }
        if fut < |futures| && futures[fut].Pending? {
          futures := futures[fut := Resolved(|received| - 1)];
        }
      }
    }

    /** Acknowledge a panel-initiated frame and surface its event. */
    method Acknowledge(frame: Frame)
      requires WantsAck(frame) && Linked()
      modifies this`writeQueue, this`closed, this`teardownRequested, this`posted, this`pollCount,
               this`events, this`queueIds, this`emitted
      ensures Linked()
      ensures var t := Acked(env, old(State()), frame);
        OutState() == t.out && pollCount == t.pollCount && StreamState() == t.stream && emitted == t.events
    {
      hide Encode;
      hide Parse;
      var ok := ReplyEcho(frame, frame.minor + 1);
      if !ok {
        return;
      }
      if frame.major == 1 {
        if frame.minor == 0 {
          pollCount := pollCount + 1;
        }
      } else {
        var ev := Parse(env.text(frame.payload));
        if ev.Some? {
          EmitEvent(ev.value);
        }
      }
    }

    /** `_dispatch`, after the frame loop has noted the panel's ID. */
    method DispatchFrame(frame: Frame)
      requires FromDecoder(frame) && Linked()
      modifies this`received, this`receivedAt, this`lastReceived, this`nextSeq, this`pendingXml, this`pendingBin,
               this`futures, this`writeQueue, this`closed, this`teardownRequested, this`posted, this`pollCount,
               this`events, this`queueIds, this`emitted
      ensures Linked() && State() == Dispatch(env, old(State()), frame)
    {
      hide Linked;
      hide SettleReply;
      hide Acked;
      hide WantsAck;
      hide IsReply;
      hide Heard;
      hide CallsState;
      hide OutState;
      hide StreamState;
      ghost var before := State();
      NoteFrame(frame);
      assert State() == Noted(before, frame);
      AckedFrame(env, State(), frame);
      if IsReply(frame, Xml) {
        SettleFuture(frame, Xml);
      } else if IsReply(frame, Binary) {
        SettleFuture(frame, Binary);
      } else if WantsAck(frame) {
        Acknowledge(frame);
      }
    }

    method NoteFrame(frame: Frame)
      requires FromDecoder(frame)
      modifies this`received, this`receivedAt, this`lastReceived, this`nextSeq
      ensures CallsState() == Heard(old(CallsState()), frame)
      ensures received == old(received) + [frame] && receivedAt == old(receivedAt) + [now] && lastReceived == now
    {
      received, receivedAt := received + [frame], receivedAt + [now];
      lastReceived := now;
      if frame.sequence > nextSeq {
        nextSeq := frame.sequence;
      }
    }

    /** One turn of the frame loop of `_handle`. */
    method Receive(frame: Frame)
      requires Linked() && FromDecoder(frame)
      modifies this
      ensures Linked() && State() == SessionModel.Next(env, old(State()), SessionModel.Receive(frame))
    {
      ghost var before, after := State(), SessionModel.Next(env, State(), SessionModel.Receive(frame));
      assert after == Dispatch(env, Greeted(before, frame), frame);
      hide SessionModel.Next;
      hide Dispatch;
      Greet(frame);
      DispatchFrame(frame);
    }

    /** The first frame names the panel. */
    method Greet(frame: Frame)
      modifies this`handshake, this`panelId
      ensures State() == Greeted(old(State()), frame)
      ensures EventsMatch() == old(EventsMatch()) && events == old(events)
    {
      if !handshake {
        handshake := true;
        panelId := frame.srcId;
      }
    }
  }

  /** What a request does to the requests and to the outbox. */
  lemma PostParts(env: Env, s: State)
    requires s.calls.command.Some?
    ensures var t, cmd := PostRequest(env, s), s.calls.command.value;
      var frame := Outbound(env, s.panelId, NextSequence(s.calls), if cmd.task.XmlTask? then 10 else 4, 0,
                            Payload(cmd.task, cmd.replies != []));
      var sent := Encode(frame, env.key);
      && t.calls == (if sent.Ok? then Registered(s.calls, |s.received|) else Requested(s.calls, |s.received|, false))
      && t.out == if sent.Err? then s.out else Post(s.out, frame, sent.value.wire, true, s.now, |s.received|)
  {
    hide Encode;
    hide Registered;
    hide Post;
  }

  /** A request touches the requests and the outbox only. */
  lemma PostTouches(env: Env, s: State)
    requires s.calls.command.Some?
    ensures var t := PostRequest(env, s);
      t == s.(calls := t.calls, out := t.out)
  {
    hide Encode;
    hide Requested;
    hide Post;
  }
}
