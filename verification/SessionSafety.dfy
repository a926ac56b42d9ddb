/** What holds of every session, whatever the interleaving (spcedp/client.py). */
module SessionSafety {
  import opened Bytes
  import opened Codec
  import opened Reassembly
  import opened EventStream
  import opened WriteQueue
  import opened Requests
  import opened RequestSafety
  import opened SessionModel

  /** `s` is where some run from the start of a session leads. */
  ghost predicate Reachable(env: Env, s: State) {
    exists actions: seq<Action> ::
      SessionModel.Runs(env, START, actions) && s == SessionModel.After(env, START, actions)
  }

  lemma ReachableInv(env: Env, s: State)
    requires UsableKey(env.key) && Reachable(env, s)
    ensures Inv(env, s)
  {
    var actions: seq<Action> :| SessionModel.Runs(env, START, actions) && s == SessionModel.After(env, START, actions);
    StartInv(env);
    RunKeepsInv(env, START, actions);
  }

  // ----- Acknowledgements -----

  /** The frames posted that are not commands are exactly the in-order image of the received
      POLL, HELLO and EVENT_PUSH frames, addressed to the source of the first frame; while no
      teardown is requested they are all among the written and queued ones; and each of them
      encodes. */
  lemma AcknowledgementsExact(env: Env, s: State)
    requires UsableKey(env.key) && Reachable(env, s)
    ensures s.received != [] ==> s.panelId == s.received[0].srcId
    ensures Kindred(s.out.posted, false) == Acks(env, s.panelId, s.received)
    ensures !s.out.teardownRequested ==> Wires(s.out.posted) == s.out.written + s.out.queue
    ensures s.pollCount == Polls(s.received)
  {
    ReachableInv(env, s);
    if !s.out.teardownRequested {
      NothingRefusedWhileOpen(s.out);
    }
  }

  // ----- Requests -----

  /** At most one reply future is outstanding, in both pending maps together, as long as no
      command was given a request text too long to encode. */
  lemma OneOutstanding(env: Env, s: State)
    requires UsableKey(env.key) && Reachable(env, s) && NoneTooBig(s.calls)
    ensures forall i, j | 0 <= i < |s.calls.futures| && 0 <= j < |s.calls.futures| ::
              s.calls.futures[i].Pending? && s.calls.futures[j].Pending? ==> i == j
    ensures AtMostOneEntry(s.calls.pendingXml) && AtMostOneEntry(s.calls.pendingBin)
    ensures forall q, r :: q in s.calls.pendingXml ==> r !in s.calls.pendingBin
  {
    ReachableInv(env, s);
    AtMostOneOutstanding(s.calls);
  }

  /** `d` has a future that `c` did not have, open and not awaited by the running command. */
  ghost predicate Leaks(c: Calls, d: Calls) {
    exists id: nat :: |c.futures| <= id < |d.futures| && d.futures[id].Pending? && !Current(d, id)
  }

  /** The one step that makes a request leaves behind a future that no command awaits exactly
      when the request's text is ASCII and its payload too long to encode: a caller avoids it by
      keeping request payloads within 65514 bytes. */
  lemma LeakIff(env: Env, s: State)
    requires UsableKey(env.key) && Reachable(env, s)
    requires !s.out.closed && SessionModel.Enabled(s, QuietOver)
    ensures var cmd := s.calls.command.value;
      Leaks(s.calls, SessionModel.Next(env, s, QuietOver).calls)
      <==> Sendable(cmd.task) && |Payload(cmd.task, cmd.replies != [])| > MAX_PAYLOAD
  {
    hide Payload;
    hide Encode;
    RequestFrameEncodes(env, s);
    RequestLeaks(s.calls, |s.received|, Encode(CommandFrame(env, s), env.key).Ok?);
    hide Leaks;
    hide Requested;
  }

  /** A request abandoned by encode leaves its future open; one that was sent is awaited; and
      one whose text did not encode has none. */
  lemma RequestLeaks(c: Calls, received: nat, encodes: bool)
    requires c.command.Some? && c.command.value.phase.Quiet?
    ensures Leaks(c, Requested(c, received, encodes)) <==> !encodes
    ensures !Leaks(c, Spent(c))
  {
    hide Payload;
    var d, id := Requested(c, received, encodes), |c.futures|;
    assert d.futures == c.futures + [Pending];
    if encodes {
      assert Current(d, id);
    } else {
      assert d.futures[id].Pending? && !Current(d, id);
    }
  }

  lemma CommandStepEvolves(env: Env, s: State, a: Action)
    requires CallsOk(s.calls, s.received) && SessionModel.Enabled(s, a)
    requires a.Begin? || a.QuietFails? || a.Expire? || a.Wake?
    ensures Evolves(s.calls, SessionModel.Next(env, s, a).calls)
  {
    var c := s.calls;
    match a {
      case Begin(task) =>
        BeginKeeps(c, task, s.received);
        if s.out.closed {
          QuitKeeps(c.(command := Some(Command(task, [], [], [], Quiet))), ConnectionLost, s.received);
        }
      case QuietFails(reason) => QuitKeeps(c, EndingOf(reason), s.received);
      case Expire(reason) => ExpireKeeps(c, s.received, reason);
      case Wake =>
        WakeKeeps(c, s.received);
    }
    hide CallsOk;
    hide Woken;
  }

  lemma QuietOverEvolves(env: Env, s: State)
    requires UsableKey(env.key) && CallsOk(s.calls, s.received) && SessionModel.Enabled(s, QuietOver)
    ensures Evolves(s.calls, SessionModel.Next(env, s, QuietOver).calls)
  {
    if s.out.closed {
      QuitKeeps(s.calls, ConnectionLost, s.received);
    } else if !Sendable(s.calls.command.value.task) {
      SpentKeeps(s.calls, s.received);
      hide CallsOk;
    } else {
      RequestFrameEncodes(env, s);
      RequestKeeps(s.calls, s.received, Encode(CommandFrame(env, s), env.key).Ok?);
      hide Encode;
      hide Requested;
      hide CallsOk;
    }
  }

  lemma StepEvolves(env: Env, s: State, a: Action)
    requires UsableKey(env.key) && Inv(env, s) && SessionModel.Enabled(s, a)
    ensures Evolves(s.calls, SessionModel.Next(env, s, a).calls)
  {
    InvCalls(env, s);
    hide Inv;
    match a {
      case QuietOver => QuietOverEvolves(env, s);
      case Receive(f) => DeliverCalls(env, s, f); hide Deliver;
      case Teardown => FailKeeps(s.calls, s.received);
      case Begin(_) => CommandStepEvolves(env, s, a);
      case QuietFails(_) => CommandStepEvolves(env, s, a);
      case Expire(_) => CommandStepEvolves(env, s, a);
      case Wake => CommandStepEvolves(env, s, a);
      case _ =>
    }
    hide CallsOk;
  }

  lemma InvCalls(env: Env, s: State)
    requires Inv(env, s)
    ensures CallsOk(s.calls, s.received) && Fresh(s.calls, s.received)
    ensures |s.calls.requests| == |s.calls.futures|
  {
    hide PendingOk;
  }

  /** Each future is settled at most once: over any further run, what is done stays as it is. */
  lemma {:induction false} SettledOnce(env: Env, s: State, actions: seq<Action>)
    requires UsableKey(env.key) && Inv(env, s) && SessionModel.Runs(env, s, actions)
    ensures Evolves(s.calls, SessionModel.After(env, s, actions).calls)
    decreases |actions|
  {
    hide Inv;
    hide SessionModel.Next;
    hide SessionModel.Enabled;
    if actions == [] {
      assert Evolves(s.calls, s.calls) by { InvCalls(env, s); }
    } else {
      var t := SessionModel.Next(env, s, actions[0]);
      StepKeepsInv(env, s, actions[0]);
      StepEvolves(env, s, actions[0]);
      SettledOnce(env, t, actions[1..]);
      EvolvesOn(s.calls, t.calls, SessionModel.After(env, t, actions[1..]).calls);
      hide Evolves;
    }
  }

  /** Reply number `j` that command `x` consumed is the payload of a received reply frame of
      its own kind, carrying the sequence of its request number `j` and received after it. */
  ghost predicate OwnReply(s: State, x: Finished, j: nat) {
    && j < |x.ids| && j < |x.replies| && x.ids[j] < |s.calls.requests|
    && exists k: nat :: k < |s.received| && RightReply(s.calls.requests[x.ids[j]], k, s.received)
         && s.received[k].payload == x.replies[j] && IsReply(s.received[k], KindOf(x.task))
  }

  /** A command that succeeds rests on replies to its own requests: one OK byte for an area
      command, and for an XML command one reply per request that together assemble the body,
      the first request marked first and the others continuations. */
  lemma SuccessRestsOnOwnReplies(env: Env, s: State, n: nat)
    requires UsableKey(env.key) && Reachable(env, s) && n < |s.calls.finished|
    ensures var x := s.calls.finished[n];
      && (x.ending.Armed? ==>
            |x.ids| == |x.replies| == 1 && x.replies[0] != [] && x.replies[0][0] == REPLY_OK)
      && (x.ending.Body? ==>
            && x.task.XmlTask? && IsAscii(x.task.xml) && 1 <= |x.ids| == |x.replies| <= MAX_XML_FRAGMENTS
            && Completes(FeedAll([], x.replies, MAX_REPLY_BYTES), |x.replies|, x.ending.body)
            && forall j | 0 <= j < |x.ids| ::
                 && x.ids[j] < |s.calls.requests|
                 && s.calls.requests[x.ids[j]].payload
                    == [if j == 0 then FRAG_FIRST else FRAG_CONT] + Ascii(x.task.xml))
      && forall j: nat | j < |x.replies| :: OwnReply(s, x, j)
  {
    ReachableInv(env, s);
    InvCalls(env, s);
    hide Inv;
    var x := s.calls.finished[n];
    assert FinishedOk(x, s.calls, s.received);
    if x.ending.Body? {
      FragmentsRequested(s.calls, s.received, n);
    }
    forall j: nat | j < |x.replies| ensures OwnReply(s, x, j) {
      RepliesAreOwn(s.calls, s.received, n, j);
    }
    hide FinishedOk;
    hide CallsOk;
  }

  /** If the replies a command consumed are, in order, marked pieces of a body that its only
      closing tag ends, the command can end with a body only as that very body, and only after
      exactly as many requests as there are pieces. */
  lemma BodyIsWhole(env: Env, s: State, n: nat, pieces: seq<seq<byte>>)
    requires UsableKey(env.key) && Reachable(env, s)
    requires n < |s.calls.finished| && s.calls.finished[n].ending.Body?
    requires TaggedAtEnd(pieces) && |s.calls.finished[n].replies| <= |pieces|
    requires Marked(s.calls.finished[n].replies, pieces[..|s.calls.finished[n].replies|])
    ensures var x := s.calls.finished[n];
      |x.ids| == |x.replies| == |pieces| && x.ending.body == Flatten(pieces)
  {
    SuccessRestsOnOwnReplies(env, s, n);
    var x := s.calls.finished[n];
    hide *;
    CompletesOnlyWhole(x.replies, pieces, x.ending.body, MAX_REPLY_BYTES);
  }

  /** xml_command answered with the pieces of a reply within the limits: while it runs it has
      not consumed them all, and it never asks for more than there are. */
  lemma RunningCommandOnPieces(env: Env, s: State, pieces: seq<seq<byte>>)
    requires UsableKey(env.key) && Reachable(env, s)
    requires s.calls.command.Some? && s.calls.command.value.task.XmlTask?
    requires ReplyPieces(pieces) && MarkedSoFar(s.calls.command.value.replies, pieces)
    ensures |s.calls.command.value.replies| < |pieces| && |s.calls.command.value.ids| <= |pieces|
  {
    ReachableInv(env, s);
    InvCalls(env, s);
    hide *;
    RunningOnPieces(s.calls, s.received, pieces);
  }

  /** Once it has ended, it ended with exactly the body if it consumed all the pieces, with no
      body if it did not, and in neither case with a protocol error. */
  lemma FinishedCommandOnPieces(env: Env, s: State, n: nat, pieces: seq<seq<byte>>)
    requires UsableKey(env.key) && Reachable(env, s)
    requires n < |s.calls.finished| && s.calls.finished[n].task.XmlTask?
    requires ReplyPieces(pieces) && MarkedSoFar(s.calls.finished[n].replies, pieces)
    ensures var x := s.calls.finished[n];
      && |x.replies| <= |pieces| && |x.ids| <= |pieces| && !x.ending.ProtocolError?
      && (x.ending == Body(Flatten(pieces)) <==> |x.replies| == |pieces|)
      && (x.ending.Body? ==> x.ending.body == Flatten(pieces))
  {
    ReachableInv(env, s);
    InvCalls(env, s);
    assert FinishedOk(s.calls.finished[n], s.calls, s.received);
    hide *;
    FinishedOnPieces(s.calls.finished[n], s.calls, s.received, pieces);
  }

  /** The sequence allocated next is above everything received or allocated before it exactly
      when the counter has not wrapped, at this allocation or before. */
  lemma AllocationAboveIff(env: Env, s: State)
    requires UsableKey(env.key) && Reachable(env, s)
    ensures var q := NextSequence(s.calls);
      !Allocated(s.calls).wrapped
      <==> (forall k :: 0 <= k < |s.received| ==> s.received[k].sequence < q)
           && (forall p :: p in s.calls.issued ==> p < q)
    ensures forall i :: 0 <= i < |s.calls.requests| ==> s.calls.requests[i].sequence in s.calls.issued
  {
    ReachableInv(env, s);
    InvCalls(env, s);
    hide Inv;
    AllocationFreshIff(s.calls, s.received);
    hide CallsOk;
    hide Fresh;
  }

  /** A late reply never settles another request than its own, until the counter wraps. */
  lemma LateReplyHarmless(env: Env, s: State, i: nat, j: nat, k: nat)
    requires UsableKey(env.key) && Reachable(env, s) && !s.calls.wrapped
    requires i < |s.calls.requests| && j < |s.calls.futures| && k < |s.received| && i != j
    requires s.received[k].sequence == s.calls.requests[i].sequence
    ensures s.calls.futures[j] != Resolved(k)
  {
    ReachableInv(env, s);
    InvCalls(env, s);
    hide Inv;
    NoCrossTalk(s.calls, s.received, i, j, k);
  }

  lemma DeliverReply(env: Env, s: State, f: Frame, kind: Kind)
    requires FromDecoder(f) && IsReply(f, kind)
    ensures Deliver(env, s, f).calls == SettleReply(Heard(s.calls, f), f, kind, |s.received|)
  {
    hide SettleReply;
    hide Heard;
    hide Acked;
  }

  /** Whether a late reply harms the request about to be made can be read off before it is
      made: a reply to the earlier request `i` settles the new request exactly when request `i`
      was of the same kind and carried the sequence about to be allocated. */
  lemma LateReplyIff(env: Env, s: State, i: nat, f: Frame)
    requires UsableKey(env.key) && Reachable(env, s)
    requires !s.out.closed && SessionModel.Enabled(s, QuietOver)
    requires Sendable(s.calls.command.value.task)
    requires |Payload(s.calls.command.value.task, s.calls.command.value.replies != [])| <= MAX_PAYLOAD
    requires i < |s.calls.requests| && FromDecoder(f)
    requires IsReply(f, s.calls.requests[i].kind) && f.sequence == s.calls.requests[i].sequence
    ensures var t := Deliver(env, SessionModel.Next(env, s, QuietOver), f);
      var c, r := s.calls, s.calls.requests[i];
      && |t.calls.futures| == |c.futures| + 1
      && (t.calls.futures[|c.futures|] == Resolved(|s.received|)
          <==> r.kind == KindOf(c.command.value.task) && r.sequence == NextSequence(c))
  {
    ReachableInv(env, s);
    InvCalls(env, s);
    hide Inv;
    RequestFrameEncodes(env, s);
    hide Payload;
    hide Encode;
    var t := SessionModel.Next(env, s, QuietOver);
    assert t.calls == Registered(s.calls, |s.received|) && t.received == s.received;
    DeliverReply(env, t, f, s.calls.requests[i].kind);
    SettlesNewest(s.calls, s.received, f, s.calls.requests[i].kind);
    hide *;
  }

  // ----- Sending and teardown -----

  /** A command frame is posted only after the quiet time since every frame dispatched before
      it. */
  lemma CommandsWaitForQuiet(env: Env, s: State, i: nat, k: nat)
    requires UsableKey(env.key) && Reachable(env, s)
    requires i < |s.out.posted| && s.out.posted[i].command && k < s.out.posted[i].after
    ensures k < |s.receivedAt| && s.receivedAt[k] + 100 <= s.out.posted[i].at
  {
    ReachableInv(env, s);
  }

  /** One step of a closed session: it stays closed, posts no command, and a session torn
      down stays so. */
  lemma ClosedStep(env: Env, s: State, a: Action)
    requires UsableKey(env.key) && Conserved(s.out) && s.out.closed && SessionModel.Enabled(s, a)
    ensures var t := SessionModel.Next(env, s, a);
      && t.out.closed && Conserved(t.out)
      && Kindred(t.out.posted, true) == Kindred(s.out.posted, true)
  {
    hide Kindred;
    match a {
      case Receive(f) =>
        DeliverConserves(env, s, f);
        hide Deliver;
        hide Conserved;
      case Write => WriteConserves(s.out);
      case _ =>
    }
  }

  /** No command frame is ever posted after the session closed. */
  lemma {:induction false} ClosedPostsNoCommand(env: Env, s: State, actions: seq<Action>)
    requires UsableKey(env.key) && Conserved(s.out) && s.out.closed && SessionModel.Runs(env, s, actions)
    ensures var t := SessionModel.After(env, s, actions);
      t.out.closed && Kindred(t.out.posted, true) == Kindred(s.out.posted, true)
    decreases |actions|
  {
    hide SessionModel.Next;
    hide SessionModel.Enabled;
    hide Conserved;
    hide Kindred;
    if actions != [] {
      ClosedStep(env, s, actions[0]);
      ClosedPostsNoCommand(env, SessionModel.Next(env, s, actions[0]), actions[1..]);
    }
  }

  lemma TornDownStep(env: Env, s: State, a: Action)
    requires UsableKey(env.key) && SessionModel.Enabled(s, a)
    ensures s.tornDown ==> SessionModel.Next(env, s, a).tornDown
  {
    if a.Receive? {
      DispatchPosts(env, Greeted(s, a.frame), a.frame);
      hide Dispatch;
    }
  }

  /** Once the teardown has run, both pending maps are empty in every later state. */
  lemma {:induction false} TeardownIsFinal(env: Env, s: State, actions: seq<Action>)
    requires UsableKey(env.key) && Inv(env, s) && s.tornDown && SessionModel.Runs(env, s, actions)
    ensures var t := SessionModel.After(env, s, actions);
      t.tornDown && t.out.closed && t.calls.pendingXml == map[] && t.calls.pendingBin == map[]
    decreases |actions|
  {
    if actions != [] {
      StepKeepsInv(env, s, actions[0]);
      TornDownStep(env, s, actions[0]);
      hide Inv;
      hide SessionModel.Next;
      hide SessionModel.Enabled;
      TeardownIsFinal(env, SessionModel.Next(env, s, actions[0]), actions[1..]);
    }
  }

  /** A step posts at most one frame, which the queue takes exactly if it has room. */
  lemma StepPosts(env: Env, s: State, a: Action)
    requires UsableKey(env.key) && SessionModel.Enabled(s, a)
    ensures var o, p := s.out, SessionModel.Next(env, s, a).out;
      && o.posted <= p.posted && |p.posted| <= |o.posted| + 1
      && (|p.posted| > |o.posted| ==>
            && (p.posted[|o.posted|].accepted <==> |o.queue| < 2048)
            && (!p.posted[|o.posted|].accepted ==> p.closed && p.teardownRequested && p.queue == o.queue))
  {
    hide Encode;
    if a.Receive? {
      DispatchPosts(env, Greeted(s, a.frame), a.frame);
      hide Dispatch;
      hide EventIn;
    }
    hide Requested;
    hide Woken;
  }

  /** In every step of every session the queue stays within its bound; a frame is refused only
      by a full queue, and the step in which it is refused closes the session and requests its
      teardown, for good. */
  lemma RefusalCloses(env: Env, s: State, a: Action)
    requires UsableKey(env.key) && Reachable(env, s) && SessionModel.Enabled(s, a)
    ensures var o, p := s.out, SessionModel.Next(env, s, a).out;
      && |p.queue| <= 2048
      && o.posted <= p.posted
      && (forall i :: |o.posted| <= i < |p.posted| ==>
            (p.posted[i].accepted <==> |o.queue| < 2048))
      && (forall i :: 0 <= i < |p.posted| && !p.posted[i].accepted ==> p.closed && p.teardownRequested)
  {
    hide *;
    ReachableInv(env, s);
    StepKeepsInv(env, s, a);
    StepPosts(env, s, a);
    InvConserved(env, SessionModel.Next(env, s, a));
  }

  lemma InvConserved(env: Env, s: State)
    requires Inv(env, s)
    ensures |s.out.queue| <= 2048
    ensures forall i :: 0 <= i < |s.out.posted| && !s.out.posted[i].accepted ==>
              s.out.closed && s.out.teardownRequested
  {
  }

  /** The events a session emitted are those its received pushes parse to, and what the
      consumer got, holds, or will get is an in-order subsequence of them. */
  lemma EventsInOrder(env: Env, s: State)
    requires UsableKey(env.key) && Reachable(env, s)
    ensures s.events == Pushed(env, s.received)
    ensures Increasing(Line(s.stream), |s.events|)
  {
    ReachableInv(env, s);
  }

  /** In-flight plus queued events, those the step emits included, fit the capacity at every
      step of a run. */
  ghost predicate RoomThroughout(env: Env, s: State, actions: seq<Action>)
    requires SessionModel.Runs(env, s, actions)
    decreases |actions|
  {
    actions != [] ==>
      var t := SessionModel.Next(env, s, actions[0]);
      && |EventStream.Held(s.stream.consumer)| + |s.stream.queue| + t.stream.emitted - s.stream.emitted
         <= 1024
      && RoomThroughout(env, t, actions[1..])
  }

  /** A step of a session is a step of its event stream or leaves the stream alone. */
  lemma StreamStep(env: Env, s: State, a: Action) returns (steps: seq<Step>)
    requires UsableKey(env.key) && SessionModel.Enabled(s, a)
    ensures |steps| <= 1
    ensures var stream := SessionModel.Next(env, s, a).stream;
      if steps == [] then stream == s.stream
      else EventStream.Enabled(s.stream, steps[0]) && stream == EventStream.Next(s.stream, steps[0])
  {
    steps := if a.Consume? then [a.step] else [];
    if a.Receive? {
      DispatchPosts(env, Greeted(s, a.frame), a.frame);
      steps := if EventIn(env, a.frame) == [] then [] else [Emit];
      hide Dispatch;
    }
    hide EventIn;
    hide Post;
    hide Encode;
    hide EventStream.Next;
    hide EventStream.Enabled;
  }

  /** A step within capacity loses no event. */
  lemma RoomLosesNothing(stream: Stream, step: Step)
    requires InOrder(stream) && EventStream.Enabled(stream, step)
    requires |EventStream.Held(stream.consumer)| + |stream.queue|
      + EventStream.Next(stream, step).emitted - stream.emitted <= 1024
    ensures var t := EventStream.Next(stream, step);
      InOrder(t) && t.emitted - |Line(t)| == stream.emitted - |Line(stream)|
  {
    StepLine(stream, step);
    hide InOrder;
    hide Line;
  }

  lemma {:induction false} RoomKeepsAll(env: Env, s: State, actions: seq<Action>)
    requires UsableKey(env.key) && InOrder(s.stream) && |Line(s.stream)| == s.stream.emitted
    requires SessionModel.Runs(env, s, actions) && RoomThroughout(env, s, actions)
    ensures var t := SessionModel.After(env, s, actions);
      InOrder(t.stream) && |Line(t.stream)| == t.stream.emitted
    decreases |actions|
  {
    hide SessionModel.Next;
    hide SessionModel.Enabled;
    hide InOrder;
    hide Line;
    if actions != [] {
      var steps := StreamStep(env, s, actions[0]);
      if steps != [] {
        RoomLosesNothing(s.stream, steps[0]);
      }
      hide EventStream.Next;
      RoomKeepsAll(env, SessionModel.Next(env, s, actions[0]), actions[1..]);
    }
  }

  /** While the capacity is never exceeded, no pushed event is lost: delivered, in flight and
      queued together are exactly the events the received pushes parse to, in order. */
  lemma NoPushLost(env: Env, actions: seq<Action>)
    requires UsableKey(env.key)
    requires SessionModel.Runs(env, START, actions) && RoomThroughout(env, START, actions)
    ensures var s := SessionModel.After(env, START, actions);
      && s.events == Pushed(env, s.received)
      && |Line(s.stream)| == |s.events| && forall i :: 0 <= i < |s.events| ==> Line(s.stream)[i] == i
  {
    var s := SessionModel.After(env, START, actions);
    StartInv(env);
    RunKeepsInv(env, START, actions);
    RoomKeepsAll(env, START, actions);
    InvStream(env, s);
    hide *;
    LineIsIdentity(s.stream);
  }

  lemma InvStream(env: Env, s: State)
    requires Inv(env, s)
    ensures s.events == Pushed(env, s.received) && s.stream.emitted == |s.events|
  {
  }

  lemma LineIsIdentity(stream: Stream)
    requires InOrder(stream) && |Line(stream)| == stream.emitted
    ensures forall i :: 0 <= i < stream.emitted ==> Line(stream)[i] == i
  {
    IncreasingFull(Line(stream));
  }
}
