/** Every step of a session keeps requests, futures and replies correlated
    (spcedp/client.py:192-313, 619-632). */
module RequestSafety {
  import opened Bytes
  import opened Codec
  import opened Reassembly
  import opened Requests

  /** More received frames change nothing about the past. */
  lemma ReceiveKeeps(c: Calls, received: seq<Frame>, later: seq<Frame>)
    requires CallsOk(c, received) && received <= later
    ensures CallsOk(c, later)
  {
    FinishedKept(c, c, received, later);
    if c.command.Some? {
      var cmd := c.command.value;
      ExchangeKept(cmd.task, cmd.ids, cmd.replies, c, c, received, later);
    }
    hide Exchange;
    hide AllFinishedOk;
    hide Gathered;
  }

  /** Ending the running command, once its own entry is out of the way. */
  lemma EndKeeps(c: Calls, how: Ending, received: seq<Frame>)
    requires c.command.Some? && Correlated(c, received) && AllFinishedOk(c, received)
    requires OneOpen(c.(command := None))
    requires FinishedOk(Finished(c.command.value.task, c.command.value.ids, c.command.value.replies, how), c, received)
    ensures CallsOk(Ended(c, how), received) && Evolves(c, Ended(c, how))
  {
    hide FinishedOk;
    OneMoreFinished(c, Finished(c.command.value.task, c.command.value.ids, c.command.value.replies, how), received);
    hide AllFinishedOk;
  }

  lemma BeginKeeps(c: Calls, task: Task, received: seq<Frame>)
    requires CallsOk(c, received) && c.command.None?
    ensures var d := c.(command := Some(Command(task, [], [], [], Quiet)));
      CallsOk(d, received) && Evolves(c, d)
  {
    var d := c.(command := Some(Command(task, [], [], [], Quiet)));
    FinishedKept(c, d, received, received);
    hide AllFinishedOk;
  }

  /** Giving up while still waiting to send: nothing is registered yet. */
  lemma QuitKeeps(c: Calls, how: Ending, received: seq<Frame>)
    requires CallsOk(c, received) && c.command.Some? && c.command.value.phase.Quiet?
    requires how in {Timeout, ConnectionLost, WasCancelled, NotAscii}
    ensures CallsOk(Ended(c, how), received) && Evolves(c, Ended(c, how))
  {
    assert OneOpen(c.(command := None));
    hide AllFinishedOk;
    hide Exchange;
    EndKeeps(c, how, received);
  }

  // ----- Making a request -----

  lemma RegisteredEvolves(c: Calls, received: nat)
    requires |c.requests| == |c.futures| && c.command.Some?
    ensures Evolves(c, Registered(c, received))
  {
  }

  lemma RegisteredOpen(c: Calls, received: nat)
    requires OneOpen(c) && c.command.Some? && c.command.value.phase.Quiet?
    ensures OneOpen(Registered(c, received))
  {
    hide Payload;
    var d := Registered(c, received);
    var id := |c.futures|;
    assert forall i :: 0 <= i < |c.requests| ==> d.requests[i] == c.requests[i];
    assert Current(d, id);
  }

  /** One more request joins an exchange. */
  lemma ExchangeGrows(
    task: Task, ids: seq<nat>, replies: seq<seq<byte>>, id: nat, c: Calls, received: seq<Frame>)
    requires Exchange(task, ids, replies, c, received) && Sendable(task) && id < |c.requests|
    requires c.requests[id].kind == KindOf(task) && c.requests[id].payload == Payload(task, |ids| > 0)
    ensures Exchange(task, ids + [id], replies, c, received)
  {
    hide Payload;
    hide Sendable;
  }

  lemma RegisteredCommand(c: Calls, received: seq<Frame>)
    requires CallsOk(c, received) && c.command.Some? && c.command.value.phase.Quiet?
    requires Sendable(c.command.value.task)
    ensures CommandOk(Registered(c, |received|), received)
  {
    var cmd, d := c.command.value, Registered(c, |received|);
    hide Payload;
    hide Sendable;
    hide Gathered;
    hide OneOpen;
    hide Correlated;
    hide AllFinishedOk;
    hide Exchange;
    hide Evolves;
    assert |c.requests| == |c.futures| by { SameLength(c, received); }
    RegisteredEvolves(c, |received|);
    ExchangeKept(cmd.task, cmd.ids, cmd.replies, c, d, received, received);
    ExchangeGrows(cmd.task, cmd.ids, cmd.replies, |c.futures|, d, received);
  }

  lemma SameLength(c: Calls, received: seq<Frame>)
    requires CallsOk(c, received)
    ensures |c.requests| == |c.futures|
  {
  }

  lemma RegisteredKeeps(c: Calls, received: seq<Frame>)
    requires CallsOk(c, received) && c.command.Some? && c.command.value.phase.Quiet?
    requires Sendable(c.command.value.task)
    ensures CallsOk(Registered(c, |received|), received) && Evolves(c, Registered(c, |received|))
  {
    RegisteredEvolves(c, |received|);
    RegisteredOpen(c, |received|);
    RegisteredCommand(c, received);
    FinishedKept(c, Registered(c, |received|), received, received);
    hide AllFinishedOk;
    hide CommandOk;
    hide OneOpen;
  }

  /** The whole request step. The one entry that can outlive its command is that of a
      request whose frame does not encode. */
  lemma RequestKeeps(c: Calls, received: seq<Frame>, encodes: bool)
    requires CallsOk(c, received) && c.command.Some? && c.command.value.phase.Quiet?
    requires Sendable(c.command.value.task)
    requires encodes <==> |Payload(c.command.value.task, c.command.value.replies != [])| <= MAX_PAYLOAD
    ensures var d := Requested(c, |received|, encodes);
      CallsOk(d, received) && Evolves(c, d)
  {
    RegisteredKeeps(c, received);
    if !encodes {
      var d := Registered(c, |received|);
      assert OneOpen(d.(command := None)) by {
        hide Payload;
        hide AllFinishedOk;
        hide CommandOk;
        assert forall id: nat :: Current(d, id) ==> id == |c.futures| && TooBig(d.requests[id]);
      }
      hide AllFinishedOk;
      hide OneOpen;
      hide Exchange;
      EndKeeps(d, Unencodable, received);
    }
  }

  /** A request text that is not ASCII ends the command with no request made. */
  lemma SpentKeeps(c: Calls, received: seq<Frame>)
    requires CallsOk(c, received) && c.command.Some? && c.command.value.phase.Quiet?
    ensures CallsOk(Spent(c), received) && Evolves(c, Spent(c))
  {
    QuitKeeps(c, NotAscii, received);
    hide Exchange;
    hide Gathered;
    hide FinishedOk;
    IssuedSame(Ended(c, NotAscii), Spent(c), received);
  }

  /** The counter plays no part in correlation. */
  lemma IssuedSame(c: Calls, d: Calls, received: seq<Frame>)
    requires CallsOk(c, received)
    requires d == c.(nextSeq := d.nextSeq, wrapped := d.wrapped, issued := d.issued)
    ensures CallsOk(d, received)
  {
    FinishedKept(c, d, received, received);
    if c.command.Some? {
      var cmd := c.command.value;
      ExchangeKept(cmd.task, cmd.ids, cmd.replies, c, d, received, received);
    }
    hide Exchange;
    hide AllFinishedOk;
    hide Gathered;
  }

  // ----- Replies, timeouts and disconnects -----

  lemma SettleKeeps(c: Calls, received: seq<Frame>, f: Frame, kind: Kind)
    requires CallsOk(c, received) && IsReply(f, kind)
    ensures var d := SettleReply(c, f, kind, |received|);
      CallsOk(d, received + [f]) && Evolves(c, d)
  {
    var d := SettleReply(c, f, kind, |received|);
    SettleOpen(c, f, kind, |received|);
    SettleCorrelated(c, received, f, kind);
    hide SettleReply;
    hide OneOpen;
    hide Correlated;
    hide AllFinishedOk;
    FinishedKept(c, d, received, received + [f]);
    if c.command.Some? {
      var cmd := c.command.value;
      ExchangeKept(cmd.task, cmd.ids, cmd.replies, c, d, received, received + [f]);
      hide Exchange;
      hide Gathered;
    }
  }

  lemma SettleOpen(c: Calls, f: Frame, kind: Kind, at: nat)
    requires OneOpen(c)
    ensures var d := SettleReply(c, f, kind, at);
      && Evolves(c, d) && OneOpen(d)
      && d.command == c.command && d.finished == c.finished
  {
  }

  lemma SettleCorrelated(c: Calls, received: seq<Frame>, f: Frame, kind: Kind)
    requires OneOpen(c) && Correlated(c, received) && IsReply(f, kind)
    ensures Correlated(SettleReply(c, f, kind, |received|), received + [f])
  {
    assert (received + [f])[|received|] == f;
    assert forall k :: 0 <= k < |received| ==> (received + [f])[k] == received[k];
  }

  lemma FailKeeps(c: Calls, received: seq<Frame>)
    requires CallsOk(c, received)
    ensures var d := FailPending(c);
      CallsOk(d, received) && Evolves(c, d)
  {
    var d := FailPending(c);
    assert Evolves(c, d);
    FinishedKept(c, d, received, received);
    if c.command.Some? {
      var cmd := c.command.value;
      ExchangeKept(cmd.task, cmd.ids, cmd.replies, c, d, received, received);
    }
    hide AllFinishedOk;
    hide Exchange;
    hide Gathered;
  }

  lemma AwaitedInRange(c: Calls, received: seq<Frame>)
    requires CallsOk(c, received) && c.command.Some? && c.command.value.phase.Awaiting?
    ensures c.command.value.ids != [] && AwaitedId(c.command.value) < |c.futures| == |c.requests|
  {
  }

  lemma ExpiredOpen(c: Calls, received: seq<Frame>, reason: Reason)
    requires OneOpen(c) && Correlated(c, received) && c.command.Some? && c.command.value.phase.Awaiting?
    requires c.command.value.ids != [] && AwaitedId(c.command.value) < |c.futures|
    ensures var d := Expired(c, AwaitedId(c.command.value), reason);
      OneOpen(d) && Correlated(d, received) && Evolves(c, d)
  {
  }

  lemma ExpireKeeps(c: Calls, received: seq<Frame>, reason: Reason)
    requires CallsOk(c, received) && c.command.Some? && c.command.value.phase.Awaiting?
    ensures c.command.value.ids != [] && AwaitedId(c.command.value) < |c.futures|
    ensures var d := Expired(c, AwaitedId(c.command.value), reason);
      CallsOk(d, received) && Evolves(c, d)
  {
    AwaitedInRange(c, received);
    var cmd := c.command.value;
    hide OneOpen;
    hide Correlated;
    hide Evolves;
    hide AllFinishedOk;
    hide Exchange;
    hide Gathered;
    ExpiredOpen(c, received, reason);
    var d := Expired(c, AwaitedId(cmd), reason);
    FinishedKept(c, d, received, received);
    ExchangeKept(cmd.task, cmd.ids, cmd.replies, c, d, received, received);
  }

  // ----- The awaiting command resumes -----

  /** Popping the awaited entry leaves no entry for it. */
  lemma PoppedOpen(c: Calls, id: nat)
    requires OneOpen(c) && Current(c, id) && id < |c.futures| && !c.futures[id].Pending?
    ensures OneOpen(Popped(c, id).(command := None))
  {
    var d := Popped(c, id);
  }

  /** A failed or expired command ends with its exchange intact. */
  lemma DropKeeps(c: Calls, received: seq<Frame>, how: Ending)
    requires CallsOk(c, received) && CanWake(c, received)
    requires how in {Timeout, ConnectionLost, WasCancelled}
    ensures var d := Ended(Popped(c, AwaitedId(c.command.value)), how);
      CallsOk(d, received) && Evolves(c, d)
  {
    var id := AwaitedId(c.command.value);
    PoppedOpen(c, id);
    FinishedKept(c, Popped(c, id), received, received) by {
      hide AllFinishedOk;
      hide Exchange;
    }
    var cmd := c.command.value;
    ExchangeKept(cmd.task, cmd.ids, cmd.replies, c, Popped(c, id), received, received);
    hide AllFinishedOk;
    hide Exchange;
    hide OneOpen;
    hide Gathered;
    EndKeeps(Popped(c, id), how, received);
  }

  /** The reply joins the exchange. */
  lemma ReplyJoins(c: Calls, received: seq<Frame>)
    requires CallsOk(c, received) && CanWake(c, received)
    requires c.futures[AwaitedId(c.command.value)].Resolved?
    ensures var cmd := c.command.value;
      var p := received[c.futures[AwaitedId(cmd)].at].payload;
      Exchange(cmd.task, cmd.ids, cmd.replies + [p], c, received)
  {
    hide AllFinishedOk;
    hide Gathered;
    hide Payload;
    hide OneOpen;
  }

  /** Gathering one more reply asks for more, or completes, or overflows. */
  lemma {:induction false} GatherOne(buf0: seq<byte>, replies: seq<seq<byte>>, p: seq<byte>, buf: seq<byte>)
    requires FeedAll(buf0, replies, MAX_REPLY_BYTES).1 == buf
    ensures var (answer, next) := FeedOne(buf, p, MAX_REPLY_BYTES);
      FeedAll(buf0, replies + [p], MAX_REPLY_BYTES)
      == (FeedAll(buf0, replies, MAX_REPLY_BYTES).0 + [answer], next)
    decreases |replies|
  {
    hide FeedOne;
    if replies == [] {
      assert [] + [p] == [p] && [p][1..] == [];
      var (answer, next) := FeedOne(buf, p, MAX_REPLY_BYTES);
      assert FeedAll(next, [], MAX_REPLY_BYTES) == ([], next);
      assert [answer] + [] == [] + [answer];
    } else {
      assert (replies + [p])[0] == replies[0] && (replies + [p])[1..] == replies[1..] + [p];
      var (first, next) := FeedOne(buf0, replies[0], MAX_REPLY_BYTES);
      GatherOne(next, replies[1..], p, buf);
      var others := FeedAll(next, replies[1..], MAX_REPLY_BYTES).0;
      Assoc([first], others, [FeedOne(buf, p, MAX_REPLY_BYTES).0]);
    }
  }

  lemma {:induction false} AnswersCount(buf: seq<byte>, replies: seq<seq<byte>>)
    ensures |FeedAll(buf, replies, MAX_REPLY_BYTES).0| == |replies|
    decreases |replies|
  {
    if replies != [] {
      AnswersCount(FeedOne(buf, replies[0], MAX_REPLY_BYTES).1, replies[1..]);
    }
  }

  /** With one more reply the assembler still gathers, or has completed, or overflowed. */
  predicate GathersWith(replies: seq<seq<byte>>, buf: seq<byte>, p: seq<byte>) {
    match FeedOne(buf, p, MAX_REPLY_BYTES)
    case (More, next) =>
      Gathered(replies + [p], next) && (|replies| + 1 == MAX_XML_FRAGMENTS ==> Spoiled(replies + [p]))
    case (Whole(body), _) => Completes(FeedAll([], replies + [p], MAX_REPLY_BYTES), |replies| + 1, body)
    case (Oversize, _) => Spoiled(replies + [p])
  }

  lemma GatheredNext(replies: seq<seq<byte>>, buf: seq<byte>, p: seq<byte>)
    requires Gathered(replies, buf)
    ensures GathersWith(replies, buf, p)
  {
    GatherOne([], replies, p, buf);
    AnswersCount([], replies);
    hide FeedAll;
    hide Contains;
  }

  lemma ConsumeKeeps(c: Calls, received: seq<Frame>)
    requires CallsOk(c, received) && CanWake(c, received)
    requires c.futures[AwaitedId(c.command.value)].Resolved?
    ensures var cmd := c.command.value;
      var p := received[c.futures[AwaitedId(cmd)].at].payload;
      var d := Consume(Popped(c, AwaitedId(cmd)), p);
      CallsOk(d, received) && Evolves(c, d)
  {
    var cmd := c.command.value;
    var id := AwaitedId(cmd);
    var p := received[c.futures[id].at].payload;
    var popped := Popped(c, id);
    PoppedOpen(c, id);
    ReplyJoins(c, received);
    ExchangeKept(cmd.task, cmd.ids, cmd.replies + [p], c, popped, received, received) by {
      hide Exchange;
      hide AllFinishedOk;
    }
    FinishedKept(c, popped, received, received) by {
      hide Exchange;
      hide AllFinishedOk;
    }
    if cmd.task.XmlTask? {
      GatheredNext(cmd.replies, cmd.buf, p);
    }
    ConsumeCase(popped, p, received);
  }

  /** A command whose entry has been popped, about to consume reply payload `p`. */
  predicate ReadyFor(c: Calls, p: seq<byte>, received: seq<Frame>) {
    && c.command.Some? && Correlated(c, received) && AllFinishedOk(c, received)
    && OneOpen(c.(command := None))
    && var cmd := c.command.value;
    && Exchange(cmd.task, cmd.ids, cmd.replies + [p], c, received)
    && |cmd.ids| == |cmd.replies| + 1
    && (cmd.task.BinaryTask? ==> cmd.replies == [])
    && (cmd.task.XmlTask? ==> |cmd.replies| < MAX_XML_FRAGMENTS && GathersWith(cmd.replies, cmd.buf, p))
  }

  lemma ConsumeCase(c: Calls, p: seq<byte>, received: seq<Frame>)
    requires ReadyFor(c, p, received)
    ensures CallsOk(Consume(c, p), received) && Evolves(c, Consume(c, p))
  {
    if Consume(c, p).command.None? {
      ConsumeEnds(c, p, received);
    } else {
      var out := Consume(c, p);
      hide FeedAll;
      hide FeedOne;
      hide Exchange;
      hide AllFinishedOk;
      FinishedKept(c, out, received, received);
      var next := out.command.value;
      ExchangeSame(next.task, next.ids, next.replies, c, out, received);
    }
  }

  lemma ConsumeEnds(c: Calls, p: seq<byte>, received: seq<Frame>)
    requires ReadyFor(c, p, received) && Consume(c, p).command.None?
    ensures CallsOk(Consume(c, p), received) && Evolves(c, Consume(c, p))
  {
    hide FeedOne;
    hide FeedAll;
    hide Completes;
    hide Exchange;
    hide AllFinishedOk;
    var cmd := c.command.value;
    var next := cmd.(replies := cmd.replies + [p]);
    var d := c.(command := Some(next));
    var out := Consume(c, p);
    var how := out.finished[|c.finished|].ending;
    FinishedKept(c, d, received, received);
    ExchangeSame(next.task, next.ids, next.replies, c, d, received);
    assert FinishedOk(Finished(next.task, next.ids, next.replies, how), d, received);
    assert d.(command := None) == c.(command := None);
    hide OneOpen;
    hide FinishedOk;
    EndKeeps(d, how, received);
  }

  lemma ExchangeSame(
    task: Task, ids: seq<nat>, replies: seq<seq<byte>>, c: Calls, d: Calls, received: seq<Frame>)
    requires Exchange(task, ids, replies, c, received)
    requires c.requests == d.requests && c.futures == d.futures
    ensures Exchange(task, ids, replies, d, received)
  {
  }

  lemma WakeKeeps(c: Calls, received: seq<Frame>)
    requires CallsOk(c, received) && CanWake(c, received)
    ensures CallsOk(Woken(c, received), received) && Evolves(c, Woken(c, received))
  {
    hide CallsOk;
    hide Evolves;
    var cmd := c.command.value;
    if cmd.phase.expired.Some? {
      DropKeeps(c, received, EndingOf(cmd.phase.expired.value));
    } else if c.futures[AwaitedId(cmd)].Resolved? {
      ConsumeKeeps(c, received);
    } else {
      DropKeeps(c, received, ConnectionLost);
    }
  }

  // ----- What correlation means -----

  predicate NoneTooBig(c: Calls) {
    forall i :: 0 <= i < |c.requests| ==> !TooBig(c.requests[i])
  }

  /** At most one entry in a pending map. */
  predicate AtMostOneEntry(m: map<int, nat>) {
    forall q, r :: q in m && r in m ==> q == r
  }

  /** While every request so far could be encoded, at most one reply future is outstanding,
      and the two pending maps hold at most its entry between them. */
  lemma AtMostOneOutstanding(c: Calls)
    requires OneOpen(c) && NoneTooBig(c)
    ensures forall i, j | 0 <= i < |c.futures| && 0 <= j < |c.futures| ::
              c.futures[i].Pending? && c.futures[j].Pending? ==> i == j
    ensures AtMostOneEntry(c.pendingXml) && AtMostOneEntry(c.pendingBin)
    ensures forall q, r :: q in c.pendingXml ==> r !in c.pendingBin
  {
    forall q, r | q in c.pendingXml && r in c.pendingXml ensures q == r {
      assert c.pendingXml[q] == c.pendingXml[r];
    }
    forall q, r | q in c.pendingBin && r in c.pendingBin ensures q == r {
      assert c.pendingBin[q] == c.pendingBin[r];
    }
    forall q, r | q in c.pendingXml ensures r !in c.pendingBin {
      NotInBinary(c, c.pendingXml[q], r);
    }
  }

  lemma NotInBinary(c: Calls, id: nat, r: int)
    requires OneOpen(c) && NoneTooBig(c)
    requires id < |c.requests| && Current(c, id) && c.requests[id].kind.Xml?
    ensures r !in c.pendingBin
  {
  }

  /** Every reply a command consumed, so everything a success rests on, is the payload of a
      received reply frame of the command's own kind carrying its own request's sequence. */
  lemma RepliesAreOwn(c: Calls, received: seq<Frame>, n: nat, j: nat)
    requires CallsOk(c, received)
    requires n < |c.finished| && j < |c.finished[n].replies|
    ensures var x := c.finished[n];
      && j < |x.ids| && x.ids[j] < |c.requests|
      && exists k: nat :: k < |received| && RightReply(c.requests[x.ids[j]], k, received)
           && received[k].payload == x.replies[j] && IsReply(received[k], KindOf(x.task))
  {
    var x := c.finished[n];
    assert FinishedOk(x, c, received);
    hide Payload;
    hide OneOpen;
    hide CommandOk;
    hide Completes;
    hide FeedAll;
    var k := c.futures[x.ids[j]].at;
    assert RightReply(c.requests[x.ids[j]], k, received);
  }

  /** xml_command that assembled a body issued exactly one request per fragment, the first
      marked first and the others continuations, and the body is what the assembler makes of
      the replies, in order. */
  lemma FragmentsRequested(c: Calls, received: seq<Frame>, n: nat)
    requires CallsOk(c, received)
    requires n < |c.finished| && c.finished[n].ending.Body?
    ensures var x := c.finished[n];
      && x.task.XmlTask? && 1 <= |x.ids| == |x.replies| <= MAX_XML_FRAGMENTS
      && IsAscii(x.task.xml)
      && (forall j | 0 <= j < |x.ids| ::
            && x.ids[j] < |c.requests|
            && c.requests[x.ids[j]].payload == [if j == 0 then FRAG_FIRST else FRAG_CONT] + Ascii(x.task.xml))
      && Completes(FeedAll([], x.replies, MAX_REPLY_BYTES), |x.replies|, x.ending.body)
  {
    var x := c.finished[n];
    assert FinishedOk(x, c, received);
    hide Completes;
    hide FeedAll;
    hide OneOpen;
    hide CommandOk;
    hide Correlated;
  }

  // ----- A reply cut into pieces -----

  /** `pieces` are what the panel cuts a reply body into: within the size and fragment limits,
      the only closing tag at the very end. */
  predicate ReplyPieces(pieces: seq<seq<byte>>) {
    TaggedAtEnd(pieces) && |Flatten(pieces)| <= MAX_REPLY_BYTES && |pieces| <= MAX_XML_FRAGMENTS
  }

  /** A running command that is being answered with the pieces has not consumed them all, and
      has made no more requests than there are pieces. */
  lemma RunningOnPieces(c: Calls, received: seq<Frame>, pieces: seq<seq<byte>>)
    requires CallsOk(c, received) && c.command.Some? && c.command.value.task.XmlTask?
    requires ReplyPieces(pieces) && MarkedSoFar(c.command.value.replies, pieces)
    ensures |c.command.value.replies| < |pieces| && |c.command.value.ids| <= |pieces|
  {
    var cmd, n := c.command.value, |pieces|;
    PiecesAnswered(cmd.replies, pieces);
    hide OneOpen;
    hide Correlated;
    hide Exchange;
    hide AllFinishedOk;
    hide FeedAll;
    hide TaggedAtEnd;
    LastPiece(FeedAll([], cmd.replies, MAX_REPLY_BYTES).0, n, Flatten(pieces));
  }

  /** A finished command that was answered with the pieces consumed at most all of them, ended
      with the body exactly if it consumed them all, and did not fail on the protocol. */
  lemma FinishedOnPieces(x: Finished, c: Calls, received: seq<Frame>, pieces: seq<seq<byte>>)
    requires FinishedOk(x, c, received) && x.task.XmlTask?
    requires ReplyPieces(pieces) && MarkedSoFar(x.replies, pieces)
    ensures |x.replies| <= |pieces| && |x.ids| <= |pieces| && !x.ending.ProtocolError?
    ensures x.ending == Body(Flatten(pieces)) <==> |x.replies| == |pieces|
    ensures x.ending.Body? ==> x.ending.body == Flatten(pieces)
  {
    var out := FeedAll([], x.replies, MAX_REPLY_BYTES);
    hide *;
    PiecesAnswered(x.replies, pieces);
    if x.ending.Body? {
      FinishedWhole(x, c, received);
      WholeOfPieces(out, |pieces|, Flatten(pieces), x.ending.body);
    } else {
      FinishedShort(x, c, received);
      SpoilsNothing(x.replies, |pieces|, Flatten(pieces));
    }
  }

  lemma PiecesAnswered(replies: seq<seq<byte>>, pieces: seq<seq<byte>>)
    requires ReplyPieces(pieces) && MarkedSoFar(replies, pieces)
    ensures 0 < |pieces| <= MAX_XML_FRAGMENTS
    ensures var answers := FeedAll([], replies, MAX_REPLY_BYTES).0;
      |answers| == |replies| && PieceAnswers(answers, |pieces|, Flatten(pieces))
  {
    AnswersToPieces(replies, pieces, MAX_REPLY_BYTES);
    hide FeedAll;
    hide Contains;
  }

  /** The part of FinishedOk about a body. */
  lemma FinishedWhole(x: Finished, c: Calls, received: seq<Frame>)
    requires FinishedOk(x, c, received) && x.ending.Body?
    ensures |x.ids| == |x.replies| && x.replies != []
    ensures Completes(FeedAll([], x.replies, MAX_REPLY_BYTES), |x.replies|, x.ending.body)
  {
    hide Exchange;
    hide FeedAll;
    hide Completes;
  }

  /** The part of FinishedOk about an XML command that ended without a body. */
  lemma FinishedShort(x: Finished, c: Calls, received: seq<Frame>)
    requires FinishedOk(x, c, received) && x.task.XmlTask? && !x.ending.Body?
    ensures |x.ids| <= |x.replies| + 1
    ensures if x.ending.ProtocolError? then Spoiled(x.replies) else AllMore(x.replies)
  {
    hide Exchange;
    hide FeedAll;
  }

  /** Answers to the pieces, as far as they go. */
  predicate PieceAnswers(answers: seq<Fed>, n: nat, whole: seq<byte>) {
    forall i :: 0 <= i < |answers| && i < n ==> answers[i] == if i == n - 1 then Whole(whole) else More
  }

  lemma WholeOfPieces(out: (seq<Fed>, seq<byte>), n: nat, whole: seq<byte>, body: seq<byte>)
    requires n > 0 && PieceAnswers(out.0, n, whole) && out.0 != [] && Completes(out, |out.0|, body)
    ensures |out.0| == n && body == whole
  {
    LastPiece(out.0, n, whole);
  }

  lemma SpoilsNothing(replies: seq<seq<byte>>, n: nat, whole: seq<byte>)
    requires 0 < n <= MAX_XML_FRAGMENTS
    requires var answers := FeedAll([], replies, MAX_REPLY_BYTES).0;
      |answers| == |replies| && PieceAnswers(answers, n, whole)
    ensures !Spoiled(replies)
    ensures AllMore(replies) ==> |replies| < n
  {
    LastPiece(FeedAll([], replies, MAX_REPLY_BYTES).0, n, whole);
    hide FeedAll;
  }

  lemma LastPiece(answers: seq<Fed>, n: nat, whole: seq<byte>)
    requires n > 0 && PieceAnswers(answers, n, whole)
    ensures n <= |answers| ==> answers[n - 1] == Whole(whole)
  {
  }

  // ----- Late replies -----

  /** Right after a request is made, a reply settles it exactly when it has the request's kind
      and sequence. */
  lemma SettlesNewest(c: Calls, received: seq<Frame>, f: Frame, kind: Kind)
    requires OneOpen(c) && c.command.Some? && 0 <= f.sequence < 0x1_0000_0000
    ensures var d := SettleReply(Heard(Registered(c, |received|), f), f, kind, |received|);
      && |d.futures| == |c.futures| + 1
      && (d.futures[|c.futures|] == Resolved(|received|)
          <==> kind == KindOf(c.command.value.task) && f.sequence == NextSequence(c))
  {
    hide Payload;
  }

  // ----- Sequence freshness -----

  /** Sequence `q` came in a received frame or was allocated. */
  ghost predicate Seen(q: int, issued: seq<u32>, received: seq<Frame>) {
    || (exists k :: 0 <= k < |received| && received[k].sequence == q)
    || q in issued
  }

  lemma SeenGrows(q: int, issued: seq<u32>, received: seq<Frame>, more: seq<u32>, later: seq<Frame>)
    requires Seen(q, issued, received) && issued <= more && received <= later
    ensures Seen(q, more, later)
  {
    if k :| 0 <= k < |received| && received[k].sequence == q {
      assert later[k].sequence == q;
    } else {
      assert q in more[..|issued|];
    }
  }

  /** The counter stands at a sequence that was received or allocated, or has never moved; and
      a counter that has wrapped had reached the top. */
  ghost predicate Attained(c: Calls, received: seq<Frame>) {
    && (c.nextSeq == 0 || Seen(c.nextSeq, c.issued, received))
    && (c.wrapped ==> Seen(0xFFFF_FFFF, c.issued, received))
  }

  /** Every request carries a sequence that was allocated. */
  predicate Numbered(c: Calls) {
    forall i :: 0 <= i < |c.requests| ==> c.requests[i].sequence in c.issued
  }

  /** The counter is attained; until it wraps it bounds every sequence seen, requests are
      numbered strictly upwards, and above everything received before them. */
  ghost predicate Fresh(c: Calls, received: seq<Frame>) {
    Attained(c, received) && Numbered(c) && Ascending(c, received)
  }

  predicate Ascending(c: Calls, received: seq<Frame>) {
    !c.wrapped ==>
      && (forall k :: 0 <= k < |received| ==> received[k].sequence <= c.nextSeq)
      && (forall q :: q in c.issued ==> q <= c.nextSeq)
      && (forall i :: 0 <= i < |c.requests| ==> c.requests[i].sequence <= c.nextSeq)
      && (forall i, j :: 0 <= i < j < |c.requests| ==> c.requests[i].sequence < c.requests[j].sequence)
      && (forall i, k :: 0 <= i < |c.requests| && 0 <= k < c.requests[i].after && k < |received| ==>
            received[k].sequence < c.requests[i].sequence)
  }

  lemma AllocatedFresh(c: Calls, received: seq<Frame>)
    requires Fresh(c, received)
    ensures Fresh(Allocated(c), received)
  {
    AllocatedAttained(c, received);
    hide Attained;
  }

  lemma AllocatedAttained(c: Calls, received: seq<Frame>)
    requires Attained(c, received)
    ensures Attained(Allocated(c), received)
  {
    var d := Allocated(c);
    assert d.issued[|c.issued|] == d.nextSeq;
    if d.wrapped {
      assert c.wrapped || c.nextSeq == 0xFFFF_FFFF;
      SeenGrows(0xFFFF_FFFF, c.issued, received, d.issued, received);
    }
  }

  lemma RegisteredFresh(c: Calls, received: seq<Frame>)
    requires Fresh(c, received) && c.command.Some?
    ensures Fresh(Registered(c, |received|), received)
  {
    AllocatedAttained(c, received);
    RegisteredAscending(c, received);
    hide Attained;
    hide Ascending;
    hide Payload;
    AttainedSame(Allocated(c), Registered(c, |received|), received);
  }

  lemma AttainedSame(c: Calls, d: Calls, received: seq<Frame>)
    requires Attained(c, received)
    requires d.nextSeq == c.nextSeq && d.wrapped == c.wrapped && d.issued == c.issued
    ensures Attained(d, received)
  {
  }

  lemma RegisteredAscending(c: Calls, received: seq<Frame>)
    requires Ascending(c, received) && c.command.Some?
    ensures Ascending(Registered(c, |received|), received)
  {
    hide Payload;
  }

  /** `max` with the sequence of a received frame. */
  function Heard(c: Calls, f: Frame): Calls
    requires 0 <= f.sequence < 0x1_0000_0000
  {
    c.(nextSeq := if f.sequence > c.nextSeq then f.sequence else c.nextSeq)
  }

  lemma HeardFresh(c: Calls, received: seq<Frame>, f: Frame)
    requires Fresh(c, received) && 0 <= f.sequence < 0x1_0000_0000
    requires forall i :: 0 <= i < |c.requests| ==> c.requests[i].after <= |received|
    ensures Fresh(Heard(c, f), received + [f])
  {
    HeardAttained(c, received, f);
    hide Attained;
  }

  lemma HeardAttained(c: Calls, received: seq<Frame>, f: Frame)
    requires Attained(c, received) && 0 <= f.sequence < 0x1_0000_0000
    ensures Attained(Heard(c, f), received + [f])
  {
    var later := received + [f];
    assert later[|received|].sequence == f.sequence;
    if Seen(c.nextSeq, c.issued, received) {
      SeenGrows(c.nextSeq, c.issued, received, c.issued, later);
    }
    if c.wrapped {
      SeenGrows(0xFFFF_FFFF, c.issued, received, c.issued, later);
    }
  }

  /** The sequence allocated next is above everything received or allocated before it exactly
      when the counter has not wrapped, at this allocation or before. */
  lemma AllocationFreshIff(c: Calls, received: seq<Frame>)
    requires Fresh(c, received)
    ensures !Allocated(c).wrapped <==>
      && (forall k :: 0 <= k < |received| ==> received[k].sequence < NextSequence(c))
      && (forall q :: q in c.issued ==> q < NextSequence(c))
  {
    if Allocated(c).wrapped {
      assert Seen(0xFFFF_FFFF, c.issued, received);
      hide Ascending;
    }
  }

  /** So until it wraps, a reply frame can settle only the one request it answers: a late
      reply to an earlier request or fragment never settles a later one. */
  lemma NoCrossTalk(c: Calls, received: seq<Frame>, i: nat, j: nat, k: nat)
    requires CallsOk(c, received) && Fresh(c, received) && !c.wrapped
    requires i < |c.requests| && j < |c.requests| && k < |received|
    requires received[k].sequence == c.requests[i].sequence && i != j
    ensures c.futures[j] != Resolved(k)
  {
    hide CommandOk;
    hide AllFinishedOk;
    hide OneOpen;
  }
}
