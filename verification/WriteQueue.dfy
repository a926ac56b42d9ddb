/** The bounded write queue of a session (spcedp/client.py:64-67, 127-190). */
module WriteQueue {
  import opened Bytes
  import opened Codec

  const WRITE_QUEUE_MAXSIZE := 2048

  /** One frame handed to `_send`: what it encoded to, whether it was a command request, when
      and after how many received frames it was handed over, and whether the queue took it. */
  datatype Posted = Posted(
    frame: Frame, wire: seq<byte>, command: bool, at: int, after: nat, accepted: bool)

  /** `written` holds what the writer task has passed to the transport, in order. */
  datatype Outbox = Outbox(
    queue: seq<seq<byte>>, written: seq<seq<byte>>, posted: seq<Posted>,
    closed: bool, teardownRequested: bool)

  const NEW := Outbox([], [], [], false, false)

  function RequestTeardown(o: Outbox): Outbox {
    o.(closed := true, teardownRequested := true)
  }

  /** `_send` of an already encoded frame: queue it, or refuse it and request teardown. */
  function Post(o: Outbox, frame: Frame, wire: seq<byte>, command: bool, at: int, after: nat): Outbox {
    if |o.queue| < WRITE_QUEUE_MAXSIZE then
      o.(queue := o.queue + [wire], posted := o.posted + [Posted(frame, wire, command, at, after, true)])
    else
      RequestTeardown(o).(posted := o.posted + [Posted(frame, wire, command, at, after, false)])
  }

  /** One turn of the writer task. */
  function WriteOne(o: Outbox): Outbox
    requires o.queue != []
  {
    o.(queue := o.queue[1..], written := o.written + [o.queue[0]])
  }

  /** The wire images the queue took, in order. */
  function Accepted(posted: seq<Posted>): seq<seq<byte>> {
    if posted == [] then []
    else
      var last := posted[|posted| - 1];
      Accepted(posted[..|posted| - 1]) + (if last.accepted then [last.wire] else [])
  }

  function Wires(posted: seq<Posted>): seq<seq<byte>> {
    seq(|posted|, i requires 0 <= i < |posted| => posted[i].wire)
  }

  /** Conservation: what the queue took is what was written followed by what is queued; a
      frame was only ever refused by closing the session. */
  predicate Conserved(o: Outbox) {
    && |o.queue| <= WRITE_QUEUE_MAXSIZE
    && Accepted(o.posted) == o.written + o.queue
    && (o.closed <==> o.teardownRequested)
    && (forall i :: 0 <= i < |o.posted| && !o.posted[i].accepted ==> o.closed)
  }

  lemma AcceptedSnoc(posted: seq<Posted>, p: Posted)
    ensures Accepted(posted + [p]) == Accepted(posted) + (if p.accepted then [p.wire] else [])
  {
    assert (posted + [p])[..|posted|] == posted;
  }

  lemma PostConserves(o: Outbox, frame: Frame, wire: seq<byte>, command: bool, at: int, after: nat)
    requires Conserved(o)
    ensures Conserved(Post(o, frame, wire, command, at, after))
  {
    var accepted := |o.queue| < WRITE_QUEUE_MAXSIZE;
    AcceptedSnoc(o.posted, Posted(frame, wire, command, at, after, accepted));
    Assoc(o.written, o.queue, [wire]);
    hide Accepted;
    assert Accepted(o.posted) + [] == Accepted(o.posted);
  }

  lemma WriteConserves(o: Outbox)
    requires Conserved(o) && o.queue != []
    ensures Conserved(WriteOne(o))
  {
    Assoc(o.written, [o.queue[0]], o.queue[1..]);
    assert o.queue == [o.queue[0]] + o.queue[1..];
  }

  lemma {:induction false} AllAccepted(posted: seq<Posted>)
    requires forall i :: 0 <= i < |posted| ==> posted[i].accepted
    ensures Accepted(posted) == Wires(posted)
  {
    if posted != [] {
      AllAccepted(posted[..|posted| - 1]);
    }
  }

  /** While no teardown is requested, every frame handed to `_send` has been written or is
      queued, in order. */
  lemma NothingRefusedWhileOpen(o: Outbox)
    requires Conserved(o) && !o.teardownRequested
    ensures Wires(o.posted) == o.written + o.queue
  {
    AllAccepted(o.posted);
  }

  // ----- Commands and acknowledgements among the posted frames -----

  /** The frames of the posted entries that are commands, or that are not. */
  function Kindred(posted: seq<Posted>, command: bool): seq<Frame> {
    if posted == [] then []
    else
      var last := posted[|posted| - 1];
      Kindred(posted[..|posted| - 1], command) + (if last.command == command then [last.frame] else [])
  }

  lemma KindredSnoc(posted: seq<Posted>, p: Posted, command: bool)
    ensures Kindred(posted + [p], command)
         == Kindred(posted, command) + (if p.command == command then [p.frame] else [])
  {
    assert (posted + [p])[..|posted|] == posted;
  }
}
