/** The bounded SIA event stream of a session (spcedp/client.py:50-52, 330-393): emit drops
    the oldest when full, a cancelled consumer puts its event back at the front. */
module EventStream {
  import opened Bytes

  const EVENT_QUEUE_MAXSIZE := 1024

  /** Where the one consumer of events() stands between awaits. `Holding` has pulled an event
      it has not yielded yet; `Draining` empties the queue after the session closed. */
  datatype Consumer = Idle | Waiting | Holding(id: nat) | Draining

  /** Events are named by the order of emission. */
  datatype Stream = Stream(emitted: nat, queue: seq<nat>, consumer: Consumer, delivered: seq<nat>)

  const EMPTY := Stream(0, [], Idle, [])

  /** The atomic steps. `Cancel` is the consumer being cancelled, whether or not its get has
      already pulled; `SeeClosed` is events() noticing the disconnect. */
  datatype Step = Emit | Ask | Pull | Yield | Cancel | SeeClosed | DrainOne | DrainEnd

  function Enqueue(queue: seq<nat>, id: nat): seq<nat> {
    if |queue| < EVENT_QUEUE_MAXSIZE then queue + [id] else queue[1..] + [id]
  }

  /** `_requeue_event`: the event goes to the front, the newest falls out if it must. */
  function Requeue(queue: seq<nat>, id: nat): seq<nat> {
    var items := [id] + queue;
    if |items| <= EVENT_QUEUE_MAXSIZE then items else items[..EVENT_QUEUE_MAXSIZE]
  }

  predicate Enabled(s: Stream, step: Step) {
    match step
    case Emit => true
    case Ask => s.consumer.Idle?
    case Pull => s.consumer.Waiting? && s.queue != []
    case Yield => s.consumer.Holding?
    case Cancel => !s.consumer.Idle?
    case SeeClosed => s.consumer.Waiting?
    case DrainOne => s.consumer.Draining? && s.queue != []
    case DrainEnd => s.consumer.Draining? && s.queue == []
  }

  function Next(s: Stream, step: Step): Stream
    requires Enabled(s, step)
  {
    match step
    case Emit => s.(emitted := s.emitted + 1, queue := Enqueue(s.queue, s.emitted))
    case Ask => s.(consumer := Waiting)
    case Pull => s.(consumer := Holding(s.queue[0]), queue := s.queue[1..])
    case Yield => s.(consumer := Idle, delivered := s.delivered + [s.consumer.id])
    case Cancel =>
      s.(consumer := Idle, queue := if s.consumer.Holding? then Requeue(s.queue, s.consumer.id) else s.queue)
    case SeeClosed => s.(consumer := Draining)
    case DrainOne => s.(queue := s.queue[1..], delivered := s.delivered + [s.queue[0]])
    case DrainEnd => s.(consumer := Idle)
  }

  function Held(c: Consumer): seq<nat> {
    if c.Holding? then [c.id] else []
  }

  /** Everything not lost so far: delivered, then in flight, then queued. */
  function Line(s: Stream): seq<nat> {
    s.delivered + Held(s.consumer) + s.queue
  }

  predicate Increasing(ids: seq<nat>, bound: nat) {
    && (forall i :: 0 <= i < |ids| ==> ids[i] < bound)
    && (forall i, j :: 0 <= i < j < |ids| ==> ids[i] < ids[j])
  }

  /** The line is an order-preserving, duplicate-free subsequence of the emissions. */
  predicate InOrder(s: Stream) {
    |s.queue| <= EVENT_QUEUE_MAXSIZE && Increasing(Line(s), s.emitted)
  }

  /** The steps that lose an event: an emit into a full queue, or putting an event back into
      a queue that has filled up meanwhile. */
  predicate Loses(s: Stream, step: Step) {
    |s.queue| >= EVENT_QUEUE_MAXSIZE && (step.Emit? || (step.Cancel? && s.consumer.Holding?))
  }

  lemma IncreasingMiddleGone(a: seq<nat>, x: nat, b: seq<nat>, bound: nat)
    requires Increasing(a + [x] + b, bound)
    ensures Increasing(a + b, bound)
  {
    var s, t := a + [x] + b, a + b;
    assert forall i :: 0 <= i < |t| ==> t[i] == s[if i < |a| then i else i + 1];
  }

  lemma IncreasingPush(a: seq<nat>, bound: nat)
    requires Increasing(a, bound)
    ensures Increasing(a + [bound], bound + 1)
  {
  }

  /** One emit keeps order and loses exactly one event when, and only when, the queue is full. */
  lemma EmitLine(s: Stream)
    requires InOrder(s)
    ensures InOrder(Next(s, Emit))
    ensures |Line(Next(s, Emit))| == |Line(s)| + (if Loses(s, Emit) then 0 else 1)
  {
    var front := s.delivered + Held(s.consumer);
    var id := s.emitted;
    if |s.queue| < EVENT_QUEUE_MAXSIZE {
      Assoc(front, s.queue, [id]);
      IncreasingPush(Line(s), id);
    } else {
      assert s.queue == [s.queue[0]] + s.queue[1..];
      Assoc(front, [s.queue[0]], s.queue[1..]);
      IncreasingMiddleGone(front, s.queue[0], s.queue[1..], id);
      Assoc(front, s.queue[1..], [id]);
      IncreasingPush(front + s.queue[1..], id);
    }
  }

  lemma CancelLine(s: Stream)
    requires InOrder(s) && Enabled(s, Cancel)
    ensures InOrder(Next(s, Cancel))
    ensures |Line(Next(s, Cancel))| == |Line(s)| - (if Loses(s, Cancel) then 1 else 0)
  {
    var t := Next(s, Cancel);
    assert s.delivered + [] == s.delivered;
    if s.consumer.Holding? {
      var id := s.consumer.id;
      Assoc(s.delivered, [id], s.queue);
      if |s.queue| >= EVENT_QUEUE_MAXSIZE {
        assert Line(t) == Line(s)[..|Line(s)| - 1];
      }
    }
  }

  /** Every step keeps the line in order; the steps that lose lose exactly one event, the
      others none. */
  lemma StepLine(s: Stream, step: Step)
    requires InOrder(s) && Enabled(s, step)
    ensures var t := Next(s, step);
      && InOrder(t)
      && t.emitted - |Line(t)| == s.emitted - |Line(s)| + (if Loses(s, step) then 1 else 0)
  {
    var t := Next(s, step);
    assert s.delivered + [] == s.delivered;
    match step
    case Emit => EmitLine(s);
    case Cancel => CancelLine(s);
    case Pull => assert Line(t) == Line(s);
    case Yield => assert Line(t) == Line(s);
    case DrainOne =>
      assert Line(t) == s.delivered + [s.queue[0]] + s.queue[1..];
      assert Line(t) == Line(s);
    case _ =>
  }

  /** Which event moves where: a new one goes to the back, and a full queue gives up its oldest
      for it; an event put back goes to the front, and a full queue gives up its newest; the
      consumer takes the oldest, holds it, and is handed it. */
  lemma StepMoves(s: Stream, step: Step)
    requires Enabled(s, step)
    ensures var t := Next(s, step);
      match step
      case Emit => t == Stream(s.emitted + 1, (if |s.queue| < 1024 then s.queue else s.queue[1..]) + [s.emitted],
                               s.consumer, s.delivered)
      case Pull => t == Stream(s.emitted, s.queue[1..], Holding(s.queue[0]), s.delivered)
      case Yield => t == Stream(s.emitted, s.queue, Idle, s.delivered + [s.consumer.id])
      case DrainOne => t == Stream(s.emitted, s.queue[1..], Draining, s.delivered + [s.queue[0]])
      case Cancel =>
        t == Stream(s.emitted,
                    if !s.consumer.Holding? then s.queue
                    else [s.consumer.id] + (if |s.queue| < 1024 then s.queue else s.queue[..1023]),
                    Idle, s.delivered)
      case _ => t == s.(consumer := t.consumer)
  {
  }

  // ----- Whole runs -----

  /** A run of enabled steps from `s`. */
  predicate Runs(s: Stream, steps: seq<Step>)
    decreases |steps|
  {
    steps == [] || (Enabled(s, steps[0]) && Runs(Next(s, steps[0]), steps[1..]))
  }

  function After(s: Stream, steps: seq<Step>): Stream
    requires Runs(s, steps)
    decreases |steps|
  {
    if steps == [] then s else After(Next(s, steps[0]), steps[1..])
  }

  /** How many steps of a run lose an event. */
  function Losses(s: Stream, steps: seq<Step>): nat
    requires Runs(s, steps)
    decreases |steps|
  {
    if steps == [] then 0
    else (if Loses(s, steps[0]) then 1 else 0) + Losses(Next(s, steps[0]), steps[1..])
  }

  /** In-flight plus queued events, the one about to arrive included, fit the capacity at
      every step. */
  predicate NeverOverCapacity(s: Stream, steps: seq<Step>)
    requires Runs(s, steps)
    decreases |steps|
  {
    steps != [] ==>
      && |Held(s.consumer)| + |s.queue| + (if steps[0].Emit? then 1 else 0) <= 1024
      && NeverOverCapacity(Next(s, steps[0]), steps[1..])
  }

  /** Over any mix of emits, gets, cancellations and requeues the line stays in order, and
      the number of events missing from it is the number of losing steps. */
  lemma {:induction false} RunLine(s: Stream, steps: seq<Step>)
    requires InOrder(s) && Runs(s, steps)
    ensures var t := After(s, steps);
      InOrder(t) && t.emitted - |Line(t)| == s.emitted - |Line(s)| + Losses(s, steps)
    decreases |steps|
  {
    if steps != [] {
      StepLine(s, steps[0]);
      RunLine(Next(s, steps[0]), steps[1..]);
    }
  }

  lemma {:induction false} IncreasingFull(ids: seq<nat>)
    requires Increasing(ids, |ids|)
    ensures forall i :: 0 <= i < |ids| ==> ids[i] == i
  {
    if ids != [] {
      var n := |ids| - 1;
      assert forall i :: 0 <= i < n ==> ids[..n][i] < ids[n] <= n;
      IncreasingFull(ids[..n]);
      if n > 0 {
        assert ids[n - 1] == ids[..n][n - 1] < ids[n];
      }
      forall i | 0 <= i < n ensures ids[i] == i {
        assert ids[i] == ids[..n][i];
      }
    }
  }

  /** While the capacity is never exceeded, delivered ++ in-flight ++ queued is exactly what
      was emitted, in order. */
  lemma {:induction false} NothingLost(steps: seq<Step>)
    requires Runs(EMPTY, steps) && NeverOverCapacity(EMPTY, steps)
    ensures var t := After(EMPTY, steps);
      |Line(t)| == t.emitted && forall i :: 0 <= i < t.emitted ==> Line(t)[i] == i
  {
    RunLine(EMPTY, steps);
    CapacityMeansNoLoss(EMPTY, steps);
    IncreasingFull(Line(After(EMPTY, steps)));
  }

  lemma {:induction false} CapacityMeansNoLoss(s: Stream, steps: seq<Step>)
    requires Runs(s, steps) && NeverOverCapacity(s, steps)
    ensures Losses(s, steps) == 0
    decreases |steps|
  {
    if steps != [] {
      CapacityMeansNoLoss(Next(s, steps[0]), steps[1..]);
    }
  }
}
