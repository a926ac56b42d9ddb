/** Sessions that reach what the session theorems rule out only under a condition: a leaked
    future, a sequence allocated twice, a late reply that settles a later request
    (spcedp/client.py:111-113, 243-256, 281-307, 619-632). */
module SessionWitness {
  import opened Bytes
  import opened Codec
  import opened Reassembly
  import opened Requests
  import opened RequestSafety
  import opened SessionModel
  import opened SessionSafety

  // ----- Taking one more step -----

  lemma {:induction false} RunsOneMore(env: Env, s: State, actions: seq<Action>, a: Action)
    requires SessionModel.Runs(env, s, actions)
    requires SessionModel.Enabled(SessionModel.After(env, s, actions), a)
    ensures SessionModel.Runs(env, s, actions + [a])
    ensures SessionModel.After(env, s, actions + [a])
         == SessionModel.Next(env, SessionModel.After(env, s, actions), a)
    decreases |actions|
  {
    hide SessionModel.Next;
    hide SessionModel.Enabled;
    if actions == [] {
      assert [] + [a] == [a] && [a][1..] == [];
      assert SessionModel.Runs(env, SessionModel.Next(env, s, a), []);
    } else {
      assert (actions + [a])[0] == actions[0] && (actions + [a])[1..] == actions[1..] + [a];
      RunsOneMore(env, SessionModel.Next(env, s, actions[0]), actions[1..], a);
    }
  }

  lemma StepReachable(env: Env, s: State, a: Action)
    requires Reachable(env, s) && SessionModel.Enabled(s, a)
    ensures Reachable(env, SessionModel.Next(env, s, a))
  {
    hide SessionModel.Next;
    hide SessionModel.Enabled;
    hide SessionModel.Runs;
    hide SessionModel.After;
    var actions: seq<Action> :| SessionModel.Runs(env, START, actions) && s == SessionModel.After(env, START, actions);
    RunsOneMore(env, START, actions, a);
  }

  lemma StartReachable(env: Env)
    ensures Reachable(env, START)
  {
    assert SessionModel.Runs(env, START, []) && START == SessionModel.After(env, START, []);
  }

  /** An open session between commands, with room in its write queue. */
  ghost predicate Ready(env: Env, s: State) {
    && Reachable(env, s) && s.calls.command.None?
    && !s.out.closed && |s.out.queue| <= 8 && s.lastReceived <= s.now
  }

  function Began(c: Calls, task: Task): Calls {
    c.(command := Some(Command(task, [], [], [], Quiet)))
  }

  /** A command begins, waits out the quiet time, and makes its first request. */
  lemma FirstRequest(env: Env, s: State, task: Task) returns (t: State)
    requires UsableKey(env.key) && Ready(env, s) && Acceptable(task) && Sendable(task)
    ensures Reachable(env, t)
    ensures t.calls == Requested(Began(s.calls, task), |s.received|, |Payload(task, false)| <= MAX_PAYLOAD)
    ensures t.received == s.received && t.lastReceived <= t.now
    ensures !t.out.closed && |t.out.queue| <= |s.out.queue| + 1
  {
    hide Payload;
    var begun := s.(calls := Began(s.calls, task));
    var waited := begun.(now := s.now + COMMAND_QUIET_TIME);
    hide Reachable;
    StepReachable(env, s, Begin(task));
    assert SessionModel.Next(env, s, Begin(task)) == begun;
    StepReachable(env, begun, Tick(COMMAND_QUIET_TIME));
    assert SessionModel.Next(env, begun, Tick(COMMAND_QUIET_TIME)) == waited;
    StepReachable(env, waited, QuietOver);
    t := SessionModel.Next(env, waited, QuietOver);
    RequestFrameEncodes(env, waited);
    hide Encode;
    hide Requested;
  }

  /** A received frame that is no reply and wants no acknowledgement only raises the counter. */
  lemma Overhear(env: Env, s: State, f: Frame) returns (t: State)
    requires Ready(env, s) && FromDecoder(f) && f.major == 0
    ensures Ready(env, t) && t.calls == Heard(s.calls, f) && t.received == s.received + [f]
    ensures t.out == s.out
  {
    StepReachable(env, s, SessionModel.Receive(f));
    hide Reachable;
    t := SessionModel.Next(env, s, SessionModel.Receive(f));
    hide Acked;
  }

  /** A received reply to an area command. */
  lemma Answer(env: Env, s: State, f: Frame) returns (t: State)
    requires Reachable(env, s) && FromDecoder(f) && IsReply(f, Binary)
    ensures Reachable(env, t) && t.received == s.received + [f]
    ensures t.calls == SettleReply(Heard(s.calls, f), f, Binary, |s.received|)
  {
    StepReachable(env, s, SessionModel.Receive(f));
    hide Reachable;
    t := SessionModel.Next(env, s, SessionModel.Receive(f));
    DeliverReply(env, s, f, Binary);
    hide Acked;
    hide SettleReply;
  }

  // ----- Two futures outstanding -----

  /** The text of a request with a command ID of 65497 letters: its payload is 65515 bytes. */
  function LongText(): string {
    "<COMMAND ID=\"" + seq(65497, _ => 'A') + "\" />"
  }

  lemma LongTextTooLong()
    ensures IsAscii(LongText()) && |LongText()| == MAX_PAYLOAD
  {
    var head, id, tail := "<COMMAND ID=\"", seq(65497, _ => 'A'), "\" />";
    assert |head| == 13 && |tail| == 4;
    assert IsAscii(head) && IsAscii(id) && IsAscii(tail);
  }

  /** A request one byte too long, then an ordinary one: the first future is still open and
      registered when the second is. */
  lemma TwoOutstanding(env: Env) returns (s: State)
    requires UsableKey(env.key)
    ensures Reachable(env, s) && s.calls.futures == [Pending, Pending]
    ensures s.calls.pendingXml == map[1 := 0] && s.calls.pendingBin == map[2 := 1]
    ensures !Current(s.calls, 0)
  {
    StartReachable(env);
    hide Reachable;
    var long := XmlTask(LongText());
    LongTextTooLong();
    hide LongText;
    var first := FirstRequest(env, START, long);
    assert |Payload(long, false)| == MAX_PAYLOAD + 1;
    s := FirstRequest(env, first, BinaryTask(1, 1));
    assert s.calls.futures[0].Pending? && !Current(s.calls, 0);
  }

  // ----- The counter wraps -----

  const TOP := Frame(0, 0, 0xFFFF_FFFF, 0, 0, [], 0, 0)

  /** A received frame can make the very next allocation wrap: the sequence is 0, below that
      of the frame. */
  lemma AllocationWraps(env: Env) returns (s: State)
    requires UsableKey(env.key)
    ensures Reachable(env, s) && s.calls.wrapped && s.received == [TOP]
    ensures s.calls.requests == [Request(Binary, 0, [1, 1, 0], 1)]
    ensures s.calls.requests[0].after == 1 && s.calls.requests[0].sequence < s.received[0].sequence
  {
    StartReachable(env);
    hide Reachable;
    var heard := Overhear(env, START, TOP);
    s := FirstRequest(env, heard, BinaryTask(1, 1));
  }

  /** The command awaiting `id` times out and resumes. */
  lemma TimeOut(env: Env, s: State, id: nat) returns (t: State)
    requires Reachable(env, s) && !s.out.closed && |s.out.queue| <= 8 && s.lastReceived <= s.now
    requires s.calls.command.Some? && Current(s.calls, id)
    requires id < |s.calls.futures| && id < |s.calls.requests| && s.calls.futures[id].Pending?
    ensures Ready(env, t) && t.received == s.received && t.out == s.out
    ensures var c := s.calls.(futures := s.calls.futures[id := Cancelled]);
      t.calls == Ended(Popped(c, id), Timeout)
  {
    StepReachable(env, s, Expire(TimedOut));
    var expired := SessionModel.Next(env, s, Expire(TimedOut));
    StepReachable(env, expired, Wake);
    t := SessionModel.Next(env, expired, Wake);
    hide Reachable;
  }

  const LATE := Frame(0, 0, 0, 4, 2, [REPLY_OK], 0, 0)

  /** After a wrap a late reply can settle a later request than its own: the first command
      times out, a frame makes the counter wrap again, the second command is given the same
      sequence, and the reply to the first settles the second. */
  lemma LateReplyCrosses(env: Env) returns (s: State)
    requires UsableKey(env.key)
    ensures Reachable(env, s) && s.calls.wrapped
    ensures s.calls.requests == [Request(Binary, 0, [1, 1, 0], 1), Request(Binary, 0, [2, 1, 0], 2)]
    ensures s.received == [TOP, TOP, LATE] && s.received[2].sequence == s.calls.requests[0].sequence
    ensures s.calls.futures == [Cancelled, Resolved(2)]
  {
    StartReachable(env);
    hide Reachable;
    var heard := Overhear(env, START, TOP);
    var first := FirstRequest(env, heard, BinaryTask(1, 1));
    var free := TimeOut(env, first, 0);
    var again := Overhear(env, free, TOP);
    var second := FirstRequest(env, again, BinaryTask(2, 1));
    s := Answer(env, second, LATE);
  }
}
