/** What the decoder does at the front of its buffer, case by case, and exactly when it raises
    (spcedp/wire.py:318-397). */
module DecoderErrors {
  import opened Bytes
  import opened Cipher
  import opened Codec
  import opened WireFormat
  import opened Decoder

  /** A header that could start a frame: a claim of 23 to 16384 bytes and the protocol bytes. */
  predicate Plausible(buf: seq<byte>) {
    |buf| >= 23 && 23 <= U16(buf, 0) + 2 <= 16384 && buf[2] == 0x45 && buf[3] == 0x02
  }

  /** A whole plausible frame stands at the front. */
  predicate Complete(buf: seq<byte>) {
    Plausible(buf) && U16(buf, 0) + 2 <= |buf|
  }

  /** One byte goes, and the wait is off; it is one too many from the 8193rd in a row on. */
  predicate DropsOne(d: Dec, t: Turn) {
    && d.buf != []
    && t == if d.dropped < 8192 then Skip(d.buf[0], Dec(d.buf[1..], d.dropped + 1, None, 0))
            else GiveUp(d.buf[0], Dec(d.buf[1..], d.dropped + 1, None, 0))
  }

  /** A plausible header waits for the rest of its frame, as long as the buffer has grown by at
      most 8192 bytes since this wait began. */
  predicate WaitsOrDrops(d: Dec, t: Turn)
    requires Plausible(d.buf)
  {
    var total := U16(d.buf, 0) + 2;
    var start := if d.waitTotal == Some(total) then d.waitStart else |d.buf|;
    if |d.buf| - start <= 8192 then t == Await(d.(waitTotal := Some(total), waitStart := start))
    else DropsOne(d, t)
  }

  /** Every turn of the loop, with a usable key: less than a header waits; an implausible header
      is dropped past; an incomplete frame waits; a complete frame is delivered if it decodes,
      ends the connection if it is encrypted and there is no key, and is dropped past if it is
      rejected for any other reason. */
  lemma TurnCases(d: Dec, key: Option<Key>)
    requires UsableKey(key)
    ensures var t := TurnOf(d, key);
      if |d.buf| < 23 then t == Await(d)
      else if !Plausible(d.buf) then DropsOne(d, t)
      else if !Complete(d.buf) then WaitsOrDrops(d, t)
      else
        var total := U16(d.buf, 0) + 2;
        var r := Decode(d.buf[..total], key);
        if r.Ok? then t == Accept(d.buf[..total], r.value, Dec(d.buf[total..], 0, None, 0))
        else if key.None? && d.buf[4] % 2 == 1 then
          t == Refuse(EncryptionRequired, d.(waitTotal := None, waitStart := 0))
        else DropsOne(d, t)
  {
    hide Decode;
    if |d.buf| >= 23 {
      FieldsAgree(d.buf, 0);
      if Complete(d.buf) && Decode(d.buf[..U16(d.buf, 0) + 2], key).Err? {
        DecodeErrors(d.buf[..U16(d.buf, 0) + 2], key);
      }
    }
  }

  // ----- Over whole runs -----

  /** How many bytes have been dropped since the last delivered frame. */
  function TrailingDrops(segs: seq<Segment>): nat {
    if segs == [] || segs[|segs| - 1].Delivered? then 0
    else TrailingDrops(segs[..|segs| - 1]) + 1
  }

  lemma {:induction false} TrailingAppend(a: seq<Segment>, b: seq<Segment>)
    ensures TrailingDrops(a + b)
      == TrailingDrops(b) + (if TrailingDrops(b) == |b| then TrailingDrops(a) else 0)
    ensures TrailingDrops(b) <= |b|
  {
    if b == [] {
      assert a + b == a;
    } else {
      var init, last := b[..|b| - 1], b[|b| - 1];
      assert (a + b)[..|a + b| - 1] == a + init;
      TrailingAppend(a, init);
    }
  }

  /** The front of the buffer is a complete encrypted frame. */
  predicate SealedFront(buf: seq<byte>) {
    Complete(buf) && buf[4] % 2 == 1
  }

  /** The outcome `o` after `segs` had been consumed is raised for the one reason or the other,
      or not raised. */
  predicate Explained(o: Outcome, segs: seq<Segment>, key: Option<Key>) {
    && o.dec.dropped == TrailingDrops(segs + o.segs)
    && o.dec.dropped <= 8193
    && (o.error == Some(GaveUp) <==> o.dec.dropped > 8192)
    && (o.error == Some(EncryptionRequired) <==>
          o.dec.dropped <= 8192 && key.None? && SealedFront(o.dec.buf))
    && (o.error.None? || o.error == Some(GaveUp) || o.error == Some(EncryptionRequired))
  }

  lemma TurnExplained(d: Dec, segs: seq<Segment>, key: Option<Key>)
    requires UsableKey(key) && d.dropped == TrailingDrops(segs) <= 8192
    ensures var t := TurnOf(d, key);
      && t.dec.dropped == TrailingDrops(segs + TurnSegments(t))
      && (t.Skip? || t.Accept? ==> t.dec.dropped <= 8192)
      && (t.Await? || t.GiveUp? || t.Refuse? ==>
            Explained(Outcome(TurnSegments(t), t.dec, TurnError(t)), segs, key))
  {
    TurnCases(d, key);
    hide TurnOf;
    var t := TurnOf(d, key);
    TrailingAppend(segs, TurnSegments(t));
    assert segs + [] == segs;
  }

  lemma {:induction false} LoopExplained(d: Dec, segs: seq<Segment>, key: Option<Key>)
    requires UsableKey(key) && d.dropped == TrailingDrops(segs) <= 8192
    ensures Explained(Loop(d, key), segs, key)
    decreases |d.buf|
  {
    LoopFirst(d, key);
    TurnConserves(d, key);
    TurnExplained(d, segs, key);
    hide TurnOf;
    hide Loop;
    hide Explained;
    hide TrailingDrops;
    hide TurnSegments;
    var t := TurnOf(d, key);
    if t.Skip? || t.Accept? {
      LoopExplained(t.dec, segs + TurnSegments(t), key);
      ExplainedThen(Loop(t.dec, key), segs, TurnSegments(t), key);
    }
  }

  lemma ExplainedThen(o: Outcome, a: seq<Segment>, b: seq<Segment>, key: Option<Key>)
    requires Explained(o, a + b, key)
    ensures Explained(Then(b, o), a, key)
  {
    Assoc(a, b, o.segs);
  }

  /** Over every run with a usable key, feed raises for two reasons only: it gives up exactly
      when more than 8192 bytes have been dropped since the last delivered frame; and it
      demands encryption exactly when there is no key and a complete encrypted frame stands at
      the front. A frame that fails for any other reason never ends the connection. */
  lemma {:induction false} RunErrors(chunks: seq<seq<byte>>, key: Option<Key>)
    requires UsableKey(key)
    ensures Explained(Run(chunks, key), [], key)
  {
    if chunks == [] {
      assert [] + Run(chunks, key).segs == [];
    } else {
      var init, last := chunks[..|chunks| - 1], chunks[|chunks| - 1];
      RunErrors(init, key);
      hide Loop;
      hide TrailingDrops;
      var before := Run(init, key);
      if before.error.None? {
        assert [] + before.segs == before.segs;
        LoopExplained(before.dec.(buf := before.dec.buf + last), before.segs, key);
        hide SealedFront;
        ExplainedThen(FeedResult(before.dec, last, key), [], before.segs, key);
      }
    }
  }
}
