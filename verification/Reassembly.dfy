/** Fragmented XML replies (spcedp/xmlcmd.py:28-81). */
module Reassembly {
  import opened Bytes

  const FRAG_FIRST: byte := 0x01
  const FRAG_CONT: byte := 0x02
  const MAX_REPLY_BYTES := 0x10_0000

  /** The bytes of `</COMMAND_REPLY>`. */
  const CLOSING_TAG: seq<byte> :=
    [0x3C, 0x2F, 0x43, 0x4F, 0x4D, 0x4D, 0x41, 0x4E, 0x44, 0x5F, 0x52, 0x45, 0x50, 0x4C, 0x59, 0x3E]

  predicate IsAscii(text: string) {
    forall i :: 0 <= i < |text| ==> text[i] < 0x80 as char
  }

  /** The ASCII bytes of a text; one that is not ASCII makes `encode` raise, and is never sent. */
  function Ascii(text: string): (b: seq<byte>)
    ensures |b| == |text|
  {
    seq(|text|, i requires 0 <= i < |text| => if text[i] < 0x80 as char then text[i] as int else 0x3F)
  }

  /** A request payload: the fragment marker, then the XML text. */
  function BuildRequest(xml: string, continuation: bool): seq<byte> {
    [if continuation then FRAG_CONT else FRAG_FIRST] + Ascii(xml)
  }

  // ----- Substring search -----

  predicate Contains(s: seq<byte>, t: seq<byte>) {
    t <= s || (s != [] && Contains(s[1..], t))
  }

  /** `Contains` finds exactly the sequences with an occurrence at some position. */
  lemma {:induction false} ContainsIff(s: seq<byte>, t: seq<byte>)
    ensures Contains(s, t) <==> exists i :: 0 <= i <= |s| && t <= s[i..]
  {
    if t <= s {
      assert s[0..] == s;
    } else if s != [] {
      ContainsIff(s[1..], t);
      if Contains(s[1..], t) {
        var i :| 0 <= i <= |s[1..]| && t <= s[1..][i..];
        assert s[i + 1..] == s[1..][i..];
      }
      forall i | 0 <= i <= |s| && t <= s[i..] ensures Contains(s[1..], t) {
        assert i != 0 by { assert s[0..] == s; }
        assert s[1..][i - 1..] == s[i..];
      }
    } else {
      assert s[0..] == s;
    }
  }

  lemma {:induction false} ContainsExtends(s: seq<byte>, more: seq<byte>, t: seq<byte>)
    requires Contains(s, t)
    ensures Contains(s + more, t)
  {
    if t <= s {
      assert t <= s + more;
    } else {
      ContainsExtends(s[1..], more, t);
      assert (s + more)[1..] == s[1..] + more;
    }
  }

  // ----- The assembler -----

  /** What one feed tells its caller; `Oversize` is the ValueError. */
  datatype Fed = More | Whole(body: seq<byte>) | Oversize

  /** The answer to one payload, and the buffer it leaves. */
  function FeedOne(buf: seq<byte>, payload: seq<byte>, maxBytes: nat): (Fed, seq<byte>) {
    if payload == [] then (More, buf)
    else
      var grown := buf + payload[1..];
      if |grown| > maxBytes then (Oversize, grown)
      else if Contains(grown, CLOSING_TAG) then (Whole(grown), [])
      else (More, grown)
  }

  /** The closing tag stands somewhere in `s`. */
  ghost predicate TagIn(s: seq<byte>) {
    exists i :: 0 <= i <= |s| && CLOSING_TAG <= s[i..]
  }

  lemma TagSearch(s: seq<byte>)
    ensures Contains(s, CLOSING_TAG) <==> TagIn(s)
  {
    ContainsIff(s, CLOSING_TAG);
    hide Contains;
  }

  /** What a text is as bytes, and that the tag is the text it should be. */
  lemma TagText(text: string, i: nat)
    ensures IsAscii(text) && i < |text| ==> Ascii(text)[i] as int == text[i] as int
    ensures CLOSING_TAG == Ascii("</COMMAND_REPLY>")
  {
  }

  class ReplyAssembler {
    var buf: seq<byte>
    const maxBytes: nat

    /** The closing tag is never left sitting in the buffer, unless a feed raised. */
    predicate Valid()
      reads this
    {
      |buf| <= maxBytes ==> !Contains(buf, CLOSING_TAG)
    }

    constructor (maxBytes: nat)
      ensures Valid() && buf == [] && this.maxBytes == maxBytes
    {
      buf, this.maxBytes := [], maxBytes;
    }

    method Feed(payload: seq<byte>) returns (r: Fed)
      requires Valid()
      modifies this
      ensures Valid()
      ensures (r, buf) == FeedOne(old(buf), payload, maxBytes)
      ensures payload == [] ==> r == More && buf == old(buf)
      ensures payload != [] ==>
        var grown := old(buf) + payload[1..];
        if |grown| > maxBytes then r == Oversize && buf == grown
        else if TagIn(grown) then r == Whole(grown) && buf == []
        else r == More && buf == grown
    {
      if payload == [] {
        return More;
      }
      buf := buf + payload[1..];
      TagSearch(buf);
      if |buf| > maxBytes {
        return Oversize;
      }
      if Contains(buf, CLOSING_TAG) {
        r := Whole(buf);
        buf := [];
        return;
      }
      return More;
    }
  }

  // ----- Reassembly -----

  /** The answers to a list of payloads fed one after another, and the final buffer. */
  function FeedAll(buf: seq<byte>, payloads: seq<seq<byte>>, maxBytes: nat): (seq<Fed>, seq<byte>)
    decreases |payloads|
  {
    if payloads == [] then ([], buf)
    else
      var (first, next) := FeedOne(buf, payloads[0], maxBytes);
      var (others, last) := FeedAll(next, payloads[1..], maxBytes);
      ([first] + others, last)
  }

  /** Each piece behind a marker byte of its own. */
  predicate Marked(payloads: seq<seq<byte>>, pieces: seq<seq<byte>>) {
    && |payloads| == |pieces|
    && forall i :: 0 <= i < |pieces| ==> payloads[i] != [] && payloads[i][1..] == pieces[i]
  }

  /** `None` n - 1 times, then the body, and an empty buffer. */
  predicate Completes(out: (seq<Fed>, seq<byte>), n: nat, body: seq<byte>)
    requires n > 0
  {
    && |out.0| == n
    && (forall i :: 0 <= i < n - 1 ==> out.0[i] == More)
    && out.0[n - 1] == Whole(body)
    && out.1 == []
  }

  /** The assembler completes on its last fragment, with all the fragments joined, exactly
      when the closing tag is in the joined body but not yet in what came before. */
  lemma {:induction false} CompletesIff(
    buf: seq<byte>, payloads: seq<seq<byte>>, pieces: seq<seq<byte>>, maxBytes: nat)
    requires Marked(payloads, pieces) && pieces != []
    requires |buf + Flatten(pieces)| <= maxBytes && !Contains(buf, CLOSING_TAG)
    ensures var n, body := |pieces|, buf + Flatten(pieces);
      Completes(FeedAll(buf, payloads, maxBytes), n, body)
      <==> Contains(body, CLOSING_TAG) && !Contains(buf + Flatten(pieces[..n - 1]), CLOSING_TAG)
    decreases |pieces|
  {
    var n := |pieces|;
    var grown := buf + pieces[0];
    var rest := pieces[1..];
    Assoc(buf, pieces[0], Flatten(rest));
    if n == 1 {
      assert pieces[..n - 1] == [] && rest == [] && payloads[1..] == [];
      assert Flatten(pieces) == pieces[0] + [] == pieces[0];
      assert buf + Flatten(pieces[..n - 1]) == buf;
      hide Contains;
      var (first, next) := FeedOne(buf, payloads[0], maxBytes);
      assert payloads == [payloads[0]];
      assert FeedAll(next, [], maxBytes) == ([], next);
      assert [first] + [] == [first];
      assert FeedAll(buf, payloads, maxBytes) == ([first], next);
    } else {
      assert pieces[..n - 1][0] == pieces[0] && pieces[..n - 1][1..] == rest[..n - 2];
      Assoc(buf, pieces[0], Flatten(rest[..n - 2]));
      if Contains(grown, CLOSING_TAG) {
        ContainsExtends(grown, Flatten(rest[..n - 2]), CLOSING_TAG);
        assert FeedAll(buf, payloads, maxBytes).0[0] == Whole(grown) by {
          hide Contains;
          assert FeedOne(buf, payloads[0], maxBytes).0 == Whole(grown);
        }
        hide Contains;
      } else {
        assert Marked(payloads[1..], rest);
        CompletesIff(grown, payloads[1..], rest, maxBytes);
        hide Contains;
        CompletesCons(buf, payloads, n, grown + Flatten(rest), maxBytes);
      }
    }
  }

  lemma CompletesCons(buf: seq<byte>, payloads: seq<seq<byte>>, n: nat, body: seq<byte>, maxBytes: nat)
    requires |payloads| == n > 1
    requires FeedOne(buf, payloads[0], maxBytes).0 == More
    ensures Completes(FeedAll(buf, payloads, maxBytes), n, body)
      <==> Completes(FeedAll(FeedOne(buf, payloads[0], maxBytes).1, payloads[1..], maxBytes), n - 1, body)
  {
    hide FeedOne;
    var out := FeedAll(buf, payloads, maxBytes);
    var later := FeedAll(FeedOne(buf, payloads[0], maxBytes).1, payloads[1..], maxBytes);
    assert out.0 == [More] + later.0;
    if Completes(out, n, body) {
      forall i | 0 <= i < n - 2 ensures later.0[i] == More {
        assert later.0[i] == out.0[i + 1];
      }
    }
  }

  lemma EmptyHasNoTag()
    ensures !Contains([], CLOSING_TAG)
  {
  }

  /** The pieces of a body that its only closing tag ends, the last piece not empty. */
  predicate TaggedAtEnd(pieces: seq<seq<byte>>) {
    && pieces != [] && pieces[|pieces| - 1] != [] && Flatten(pieces) != []
    && Contains(Flatten(pieces), CLOSING_TAG)
    && !Contains(Flatten(pieces)[..|Flatten(pieces)| - 1], CLOSING_TAG)
  }

  /** A body whose only closing tag ends it, cut into any pieces with the last one not
      empty (the tag may straddle cuts), is reassembled exactly. */
  lemma Reassembles(payloads: seq<seq<byte>>, pieces: seq<seq<byte>>, maxBytes: nat)
    requires Marked(payloads, pieces) && TaggedAtEnd(pieces) && |Flatten(pieces)| <= maxBytes
    ensures Completes(FeedAll([], payloads, maxBytes), |pieces|, Flatten(pieces))
  {
    EmptyHasNoTag();
    CompletesIff([], payloads, pieces, maxBytes);
    TagNotBefore(pieces);
    hide *;
    assert [] + Flatten(pieces) == Flatten(pieces);
    assert [] + Flatten(pieces[..|pieces| - 1]) == Flatten(pieces[..|pieces| - 1]);
  }

  /** A tag that ends the body is not in what comes before a last piece that is not empty. */
  lemma TagNotBefore(pieces: seq<seq<byte>>)
    requires pieces != [] && pieces[|pieces| - 1] != [] && Flatten(pieces) != []
    requires !Contains(Flatten(pieces)[..|Flatten(pieces)| - 1], CLOSING_TAG)
    ensures !Contains(Flatten(pieces[..|pieces| - 1]), CLOSING_TAG)
  {
    var n := |pieces|;
    var before, last := Flatten(pieces[..n - 1]), pieces[n - 1];
    FlattenLast(pieces);
    hide *;
    LastDropped(before, last);
    if Contains(before, CLOSING_TAG) {
      ContainsExtends(before, last[..|last| - 1], CLOSING_TAG);
    }
  }

  lemma FlattenLast(pieces: seq<seq<byte>>)
    requires pieces != []
    ensures Flatten(pieces) == Flatten(pieces[..|pieces| - 1]) + pieces[|pieces| - 1]
  {
    var init, last := pieces[..|pieces| - 1], pieces[|pieces| - 1];
    assert pieces == init + [last];
    FlattenAppend(init, [last]);
    FlattenSingle(last);
  }

  lemma LastDropped(before: seq<byte>, last: seq<byte>)
    requires last != []
    ensures (before + last)[..|before + last| - 1] == before + last[..|last| - 1]
  {
  }

  /** What completes an assembly is everything fed to it, and holds the closing tag. */
  lemma {:induction false} WholeIsJoined(
    buf: seq<byte>, payloads: seq<seq<byte>>, pieces: seq<seq<byte>>, body: seq<byte>, maxBytes: nat)
    requires Marked(payloads, pieces) && pieces != []
    requires Completes(FeedAll(buf, payloads, maxBytes), |pieces|, body)
    ensures body == buf + Flatten(pieces) && Contains(body, CLOSING_TAG)
    decreases |pieces|
  {
    hide Contains;
    var n, rest := |pieces|, pieces[1..];
    var (first, next) := FeedOne(buf, payloads[0], maxBytes);
    assert FeedAll(buf, payloads, maxBytes).0[0] == first;
    Assoc(buf, pieces[0], Flatten(rest));
    if n == 1 {
      assert rest == [];
      assert buf + pieces[0] + [] == buf + pieces[0];
    } else {
      CompletesCons(buf, payloads, n, body, maxBytes);
      WholeIsJoined(next, payloads[1..], rest, body, maxBytes);
    }
  }

  lemma NoTagBeforeLast(pieces: seq<seq<byte>>, m: nat)
    requires TaggedAtEnd(pieces) && m < |pieces|
    ensures !Contains(Flatten(pieces[..m]), CLOSING_TAG)
  {
    TagNotBefore(pieces);
    hide *;
    var n := |pieces|;
    var before, between := pieces[..m], pieces[m..n - 1];
    assert pieces[..n - 1] == before + between;
    FlattenAppend(before, between);
    if Contains(Flatten(before), CLOSING_TAG) {
      ContainsExtends(Flatten(before), Flatten(between), CLOSING_TAG);
    }
  }

  /** An assembly of the first pieces of such a body completes only with all of them. */
  lemma CompletesOnlyWhole(payloads: seq<seq<byte>>, pieces: seq<seq<byte>>, body: seq<byte>, maxBytes: nat)
    requires TaggedAtEnd(pieces) && 1 <= |payloads| <= |pieces| && Marked(payloads, pieces[..|payloads|])
    requires Completes(FeedAll([], payloads, maxBytes), |payloads|, body)
    ensures |payloads| == |pieces| && body == Flatten(pieces)
  {
    var n, m := |pieces|, |payloads|;
    var first := pieces[..m];
    hide *;
    WholeIsJoined([], payloads, first, body, maxBytes);
    assert [] + Flatten(first) == Flatten(first);
    assert m == n ==> first == pieces;
    if m < n {
      NoTagBeforeLast(pieces, m);
    }
  }

  /** As far as both lists go, each payload is a marker byte and its piece. */
  predicate MarkedSoFar(payloads: seq<seq<byte>>, pieces: seq<seq<byte>>) {
    forall i :: 0 <= i < |payloads| && i < |pieces| ==> payloads[i] != [] && payloads[i][1..] == pieces[i]
  }

  /** Each answer depends only on what has been fed so far. */
  lemma {:induction false} FeedAllPrefix(buf: seq<byte>, payloads: seq<seq<byte>>, k: nat, maxBytes: nat)
    requires k <= |payloads|
    ensures |FeedAll(buf, payloads, maxBytes).0| == |payloads|
    ensures FeedAll(buf, payloads[..k], maxBytes).0 == FeedAll(buf, payloads, maxBytes).0[..k]
    decreases |payloads|
  {
    hide FeedOne;
    if payloads != [] {
      var next := FeedOne(buf, payloads[0], maxBytes).1;
      FeedAllPrefix(next, payloads[1..], if k == 0 then 0 else k - 1, maxBytes);
      if k > 0 {
        assert payloads[..k][0] == payloads[0] && payloads[..k][1..] == payloads[1..][..k - 1];
      }
    }
  }

  /** The answer to each piece of such a body: more until the last, and to the last the body. */
  lemma AnswersToPieces(payloads: seq<seq<byte>>, pieces: seq<seq<byte>>, maxBytes: nat)
    requires TaggedAtEnd(pieces) && |Flatten(pieces)| <= maxBytes && MarkedSoFar(payloads, pieces)
    ensures var answers := FeedAll([], payloads, maxBytes).0;
      && |answers| == |payloads|
      && forall i :: 0 <= i < |payloads| && i < |pieces| ==>
           answers[i] == if i == |pieces| - 1 then Whole(Flatten(pieces)) else More
  {
    var k := if |payloads| < |pieces| then |payloads| else |pieces|;
    var all := payloads[..k] + seq(|pieces| - k, i requires 0 <= i < |pieces| - k => [0] + pieces[k + i]);
    assert Marked(all, pieces);
    hide Contains;
    hide FeedAll;
    Reassembles(all, pieces, maxBytes);
    FeedAllPrefix([], payloads, k, maxBytes);
    FeedAllPrefix([], all, k, maxBytes);
    assert all[..k] == payloads[..k];
    var answers, full := FeedAll([], payloads, maxBytes).0, FeedAll([], all, maxBytes).0;
    assert forall i :: 0 <= i < k ==> answers[i] == answers[..k][i] == full[i];
  }
}
