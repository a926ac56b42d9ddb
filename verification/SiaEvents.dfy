/** SIA event payloads (spcedp/events.py:19-86): envelope, left split, right-anchored split. */
module SiaEvents {
  import opened Bytes

  /** An event; the parsed clock value is left out, its raw 14 digits are kept. */
  datatype SiaEvent = SiaEvent(
    spcId: nat, timestampRaw: string, siaCode: string, address: string, description: string,
    extra: string, verificationId: string)

  const PREFIX := "E2[#"

  // ----- Characters -----

  predicate IsDigit(c: char) { '0' <= c <= '9' }

  predicate AllDigits(s: string) {
    forall i :: 0 <= i < |s| ==> IsDigit(s[i])
  }

  /** The whitespace that `str.strip` removes, below code point 256. */
  predicate IsSpace(c: char) {
    c as int in {9, 10, 11, 12, 13, 28, 29, 30, 31, 32, 0x85, 0xA0}
  }

  /** Tab to carriage return, the separators up to the blank, next line and no-break space. */
  lemma Spaces(c: char)
    ensures IsSpace(c) <==>
      var n := c as int; 9 <= n <= 13 || 28 <= n <= 32 || n == 133 || n == 160
  {
  }

  function StripLeft(s: string): (r: string)
    ensures |r| <= |s| && s[|s| - |r|..] == r
    ensures r != [] ==> !IsSpace(r[0])
  {
    if s != [] && IsSpace(s[0]) then StripLeft(s[1..]) else s
  }

  function StripRight(s: string): (r: string)
    ensures r <= s
    ensures r != [] ==> !IsSpace(r[|r| - 1])
  {
    if s != [] && IsSpace(s[|s| - 1]) then StripRight(s[..|s| - 1]) else s
  }

  function Strip(s: string): string { StripRight(StripLeft(s)) }

  // ----- Numbers -----

  /** `int` of a string of ASCII digits. */
  function Value(digits: string): nat
    requires AllDigits(digits)
  {
    if digits == [] then 0
    else 10 * Value(digits[..|digits| - 1]) + (digits[|digits| - 1] as int - '0' as int)
  }

  function Decimal(n: nat): (s: string)
    ensures s != [] && AllDigits(s) && Value(s) == n
  {
    if n < 10 then
      var s := ['0' + n as char];
      assert s[..0] == [];
      s
    else
      var s := Decimal(n / 10) + ['0' + (n % 10) as char];
      assert s[..|s| - 1] == Decimal(n / 10);
      s
  }

  // ----- Splitting at pipes -----

  predicate PipeFree(s: string) { '|' !in s }

  /** Position of the first pipe, or the length if there is none. */
  function FirstPipe(s: string): (n: nat)
    ensures n <= |s| && PipeFree(s[..n]) && (n < |s| ==> s[n] == '|')
  {
    if s == [] || s[0] == '|' then 0
    else
      var n := 1 + FirstPipe(s[1..]);
      assert s[..n] == [s[0]] + s[1..][..n - 1];
      n
  }

  /** One more than the position of the last pipe, or 0 if there is none. */
  function AfterLastPipe(s: string): (n: nat)
    ensures n <= |s| && PipeFree(s[n..]) && (n > 0 ==> s[n - 1] == '|')
  {
    if s == [] then 0
    else if s[|s| - 1] == '|' then |s|
    else
      var n := AfterLastPipe(s[..|s| - 1]);
      assert s[n..] == s[..|s| - 1][n..] + [s[|s| - 1]];
      n
  }

  /** Two strings with a pipe between. */
  function Bar(a: string, b: string): string { a + "|" + b }

  /** `split("|", 1)` and `rsplit("|", 1)`; None where there is nothing to split. */
  function CutFirst(s: string): Option<(string, string)> {
    var n := FirstPipe(s);
    if n == |s| then None else Some((s[..n], s[n + 1..]))
  }

  function CutLast(s: string): Option<(string, string)> {
    var n := AfterLastPipe(s);
    if n == 0 then None else Some((s[..n - 1], s[n..]))
  }

  function Pipes(s: string): nat {
    if s == [] then 0 else (if s[0] == '|' then 1 else 0) + Pipes(s[1..])
  }

  lemma {:induction false} PipesAppend(s: string, t: string)
    ensures Pipes(s + t) == Pipes(s) + Pipes(t)
  {
    if s == [] {
      assert s + t == t;
    } else {
      assert (s + t)[0] == s[0] && (s + t)[1..] == s[1..] + t;
      PipesAppend(s[1..], t);
    }
  }

  lemma {:induction false} PipeFreeHasNone(s: string)
    ensures PipeFree(s) <==> Pipes(s) == 0
  {
    if s != [] {
      PipeFreeHasNone(s[1..]);
      assert s == [s[0]] + s[1..];
    }
  }

  // ----- Parsing -----

  /** The regular expression's groups: panel id digits, timestamp, and the raw rest. */
  datatype Envelope = Envelope(spc: string, ts: string, rest: string)

  function DigitRun(s: string): (n: nat)
    ensures n <= |s| && AllDigits(s[..n]) && (n < |s| ==> !IsDigit(s[n]))
  {
    if s == [] || !IsDigit(s[0]) then 0
    else
      var n := 1 + DigitRun(s[1..]);
      assert s[..n] == [s[0]] + s[1..][..n - 1];
      n
  }

  function MatchEnvelope(t: string): (e: Option<Envelope>)
    ensures e.Some? ==> AllDigits(e.value.spc)
  {
    if !(PREFIX <= t) then None
    else
      var u := t[|PREFIX|..];
      var n := DigitRun(u);
      if n == 0 || n == |u| || u[n] != '|' then None
      else
        var v := u[n + 1..];
        if |v| < 16 || !AllDigits(v[..14]) || v[14] != '|' || v[|v| - 1] != ']' then None
        else Some(Envelope(u[..n], v[..14], v[15..|v| - 1]))
  }

  /** code and address off the left, extra and verification id off the right. */
  datatype Fields = Fields(code: string, address: string, description: string, extra: string, vid: string)

  function SplitRest(rest: string): Option<Fields> {
    var c1 := CutFirst(rest);
    if c1.None? then None
    else
      var c2 := CutFirst(c1.value.1);
      if c2.None? then None
      else
        var c3 := CutLast(c2.value.1);
        if c3.None? then None
        else
          var c4 := CutLast(c3.value.0);
          if c4.None? then None
          else Some(Fields(c1.value.0, c2.value.0, c4.value.0, c4.value.1, c3.value.1))
  }

  function EventOf(e: Envelope, f: Fields): SiaEvent
    requires AllDigits(e.spc)
  {
    SiaEvent(Value(e.spc), e.ts, f.code, f.address, f.description, f.extra, f.vid)
  }

  /** `SiaEvent.parse` on decoded text; None is its ValueError. */
  function Parse(text: string): Option<SiaEvent> {
    var m := MatchEnvelope(Strip(text));
    if m.None? then None
    else
      var f := SplitRest(m.value.rest);
      if f.None? then None else Some(EventOf(m.value, f.value))
  }

  // ----- Printing -----

  function JoinFields(f: Fields): string {
    Bar(f.code, Bar(f.address, Bar(Bar(f.description, f.extra), f.vid)))
  }

  function PrintEnvelope(e: Envelope): string {
    PREFIX + Bar(e.spc, Bar(e.ts, e.rest + "]"))
  }

  function FieldsOf(ev: SiaEvent): Fields {
    Fields(ev.siaCode, ev.address, ev.description, ev.extra, ev.verificationId)
  }

  /** The event as text, with `spc` spelling its panel id. */
  function PrintWith(spc: string, ev: SiaEvent): string {
    PrintEnvelope(Envelope(spc, ev.timestampRaw, JoinFields(FieldsOf(ev))))
  }

  predicate GoodEnvelope(e: Envelope) {
    e.spc != [] && AllDigits(e.spc) && |e.ts| == 14 && AllDigits(e.ts)
  }

  predicate GoodFields(f: Fields) {
    PipeFree(f.code) && PipeFree(f.address) && PipeFree(f.extra) && PipeFree(f.vid)
  }

  /** What a printed event looks like: the envelope, then the fields with a pipe between. */
  lemma PrintText(spc: string, ev: SiaEvent)
    ensures PrintWith(spc, ev)
      == "E2[#" + (spc + "|" + (ev.timestampRaw + "|" + (ev.siaCode + "|" + (ev.address + "|"
         + (ev.description + "|" + ev.extra + "|" + ev.verificationId)) + "]")))
  {
  }

  // ----- Envelope: match and print are inverse -----

  lemma DigitRunIs(s: string, n: nat)
    requires n <= |s| && AllDigits(s[..n]) && (n < |s| ==> !IsDigit(s[n]))
    ensures DigitRun(s) == n
  {
    var m := DigitRun(s);
    assert forall k :: 0 <= k < n ==> s[k] == s[..n][k];
    assert forall k :: 0 <= k < m ==> s[k] == s[..m][k];
  }

  lemma BarSlices(a: string, b: string)
    ensures Bar(a, b)[..|a|] == a && Bar(a, b)[|a|] == '|' && Bar(a, b)[|a| + 1..] == b
    ensures |Bar(a, b)| == |a| + 1 + |b|
  {
  }

  lemma MatchPrint(e: Envelope)
    requires GoodEnvelope(e)
    ensures MatchEnvelope(PrintEnvelope(e)) == Some(e)
  {
    var w := e.rest + "]";
    var v := Bar(e.ts, w);
    var u := Bar(e.spc, v);
    SpcSlices(e.spc, v);
    TsSlices(e.ts, e.rest);
    hide Bar;
    hide DigitRun;
    hide AllDigits;
    assert PREFIX <= PREFIX + u && (PREFIX + u)[|PREFIX|..] == u;
  }

  lemma SpcSlices(spc: string, v: string)
    requires AllDigits(spc)
    ensures var u := Bar(spc, v);
      DigitRun(u) == |spc| < |u| && u[|spc|] == '|' && u[..|spc|] == spc && u[|spc| + 1..] == v
  {
    BarSlices(spc, v);
    hide Bar;
    DigitRunIs(Bar(spc, v), |spc|);
  }

  lemma TsSlices(ts: string, rest: string)
    requires |ts| == 14
    ensures var v := Bar(ts, rest + "]");
      |v| >= 16 && v[..14] == ts && v[14] == '|' && v[|v| - 1] == ']' && v[15..|v| - 1] == rest
  {
    var w := rest + "]";
    BarSlices(ts, w);
    hide Bar;
    var v := Bar(ts, w);
    assert w[..|w| - 1] == rest;
    assert v[15..|v| - 1] == v[15..][..|w| - 1];
    assert v[|v| - 1] == v[15..][|w| - 1];
  }

  lemma PrintMatch(t: string)
    requires MatchEnvelope(t).Some?
    ensures GoodEnvelope(MatchEnvelope(t).value)
    ensures PrintEnvelope(MatchEnvelope(t).value) == t
  {
    var e := MatchEnvelope(t).value;
    var u := t[|PREFIX|..];
    var v := u[|e.spc| + 1..];
    assert v == Bar(e.ts, e.rest + "]");
    assert u == Bar(e.spc, v);
    assert t == PREFIX + u;
  }

  // ----- Fields: split and join are inverse -----

  lemma FirstPipeIs(s: string, n: nat)
    requires n < |s| && PipeFree(s[..n]) && s[n] == '|'
    ensures FirstPipe(s) == n
  {
    var m := FirstPipe(s);
    assert forall k :: 0 <= k < n ==> s[k] == s[..n][k];
    assert forall k :: 0 <= k < m ==> s[k] == s[..m][k];
  }

  lemma AfterLastPipeIs(s: string, n: nat)
    requires 0 < n <= |s| && PipeFree(s[n..]) && s[n - 1] == '|'
    ensures AfterLastPipe(s) == n
  {
    var m := AfterLastPipe(s);
    assert forall k :: n <= k < |s| ==> s[k] == s[n..][k - n];
    assert forall k :: m <= k < |s| ==> s[k] == s[m..][k - m];
  }

  lemma CutFirstBar(a: string, b: string)
    requires PipeFree(a)
    ensures CutFirst(Bar(a, b)) == Some((a, b))
  {
    BarSlices(a, b);
    hide Bar;
    FirstPipeIs(Bar(a, b), |a|);
  }

  lemma CutLastBar(a: string, b: string)
    requires PipeFree(b)
    ensures CutLast(Bar(a, b)) == Some((a, b))
  {
    BarSlices(a, b);
    hide Bar;
    AfterLastPipeIs(Bar(a, b), |a| + 1);
  }

  lemma BarCutFirst(s: string)
    ensures var c := CutFirst(s);
      if c.None? then Pipes(s) == 0
      else s == Bar(c.value.0, c.value.1) && PipeFree(c.value.0) && Pipes(s) == 1 + Pipes(c.value.1)
  {
    var n := FirstPipe(s);
    if n == |s| {
      assert s[..n] == s;
      PipeFreeHasNone(s);
    } else {
      assert s == Bar(s[..n], s[n + 1..]);
      PipesBar(s[..n], s[n + 1..]);
      PipeFreeHasNone(s[..n]);
    }
  }

  lemma BarCutLast(s: string)
    ensures var c := CutLast(s);
      if c.None? then Pipes(s) == 0
      else s == Bar(c.value.0, c.value.1) && PipeFree(c.value.1) && Pipes(s) == 1 + Pipes(c.value.0)
  {
    var n := AfterLastPipe(s);
    if n == 0 {
      assert s[n..] == s;
      PipeFreeHasNone(s);
    } else {
      assert s == Bar(s[..n - 1], s[n..]);
      PipesBar(s[..n - 1], s[n..]);
      PipeFreeHasNone(s[n..]);
    }
  }

  lemma PipesBar(a: string, b: string)
    ensures Pipes(Bar(a, b)) == Pipes(a) + 1 + Pipes(b)
  {
    PipesAppend(a + "|", b);
    PipesAppend(a, "|");
    assert Pipes("|") == 1;
  }

  lemma SplitJoin(f: Fields)
    requires GoodFields(f)
    ensures SplitRest(JoinFields(f)) == Some(f)
  {
    var front := Bar(f.description, f.extra);
    var tail := Bar(front, f.vid);
    CutFirstBar(f.code, Bar(f.address, tail));
    CutFirstBar(f.address, tail);
    CutLastBar(front, f.vid);
    CutLastBar(f.description, f.extra);
    hide Bar;
    hide CutFirst;
    hide CutLast;
  }

  lemma JoinSplit(rest: string)
    requires SplitRest(rest).Some?
    ensures GoodFields(SplitRest(rest).value)
    ensures JoinFields(SplitRest(rest).value) == rest
  {
    hide Bar;
    hide CutFirst;
    hide CutLast;
    hide Pipes;
    hide PipeFree;
    BarCutFirst(rest);
    var r1 := CutFirst(rest).value.1;
    BarCutFirst(r1);
    var tail := CutFirst(r1).value.1;
    BarCutLast(tail);
    BarCutLast(CutLast(tail).value.0);
  }

  /** The rest splits exactly when it holds at least four pipes. */
  lemma SplitsIff(rest: string)
    ensures SplitRest(rest).Some? <==> Pipes(rest) >= 4
  {
    hide Bar;
    hide CutFirst;
    hide CutLast;
    hide Pipes;
    hide PipeFree;
    BarCutFirst(rest);
    if CutFirst(rest).Some? {
      var r1 := CutFirst(rest).value.1;
      BarCutFirst(r1);
      if CutFirst(r1).Some? {
        var tail := CutFirst(r1).value.1;
        BarCutLast(tail);
        if CutLast(tail).Some? {
          BarCutLast(CutLast(tail).value.0);
        }
      }
    }
  }

  // ----- The parser against the printer -----

  lemma {:induction false} StripPadded(before: string, t: string, after: string)
    requires t != [] && !IsSpace(t[0]) && !IsSpace(t[|t| - 1])
    requires forall c :: c in before || c in after ==> IsSpace(c)
    ensures Strip(before + t + after) == t
  {
    Assoc(before, t, after);
    StripLeftSkips(before, t + after);
    StripRightSkips(t, after);
    hide StripRight;
    assert (t + after)[0] == t[0];
    assert StripLeft(t + after) == t + after;
  }

  lemma {:induction false} StripLeftSkips(before: string, t: string)
    requires forall c :: c in before ==> IsSpace(c)
    ensures StripLeft(before + t) == StripLeft(t)
  {
    if before == [] {
      assert before + t == t;
    } else {
      assert (before + t)[1..] == before[1..] + t;
      StripLeftSkips(before[1..], t);
    }
  }

  lemma {:induction false} StripRightSkips(t: string, after: string)
    requires t != [] && !IsSpace(t[|t| - 1])
    requires forall c :: c in after ==> IsSpace(c)
    ensures StripRight(t + after) == t
    decreases |after|
  {
    if after == [] {
      assert t + after == t;
    } else {
      var s := t + after;
      assert s[..|s| - 1] == t + after[..|after| - 1];
      StripRightSkips(t, after[..|after| - 1]);
    }
  }

  /** Print, pad with whitespace, parse: the same event, whatever its description holds. */
  lemma ParsePrint(spc: string, ev: SiaEvent, before: string, after: string)
    requires spc != [] && AllDigits(spc) && Value(spc) == ev.spcId
    requires |ev.timestampRaw| == 14 && AllDigits(ev.timestampRaw)
    requires GoodFields(FieldsOf(ev))
    requires forall c :: c in before || c in after ==> IsSpace(c)
    ensures Parse(before + PrintWith(spc, ev) + after) == Some(ev)
  {
    var e := Envelope(spc, ev.timestampRaw, JoinFields(FieldsOf(ev)));
    var t := PrintWith(spc, ev);
    assert t[0] == 'E' && t[|t| - 1] == ']';
    StripPadded(before, t, after);
    MatchPrint(e);
    SplitJoin(FieldsOf(ev));
  }

  /** The event as the panel writes it, with a plain decimal panel id. */
  function Print(ev: SiaEvent): string {
    PrintWith(Decimal(ev.spcId), ev)
  }

  lemma RoundTrip(ev: SiaEvent)
    requires |ev.timestampRaw| == 14 && AllDigits(ev.timestampRaw) && GoodFields(FieldsOf(ev))
    ensures Parse(Print(ev)) == Some(ev)
  {
    hide PrintWith;
    hide Parse;
    ParsePrint(Decimal(ev.spcId), ev, "", "");
    assert "" + Print(ev) + "" == Print(ev);
  }

  /** Conversely, whatever the parser accepts is, up to surrounding whitespace, the printed
      form of what it returns, with pipe-free outer fields. */
  lemma PrintParse(text: string)
    requires Parse(text).Some?
    ensures var ev := Parse(text).value;
      && GoodFields(FieldsOf(ev)) && |ev.timestampRaw| == 14 && AllDigits(ev.timestampRaw)
      && exists spc: string ::
           spc != [] && AllDigits(spc) && Value(spc) == ev.spcId && Strip(text) == PrintWith(spc, ev)
  {
    var t := Strip(text);
    PrintMatch(t);
    var e := MatchEnvelope(t).value;
    JoinSplit(e.rest);
    var ev := Parse(text).value;
    assert FieldsOf(ev) == SplitRest(e.rest).value;
    assert Strip(text) == PrintWith(e.spc, ev);
  }

  /** Inside a well-formed envelope, parsing succeeds exactly when the rest holds at least
      four pipes. */
  lemma ParsesIff(text: string)
    ensures Parse(text).Some? <==>
            MatchEnvelope(Strip(text)).Some? && Pipes(MatchEnvelope(Strip(text)).value.rest) >= 4
  {
    if MatchEnvelope(Strip(text)).Some? {
      SplitsIff(MatchEnvelope(Strip(text)).value.rest);
    }
  }
}
