/** The panel snapshot and its event-derived alarm latch (spcedp/panel.py:99-380). */
module PanelSnapshot {
  import opened Bytes
  import opened SiaEvents

  /** An element's attributes. */
  type Row = map<string, string>

  datatype Area = Area(id: int, name: string, mode: string, triggered: bool)

  datatype Zone = Zone(id: int, kind: string, name: string, areaId: int, input: string)

  datatype Update = Update(zoneIds: set<int>, areaIds: set<int>)

  const NO_UPDATE := Update({}, {})

  /** The two dictionaries of a Panel. */
  datatype Snapshot = Snapshot(areas: map<int, Area>, zones: map<int, Zone>)

  const AREA_STATUS_CODES := {"BV", "CG", "CL", "NL", "OG", "OP"}
  const ALARM_CODES := {"BA", "FA", "PA", "HA", "TA"}
  const MODE_UNSET := "0"

  // ----- Rows -----

  function Get(row: Row, name: string): string {
    if name in row then row[name] else ""
  }

  /** `isdigit` then `int`, on ASCII digits. */
  function Numeric(s: string): Option<nat> {
    if s != [] && AllDigits(s) then Some(Value(s)) else None
  }

  /** Digits, with single underscores allowed between them. */
  predicate Grouped(s: string) {
    && s != [] && IsDigit(s[0])
    && (|s| == 1 || Grouped(s[1..]) || (s[1] == '_' && Grouped(s[2..])))
  }

  function DigitsIn(s: string): (r: string)
    ensures AllDigits(r)
  {
    if s == [] then [] else (if IsDigit(s[0]) then [s[0]] else []) + DigitsIn(s[1..])
  }

  /** Python's `int` of a string; None is its ValueError. */
  function ParseInt(s: string): Option<int> {
    SignedValue(Strip(s))
  }

  function SignedValue(t: string): Option<int> {
    if t != [] && (t[0] == '+' || t[0] == '-') then
      var n := GroupedValue(t[1..]);
      if t[0] == '-' && n.Some? then Some(-n.value) else n
    else GroupedValue(t)
  }

  function GroupedValue(digits: string): (n: Option<int>)
    ensures n.Some? ==> n.value >= 0
  {
    if Grouped(digits) then Some(Value(DigitsIn(digits))) else None
  }

  function RowId(row: Row): Option<nat> { Numeric(Get(row, "ID")) }

  /** `Area.from_row`; a row without a usable ID is skipped. */
  function AreaFromRow(row: Row): Option<Area> {
    match RowId(row)
    case None => None
    case Some(id) => Some(Area(id, Get(row, "NAME"), Get(row, "MODE"), false))
  }

  /** The area of a zone row; an empty or malformed AREA counts as 0. */
  function AreaOf(row: Row): int {
    var area := if Get(row, "AREA") == "" then Some(0) else ParseInt(Get(row, "AREA"));
    if area.Some? then area.value else 0
  }

  /** `Zone.from_row`. */
  function ZoneFromRow(row: Row): Option<Zone> {
    match RowId(row)
    case None => None
    case Some(id) =>
      Some(Zone(id, Get(row, "TYPE"), Get(row, "ZONE_NAME"), AreaOf(row), Get(row, "INPUT")))
  }

  // ----- Refreshes -----

  /** The area snapshot that the rows of an AREA_STATUS reply make of the previous one. */
  function RefreshedAreas(previous: map<int, Area>, rows: seq<Row>): map<int, Area> {
    if rows == [] then map[]
    else
      var areas := RefreshedAreas(previous, rows[..|rows| - 1]);
      match AreaFromRow(rows[|rows| - 1])
      case None => areas
      case Some(a) =>
        areas[a.id := a.(triggered :=
          a.id in previous && a.mode != MODE_UNSET && previous[a.id].triggered)]
  }

  function RefreshedZones(rows: seq<Row>): map<int, Zone> {
    if rows == [] then map[]
    else
      var zones := RefreshedZones(rows[..|rows| - 1]);
      match ZoneFromRow(rows[|rows| - 1])
      case None => zones
      case Some(z) => zones[z.id := z]
  }

  /** The last row that speaks of area `id`. */
  function LastRow(rows: seq<Row>, id: int): Option<Row> {
    if rows == [] then None
    else
      var row := rows[|rows| - 1];
      if RowId(row).Some? && RowId(row).value == id then Some(row) else LastRow(rows[..|rows| - 1], id)
  }

  /** A refresh in plain terms: an area is in the new snapshot exactly when some row names
      it; its name and mode are those of the last such row, and it stays triggered exactly
      when it was and that row does not report it unset. */
  lemma {:induction false} RefreshedLookup(previous: map<int, Area>, rows: seq<Row>, id: int)
    ensures var areas := RefreshedAreas(previous, rows);
      && (id in areas <==> LastRow(rows, id).Some?)
      && (id in areas ==>
            var row := LastRow(rows, id).value;
            areas[id] == Area(id, Get(row, "NAME"), Get(row, "MODE"),
              id in previous && previous[id].triggered && Get(row, "MODE") != "0"))
  {
    if rows != [] {
      RefreshedLookup(previous, rows[..|rows| - 1], id);
    }
  }

  /** The zone snapshot in the same terms: the last row that names a zone decides it, and
      nothing of the previous snapshot stays. */
  lemma {:induction false} RefreshedZonesLookup(rows: seq<Row>, id: int)
    ensures var zones := RefreshedZones(rows);
      && (id in zones <==> LastRow(rows, id).Some?)
      && (id in zones ==>
            var row := LastRow(rows, id).value;
            zones[id] == Zone(id, Get(row, "TYPE"), Get(row, "ZONE_NAME"), AreaOf(row), Get(row, "INPUT")))
  {
    hide ParseInt;
    hide Numeric;
    if rows != [] {
      RefreshedZonesLookup(rows[..|rows| - 1], id);
    }
  }

  // ----- Events -----

  function UpperChar(c: char): char {
    if 'a' <= c <= 'z' then (c as int - 32) as char else c
  }

  function Upper(s: string): (r: string)
    ensures |r| == |s|
  {
    seq(|s|, i requires 0 <= i < |s| => UpperChar(s[i]))
  }

  function CodeOf(ev: SiaEvent): string { Upper(ev.siaCode) }

  /** The numeric address of an event. */
  function TargetOf(ev: SiaEvent): Option<nat> { Numeric(Strip(ev.address)) }

  /** The input that an event code implies for its zone. */
  function ImpliedInput(code: string): Option<string> {
    if code == "ZC" then Some("0") else if code == "ZO" || code in ALARM_CODES then Some("1") else None
  }

  function Triggered(areas: map<int, Area>, id: int): map<int, Area>
    requires id in areas
  {
    areas[id := areas[id].(triggered := true)]
  }

  /** `apply_event`. */
  function Applied(s: Snapshot, ev: SiaEvent): (Snapshot, Update) {
    var target, input := TargetOf(ev), ImpliedInput(CodeOf(ev));
    if target.None? || input.None? || target.value !in s.zones then (s, NO_UPDATE)
    else
      var zone := s.zones[target.value].(input := input.value);
      var t := s.(zones := s.zones[target.value := zone]);
      if CodeOf(ev) in ALARM_CODES && zone.areaId in s.areas then
        (t.(areas := Triggered(s.areas, zone.areaId)), Update({zone.id}, {s.areas[zone.areaId].id}))
      else (t, Update({zone.id}, {}))
  }

  /** `reconcile_event` of an area code from the moment the AREA_STATUS reply is in; `before`
      are the areas known when it was asked for. */
  function Reconciled(s: Snapshot, ev: SiaEvent, before: set<int>, rows: seq<Row>): (Snapshot, Update) {
    var areas := RefreshedAreas(s.areas, rows);
    var target := TargetOf(ev);
    if CodeOf(ev) == "BV" && target.Some? && target.value in areas then
      (s.(areas := Triggered(areas, target.value)),
       Update({}, before + areas.Keys + {areas[target.value].id}))
    else (s.(areas := areas), Update({}, before + areas.Keys))
  }

  predicate IsAreaCode(ev: SiaEvent) {
    CodeOf(ev) in AREA_STATUS_CODES
  }

  /** The whole of `reconcile_event`: any other code is applied at once, without a query. */
  function ReconcileEvent(s: Snapshot, ev: SiaEvent, before: set<int>, rows: seq<Row>): (Snapshot, Update) {
    if IsAreaCode(ev) then Reconciled(s, ev, before, rows) else Applied(s, ev)
  }

  // ----- The object -----

  class Panel {
    var areas: map<int, Area>
    var zones: map<int, Zone>

    function State(): Snapshot
      reads this
    {
      Snapshot(areas, zones)
    }

    constructor ()
      ensures State() == Snapshot(map[], map[])
    {
      areas, zones := map[], map[];
    }

    /** `reply` is None where xml_command raises. */
    method RefreshAreas(reply: Option<seq<Row>>) returns (ok: bool)
      modifies this`areas
      ensures ok <==> reply.Some?
      ensures areas == if ok then RefreshedAreas(old(areas), reply.value) else old(areas)
    {
      if reply.None? {
        return false;
      }
      var rows := reply.value;
      var found: map<int, Area> := map[];
      for i := 0 to |rows|
        invariant found == RefreshedAreas(areas, rows[..i]) && areas == old(areas)
      {
        assert rows[..i + 1][..i] == rows[..i];
        var area := AreaFromRow(rows[i]);
        if area.Some? {
          var a := area.value;
          var keep := if a.id in areas && a.mode != MODE_UNSET then areas[a.id].triggered else false;
          found := found[a.id := a.(triggered := keep)];
        }
      }
      assert rows[..|rows|] == rows;
      areas := found;
      return true;
    }

    method RefreshZones(reply: Option<seq<Row>>) returns (ok: bool)
      modifies this`zones
      ensures ok <==> reply.Some?
      ensures zones == if ok then RefreshedZones(reply.value) else old(zones)
    {
      if reply.None? {
        return false;
      }
      var rows := reply.value;
      var found: map<int, Zone> := map[];
      for i := 0 to |rows|
        invariant found == RefreshedZones(rows[..i])
      {
        assert rows[..i + 1][..i] == rows[..i];
        var zone := ZoneFromRow(rows[i]);
        if zone.Some? {
          found := found[zone.value.id := zone.value];
        }
      }
      assert rows[..|rows|] == rows;
      zones := found;
      return true;
    }

    method ApplyEvent(ev: SiaEvent) returns (update: Update)
      modifies this
      ensures (State(), update) == Applied(old(State()), ev)
      ensures EventShows(old(State()), State(), update, ev)
    {
      AppliedShows(State(), ev);
      hide EventShows;
      var code := CodeOf(ev);
      var target := TargetOf(ev);
      if target.None? {
        return NO_UPDATE;
      }
      var input := ImpliedInput(code);
      if input.None? || target.value !in zones {
        return NO_UPDATE;
      }
      var zone := zones[target.value].(input := input.value);
      zones := zones[target.value := zone];
      if code in ALARM_CODES && zone.areaId in areas {
        var area := areas[zone.areaId];
        areas := areas[zone.areaId := area.(triggered := true)];
        return Update({zone.id}, {area.id});
      }
      return Update({zone.id}, {});
    }

    /** `reconcile_event` up to its await: it is done at once, or goes on to the query with
        the IDs of the areas known now. */
    method StartReconcile(ev: SiaEvent) returns (done: Option<Update>, before: set<int>)
      modifies this
      ensures done.None? <==> IsAreaCode(ev)
      ensures before == old(areas).Keys
      ensures done.None? ==> State() == old(State())
      ensures done.Some? ==> forall rows :: (State(), done.value) == ReconcileEvent(old(State()), ev, before, rows)
    {
      before := areas.Keys;
      if CodeOf(ev) !in AREA_STATUS_CODES {
        var update := ApplyEvent(ev);
        return Some(update), before;
      }
      return None, before;
    }

    /** `reconcile_event` after its await; None where the refresh raised. */
    method FinishReconcile(ev: SiaEvent, before: set<int>, reply: Option<seq<Row>>) returns (update: Option<Update>)
      requires IsAreaCode(ev)
      modifies this
      ensures update.Some? <==> reply.Some?
      ensures update.None? ==> State() == old(State())
      ensures update.Some? ==> (State(), update.value) == ReconcileEvent(old(State()), ev, before, reply.value)
      ensures update.Some? ==> EventReconciles(old(State()), State(), update.value, ev, before, reply.value)
    {
      if reply.Some? { ReconcileShows(State(), ev, before, reply.value); }
      hide EventReconciles;

      var ok := RefreshAreas(reply);
      if !ok {
        return None;
      }
      var ids := before + areas.Keys;
      if CodeOf(ev) == "BV" {
        var target := TargetOf(ev);
        if target.Some? && target.value in areas {
          var area := areas[target.value];
          areas := areas[target.value := area.(triggered := true)];
          ids := ids + {area.id};
        }
      }
      return Some(Update({}, ids));
    }
  }

  // ----- What an event does, code by code -----

  /** The event arrives: `t` and `u` are the snapshot after it and the update reported. A zone
      closes on ZC and opens on ZO and the alarm codes; an alarm triggers the zone's area; the
      update names just these, and anything else changes nothing. */
  ghost predicate EventShows(s: Snapshot, t: Snapshot, u: Update, ev: SiaEvent) {
    var code, target := CodeOf(ev), TargetOf(ev);
    if target.None? || target.value !in s.zones || code !in {"ZC", "ZO", "BA", "FA", "PA", "HA", "TA"}
    then t == s && u.zoneIds == {} && u.areaIds == {}
    else
      var z := s.zones[target.value];
      var alarm := code != "ZC" && code != "ZO" && z.areaId in s.areas;
      && t.zones.Keys == s.zones.Keys && t.areas.Keys == s.areas.Keys
      && t.zones[target.value] == Zone(z.id, z.kind, z.name, z.areaId, if code == "ZC" then "0" else "1")
      && (forall k :: k in s.zones && k != target.value ==> t.zones[k] == s.zones[k])
      && (forall k :: k in s.areas ==>
            t.areas[k] == if alarm && k == z.areaId then s.areas[k].(triggered := true) else s.areas[k])
      && u.zoneIds == {z.id} && u.areaIds == (if alarm then {s.areas[z.areaId].id} else {})
  }

  lemma AppliedShows(s: Snapshot, ev: SiaEvent)
    ensures EventShows(s, Applied(s, ev).0, Applied(s, ev).1, ev)
  {
    hide TargetOf;
    hide CodeOf;
  }

  /** The event is reconciled: the six area codes take the rows of the query for the area
      snapshot and name every area known before or after; BV also triggers the area it is
      addressed to; any other code is applied as it is. */
  ghost predicate EventReconciles(
    s: Snapshot, t: Snapshot, u: Update, ev: SiaEvent, before: set<int>, rows: seq<Row>)
  {
    if CodeOf(ev) !in {"BV", "CG", "CL", "NL", "OG", "OP"} then EventShows(s, t, u, ev)
    else
      && t.zones == s.zones && u.zoneIds == {} && u.areaIds == before + t.areas.Keys
      && forall id ::
           && (id in t.areas <==> LastRow(rows, id).Some?)
           && (id in t.areas ==>
                 var row := LastRow(rows, id).value;
                 t.areas[id] == Area(id, Get(row, "NAME"), Get(row, "MODE"),
                   || (CodeOf(ev) == "BV" && TargetOf(ev) == Some(id))
                   || (id in s.areas && s.areas[id].triggered && Get(row, "MODE") != "0")))
  }

  lemma ReconcileShows(s: Snapshot, ev: SiaEvent, before: set<int>, rows: seq<Row>)
    ensures var (t, u) := ReconcileEvent(s, ev, before, rows);
      EventReconciles(s, t, u, ev, before, rows)
  {
    hide TargetOf;
    hide CodeOf;
    hide LastRow;
    AppliedShows(s, ev);
    hide Applied;
    forall id ensures id in RefreshedAreas(s.areas, rows) <==> LastRow(rows, id).Some? {
      RefreshedLookup(s.areas, rows, id);
    }
    forall id | id in RefreshedAreas(s.areas, rows)
      ensures var row := LastRow(rows, id).value;
        RefreshedAreas(s.areas, rows)[id] == Area(id, Get(row, "NAME"), Get(row, "MODE"),
          id in s.areas && s.areas[id].triggered && Get(row, "MODE") != "0")
    {
      RefreshedLookup(s.areas, rows, id);
    }
    RefreshedKeyed(s.areas, rows);
    hide RefreshedAreas;
    hide Get;
  }

  // ----- Texts as numbers and codes -----

  lemma {:induction false} DigitsOfDigits(s: string)
    requires AllDigits(s)
    ensures DigitsIn(s) == s
  {
    if s != [] {
      DigitsOfDigits(s[1..]);
      assert s == [s[0]] + s[1..];
    }
  }

  /** `int` does not mind whitespace around a number. */
  lemma ParseIntPads(before: string, t: string, after: string)
    requires t != [] && !IsSpace(t[0]) && !IsSpace(t[|t| - 1])
    requires forall c :: c in before || c in after ==> IsSpace(c)
    ensures ParseInt(before + t + after) == SignedValue(t)
  {
    StripPadded(before, t, after);
    hide Strip;
    hide SignedValue;
  }

  /** It reads grouped digits, with or without a sign before them. */
  lemma SignedReads(t: string)
    ensures Grouped(t) ==> SignedValue(t) == Some(Value(DigitsIn(t)))
    ensures t != [] && (t[0] == '+' || t[0] == '-') && Grouped(t[1..]) ==>
      var n: int := Value(DigitsIn(t[1..])); SignedValue(t) == Some(if t[0] == '-' then -n else n)
  {
    hide Value;
    hide DigitsIn;
  }

  /** Digits are grouped, and so are digits before an underscore and grouped digits, where the
      underscore does not count. */
  lemma {:induction false} GroupedReads(a: string, b: string)
    requires a != [] && AllDigits(a)
    ensures Grouped(a) && DigitsIn(a) == a
    ensures Grouped(b) ==> Grouped(a + "_" + b) && DigitsIn(a + "_" + b) == a + DigitsIn(b)
    decreases |a|
  {
    DigitsOfDigits(a);
    var s := a + "_" + b;
    if |a| == 1 {
      assert s[1..] == "_" + b && s[2..] == b;
      assert ("_" + b)[1..] == b;
      hide Grouped;
      assert DigitsIn("_" + b) == DigitsIn(b);
      GroupedStep(s);
      GroupedStep(a);
      assert a == [a[0]];
    } else {
      GroupedReads(a[1..], b);
      assert s[1..] == a[1..] + "_" + b;
      hide Grouped;
      GroupedStep(s);
      GroupedStep(a);
      assert a == [a[0]] + a[1..];
      assert [a[0]] + (a[1..] + DigitsIn(b)) == a + DigitsIn(b);
    }
  }

  lemma GroupedStep(s: string)
    requires s != [] && IsDigit(s[0])
    ensures Grouped(s) <==> |s| == 1 || Grouped(s[1..]) || (s[1] == '_' && Grouped(s[2..]))
  {
  }

  /** Addresses and IDs: ASCII digits and nothing else, an address with whitespace around it. */
  lemma NumericReads(s: string, ev: SiaEvent, before: string, after: string)
    requires forall c :: c in before || c in after ==> IsSpace(c)
    ensures Numeric(s).Some? <==> s != [] && forall i :: 0 <= i < |s| ==> '0' <= s[i] <= '9'
    ensures Numeric(s).Some? ==> Numeric(s).value == Value(s)
    ensures Numeric(s).Some? && ev.address == before + s + after ==> TargetOf(ev) == Numeric(s)
  {
    if Numeric(s).Some? {
      StripPadded(before, s, after);
    }
    hide Strip;
    hide Value;
  }

  /** Decimal notation, and the case of a code. */
  lemma TextLaws(s: string, c: char, i: nat, ev: SiaEvent)
    ensures Value([]) == 0
    ensures AllDigits(s) && '0' <= c <= '9' ==>
      AllDigits(s + [c]) && Value(s + [c]) == 10 * Value(s) + (c as int - 48)
    ensures |CodeOf(ev)| == |ev.siaCode|
    ensures i < |ev.siaCode| ==>
      CodeOf(ev)[i] as int
      == if 97 <= ev.siaCode[i] as int <= 122 then ev.siaCode[i] as int - 32 else ev.siaCode[i] as int
  {
    assert (s + [c])[..|s|] == s;
  }

  /** The area of a zone: 0 for an AREA that is missing, empty or no number. */
  lemma AreaReads(row: Row)
    ensures AreaOf(row) ==
      if "AREA" !in row || row["AREA"] == "" || ParseInt(row["AREA"]).None? then 0
      else ParseInt(row["AREA"]).value
    ensures "ID" in row ==> RowId(row) == Numeric(row["ID"])
    ensures "ID" !in row ==> RowId(row).None?
  {
    hide ParseInt;
  }

  // ----- Updates name what changed -----

  /** Entries are stored under their own IDs. */
  predicate Keyed(s: Snapshot) {
    && (forall k :: k in s.areas ==> s.areas[k].id == k)
    && (forall k :: k in s.zones ==> s.zones[k].id == k)
  }

  /** Every entry that differs between two snapshots is named by the update. */
  ghost predicate Names(s: Snapshot, t: Snapshot, u: Update) {
    && (forall k :: (k in s.zones) != (k in t.zones) || (k in s.zones && s.zones[k] != t.zones[k]) ==> k in u.zoneIds)
    && (forall k :: (k in s.areas) != (k in t.areas) || (k in s.areas && s.areas[k] != t.areas[k]) ==> k in u.areaIds)
  }

  lemma AppliedNames(s: Snapshot, ev: SiaEvent)
    requires Keyed(s)
    ensures var (t, u) := Applied(s, ev);
      && Keyed(t) && Names(s, t, u)
      && t.areas.Keys == s.areas.Keys && t.zones.Keys == s.zones.Keys
  {
    hide TargetOf;
    hide CodeOf;
    hide ImpliedInput;
  }

  lemma {:induction false} RefreshedKeyed(previous: map<int, Area>, rows: seq<Row>)
    ensures forall k :: k in RefreshedAreas(previous, rows) ==> RefreshedAreas(previous, rows)[k].id == k
  {
    forall k | k in RefreshedAreas(previous, rows) ensures RefreshedAreas(previous, rows)[k].id == k {
      RefreshedLookup(previous, rows, k);
    }
  }

  /** Every area that a refresh by `rows` removes is among `before`. */
  predicate KnewRemoved(s: Snapshot, before: set<int>, rows: seq<Row>) {
    forall k :: k in s.areas && LastRow(rows, k).None? ==> k in before
  }

  lemma ReconciledNames(s: Snapshot, ev: SiaEvent, before: set<int>, rows: seq<Row>)
    requires Keyed(s)
    ensures var (t, u) := Reconciled(s, ev, before, rows);
      && Keyed(t) && (Names(s, t, u) <==> KnewRemoved(s, before, rows))
  {
    hide TargetOf;
    hide CodeOf;
    RefreshedKeyed(s.areas, rows);
    forall k | k in s.areas ensures k in RefreshedAreas(s.areas, rows) <==> LastRow(rows, k).Some? {
      RefreshedLookup(s.areas, rows, k);
    }
    hide RefreshedAreas;
    hide LastRow;
  }

  /** The update of `reconcile_event` names everything that changed exactly when the event
      needed no query, or every area the refresh removed was known when the query was made;
      without another refresh in between, it always does. */
  lemma ReconcileEventNames(s: Snapshot, ev: SiaEvent, before: set<int>, rows: seq<Row>)
    requires Keyed(s)
    ensures var (t, u) := ReconcileEvent(s, ev, before, rows);
      && Keyed(t) && (Names(s, t, u) <==> !IsAreaCode(ev) || KnewRemoved(s, before, rows))
    ensures before == s.areas.Keys ==>
      var (t, u) := ReconcileEvent(s, ev, before, rows); Names(s, t, u)
  {
    ReconciledNames(s, ev, before, rows);
    AppliedNames(s, ev);
    hide Reconciled;
    hide Applied;
    hide IsAreaCode;
    hide Names;
    hide Keyed;
  }

  const CLOSING := SiaEvent(1, "", "CL", "1", "", "", "")

  /** A change that goes unnamed: the query is made on an empty snapshot, another refresh
      brings area 1 in, and the reply to the query takes it out again. */
  lemma ReconcileCanMiss()
    ensures var s := Next(Snapshot(map[], map[]), Areas([map["ID" := "1"]]));
      var (t, u) := ReconcileEvent(s, CLOSING, {}, []);
      Keyed(s) && 1 in s.areas && 1 !in t.areas && 1 !in u.areaIds && !Names(s, t, u)
  {
    var row: Row := map["ID" := "1"];
    RowOne(row);
    ClosingIsAreaCode();
    hide *;
    RemovalUnnamed(row, CLOSING);
  }

  lemma RowOne(row: Row)
    requires row == map["ID" := "1"]
    ensures RowId(row) == Some(1)
  {
    assert "1"[..0] == [] && Value([]) == 0;
  }

  lemma ClosingIsAreaCode()
    ensures IsAreaCode(CLOSING) && CodeOf(CLOSING) != "BV"
  {
    assert Upper("CL") == "CL";
  }

  lemma RemovalUnnamed(row: Row, ev: SiaEvent)
    requires RowId(row) == Some(1) && IsAreaCode(ev) && CodeOf(ev) != "BV"
    ensures var s := Next(Snapshot(map[], map[]), Areas([row]));
      var (t, u) := ReconcileEvent(s, ev, {}, []);
      Keyed(s) && 1 in s.areas && 1 !in t.areas && 1 !in u.areaIds && !Names(s, t, u)
  {
    hide RowId;
    hide CodeOf;
    hide TargetOf;
    var s := Next(Snapshot(map[], map[]), Areas([row]));
    assert s.areas == RefreshedAreas(map[], [row]);
    RefreshedKeyed(map[], [row]);
    RefreshedLookup(map[], [row], 1);
    assert LastRow([row], 1) == Some(row);
    assert LastRow([], 1).None?;
    ReconcileEventNames(s, ev, {}, []);
    assert RefreshedAreas(s.areas, []) == map[];
  }

  // ----- The alarm latch -----

  datatype Action =
    | Areas(rows: seq<Row>)
    | Zones(rows: seq<Row>)
    | Apply(ev: SiaEvent)
    | Reconcile(ev: SiaEvent, before: set<int>, rows: seq<Row>)

  function Next(s: Snapshot, a: Action): Snapshot {
    match a
    case Areas(rows) => s.(areas := RefreshedAreas(s.areas, rows))
    case Zones(rows) => s.(zones := RefreshedZones(rows))
    case Apply(ev) => Applied(s, ev).0
    case Reconcile(ev, before, rows) => ReconcileEvent(s, ev, before, rows).0
  }

  function After(actions: seq<Action>): Snapshot {
    if actions == [] then Snapshot(map[], map[])
    else Next(After(actions[..|actions| - 1]), actions[|actions| - 1])
  }

  /** An alarm event on a zone of area `id` while both are in the snapshot. */
  predicate AlarmsZone(s: Snapshot, ev: SiaEvent, id: int) {
    && CodeOf(ev) in {"BA", "FA", "PA", "HA", "TA"} && TargetOf(ev).Some? && TargetOf(ev).value in s.zones
    && s.zones[TargetOf(ev).value].areaId == id && id in s.areas
  }

  /** The action puts area `id` in alarm: an alarm event on one of its zones, applied or
      reconciled, or a BV reconciled that is addressed to it once it is in the refreshed
      snapshot. */
  predicate Raises(s: Snapshot, a: Action, id: int) {
    match a
    case Apply(ev) => AlarmsZone(s, ev, id)
    case Reconcile(ev, _, rows) =>
      || AlarmsZone(s, ev, id)
      || (CodeOf(ev) == "BV" && TargetOf(ev) == Some(id) && LastRow(rows, id).Some?)
    case _ => false
  }

  /** The action takes its rows as the new area snapshot. */
  predicate Refreshes(a: Action) {
    a.Areas? || (a.Reconcile? && IsAreaCode(a.ev))
  }

  /** The action is a refresh after which area `id` has just entered the snapshot, is not in
      it, or is reported unset by its last row. */
  predicate Clears(s: Snapshot, a: Action, id: int) {
    Refreshes(a)
    && (id !in s.areas || LastRow(a.rows, id).None? || Get(LastRow(a.rows, id).value, "MODE") == "0")
  }

  /** Action number `i` raised area `id`, and no later action cleared it. */
  ghost predicate StandingFrom(actions: seq<Action>, id: int, i: int) {
    && 0 <= i < |actions| && Raises(After(actions[..i]), actions[i], id)
    && forall j :: i < j < |actions| ==> !Clears(After(actions[..j]), actions[j], id)
  }

  /** Area `id` was raised at some point of the history and not cleared since. */
  ghost predicate AlarmStanding(actions: seq<Action>, id: int) {
    exists i :: StandingFrom(actions, id, i)
  }

  /** One action on the flag of an area. */
  lemma TriggeredStep(s: Snapshot, a: Action, id: int)
    requires id in Next(s, a).areas
    ensures Next(s, a).areas[id].triggered
        <==> Raises(s, a, id) || (id in s.areas && s.areas[id].triggered && !Clears(s, a, id))
  {
    hide TargetOf;
    hide CodeOf;
    hide LastRow;
    hide Get;
    if Refreshes(a) {
      RefreshedLookup(s.areas, a.rows, id);
    }
    hide RefreshedAreas;
    hide RefreshedZones;
    if (a.Apply? || a.Reconcile?) && CodeOf(a.ev) in ALARM_CODES {
      assert ImpliedInput(CodeOf(a.ev)) == Some("1");
    }
  }

  lemma KeptUnlessRefreshed(s: Snapshot, a: Action, id: int)
    requires id in Next(s, a).areas && id !in s.areas
    ensures Refreshes(a)
  {
    hide TargetOf;
    hide CodeOf;
  }

  /** The last action of a history raises the alarm, or keeps one that was standing. */
  lemma StandingStep(actions: seq<Action>, id: int)
    requires actions != []
    ensures var n := |actions| - 1;
      AlarmStanding(actions, id)
      <==> Raises(After(actions[..n]), actions[n], id)
           || (AlarmStanding(actions[..n], id) && !Clears(After(actions[..n]), actions[n], id))
  {
    hide After;
    hide Raises;
    hide Clears;
    var n := |actions| - 1;
    var init := actions[..n];
    assert forall i :: 0 <= i < n ==> init[..i] == actions[..i] && init[i] == actions[i];
    if AlarmStanding(init, id) && !Clears(After(init), actions[n], id) {
      var i :| StandingFrom(init, id, i);
      assert StandingFrom(actions, id, i);
    }
    if Raises(After(init), actions[n], id) {
      assert StandingFrom(actions, id, n);
    }
    if AlarmStanding(actions, id) && !Raises(After(init), actions[n], id) {
      var i :| StandingFrom(actions, id, i);
      assert StandingFrom(init, id, i);
    }
  }

  /** Over every history of refreshes and events, an area in the snapshot is triggered
      exactly when an alarm was raised for it since it last entered the snapshot and since a
      refresh last reported it unset. */
  lemma {:induction false} AlarmLatch(actions: seq<Action>, id: int)
    requires id in After(actions).areas
    ensures After(actions).areas[id].triggered <==> AlarmStanding(actions, id)
  {
    var n := |actions| - 1;
    var before, a := After(actions[..n]), actions[n];
    StandingStep(actions, id);
    TriggeredStep(before, a, id);
    if id in before.areas {
      AlarmLatch(actions[..n], id);
    } else {
      KeptUnlessRefreshed(before, a, id);
    }
    hide AlarmStanding;
  }
}
