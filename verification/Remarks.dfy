/** Remarks on anomalies: the ids anomalies are listed under, the event a remark is written
    to, and what the lists show afterwards. */
module Remarks {
  import opened Text
  import opened Visibility

  // ----- anomaly ids -----

  datatype AnomalyId =
    | Overtime(date: string, employee: string)
    | Late(date: string, employee: string)
    | Unpaired(date: string, employee: string, missing: string)
    | Denied(requestId: string)

  function PrintId(a: AnomalyId): string {
    match a
    case Overtime(date, employee) => "overtime:" + date + ":" + employee
    case Late(date, employee) => "late:" + date + ":" + employee
    case Unpaired(date, employee, missing) => "unpaired:" + date + ":" + employee + ":" + missing
    case Denied(requestId) => "denied:" + requestId
  }

  /** `split(":")`. */
  function Split(s: string): (parts: seq<string>)
    ensures |parts| > 0
  {
    if s == "" then [""]
    else
      var rest := Split(s[1..]);
      if s[0] == ':' then [""] + rest else [[s[0]] + rest[0]] + rest[1..]
  }

  function ParseId(text: string): Option<AnomalyId> {
    if |text| >= 7 && text[..7] == "denied:" then
      if text[7..] == "" then None else Some(Denied(text[7..]))
    else
      var parts := Split(text);
      if parts[0] == "overtime" && |parts| == 3 then Some(Overtime(parts[1], parts[2]))
      else if parts[0] == "late" && |parts| == 3 then Some(Late(parts[1], parts[2]))
      else if parts[0] == "unpaired" && |parts| == 4 && (parts[3] == "IN" || parts[3] == "OUT")
      then Some(Unpaired(parts[1], parts[2], parts[3]))
      else None
  }

  predicate ColonFree(s: string) { forall i :: 0 <= i < |s| ==> s[i] != ':' }

  lemma {:induction false} SplitField(field: string, rest: string)
    requires ColonFree(field)
    ensures Split(field + ":" + rest) == [field] + Split(rest)
  {
    var s := field + ":" + rest;
    if field == "" {
      assert s[1..] == rest;
    } else {
      assert s[1..] == field[1..] + ":" + rest;
      SplitField(field[1..], rest);
      assert [field[0]] + field[1..] == field;
    }
  }

  lemma {:induction false} SplitLast(field: string)
    ensures ColonFree(field) ==> Split(field) == [field]
    ensures !ColonFree(field) ==> |Split(field)| > 1
  {
    if field != "" {
      SplitLast(field[1..]);
      assert [field[0]] + field[1..] == field;
      if !ColonFree(field) && field[0] != ':' {
        var i :| 0 <= i < |field| && field[i] == ':';
        assert field[1..][i - 1] == ':';
      }
    }
  }

  /** What the lists print: the date carries no colon, a missing direction is IN or OUT,
      and request ids are not empty. */
  predicate Printable(a: AnomalyId) {
    match a
    case Overtime(date, _) => ColonFree(date)
    case Late(date, _) => ColonFree(date)
    case Unpaired(date, _, missing) => ColonFree(date) && (missing == "IN" || missing == "OUT")
    case Denied(requestId) => requestId != ""
  }

  /** A printed id is read back as itself if and only if the employee id in it has no colon;
      a request id may be anything. */
  lemma IdsReadBack(a: AnomalyId)
    requires Printable(a)
    ensures ParseId(PrintId(a)) == Some(a) <==> a.Denied? || ColonFree(a.employee)
  {
    hide ParseId, PrintId, ColonFree;
    match a
    case Denied(requestId) => DeniedIds(requestId);
    case Overtime(_, employee) => if ColonFree(employee) { ColonFreeIds(a); } else { OverlongIds(a); }
    case Late(_, employee) => if ColonFree(employee) { ColonFreeIds(a); } else { OverlongIds(a); }
    case Unpaired(_, employee, _) => if ColonFree(employee) { ColonFreeIds(a); } else { OverlongIds(a); }
  }

  lemma DeniedIds(requestId: string)
    requires requestId != ""
    ensures ParseId(PrintId(Denied(requestId))) == Some(Denied(requestId))
  {
    hide Split;
    var text := PrintId(Denied(requestId));
    assert text[..7] == "denied:" && text[7..] == requestId;
  }

  lemma ColonFreeIds(a: AnomalyId)
    requires Printable(a) && !a.Denied? && ColonFree(a.employee)
    ensures ParseId(PrintId(a)) == Some(a)
  {
    hide Split, ColonFree;
    var text := PrintId(a);
    match a
    case Overtime(date, employee) =>
      TwoFields("overtime", date, employee);
      assert text == "overtime" + ":" + date + ":" + employee;
    case Late(date, employee) =>
      TwoFields("late", date, employee);
      assert text == "late" + ":" + date + ":" + employee;
      assert "late" != "overtime";
    case Unpaired(date, employee, missing) =>
      ThreeFields(date, employee, missing);
      assert "unpaired"[0] != "overtime"[0] && "unpaired"[0] != "late"[0];
  }

  lemma TwoFields(kind: string, date: string, employee: string)
    requires (kind == "overtime" || kind == "late") && ColonFree(date)
    ensures var text := kind + ":" + date + ":" + employee;
      && !(|text| >= 7 && text[..7] == "denied:")
      && Split(text)[0] == kind
      && (ColonFree(employee) ==> Split(text) == [kind, date, employee])
      && (!ColonFree(employee) ==> |Split(text)| > 3)
  {
    var text := kind + ":" + date + ":" + employee;
    assert text[0] == kind[0];
    if |text| >= 7 { assert text[..7][0] == text[0] && "denied:"[0] == 'd'; }
    assert text == kind + ":" + (date + ":" + employee);
    SplitField(kind, date + ":" + employee);
    SplitField(date, employee);
    SplitLast(employee);
  }

  lemma ThreeFields(date: string, employee: string, missing: string)
    requires ColonFree(date) && (missing == "IN" || missing == "OUT")
    ensures var text := "unpaired:" + date + ":" + employee + ":" + missing;
      && !(|text| >= 7 && text[..7] == "denied:")
      && Split(text)[0] == "unpaired"
      && (ColonFree(employee) ==> Split(text) == ["unpaired", date, employee, missing])
      && (!ColonFree(employee) ==> |Split(text)| > 4)
  {
    var text := "unpaired:" + date + ":" + employee + ":" + missing;
    if |text| >= 7 { assert text[..7][0] == 'u' && "denied:"[0] == 'd'; }
    assert text == "unpaired" + ":" + (date + ":" + (employee + ":" + missing));
    SplitField("unpaired", date + ":" + (employee + ":" + missing));
    SplitField(date, employee + ":" + missing);
    if ColonFree(employee) {
      SplitField(employee, missing);
      SplitLast(missing);
    } else {
      ColonInside(employee, missing);
    }
  }

  lemma {:induction false} ColonInside(field: string, rest: string)
    requires !ColonFree(field)
    ensures |Split(field + ":" + rest)| > 2
  {
    var s := field + ":" + rest;
    assert s[1..] == field[1..] + ":" + rest;
    if field[0] == ':' {
      AnotherColon(field[1..], rest);
    } else {
      assert !ColonFree(field[1..]) by {
        var i :| 0 <= i < |field| && field[i] == ':';
        assert field[1..][i - 1] == ':';
      }
      ColonInside(field[1..], rest);
    }
  }

  lemma AnotherColon(field: string, rest: string)
    ensures |Split(field + ":" + rest)| > 1
  {
    SplitLast(field + ":" + rest);
    assert (field + ":" + rest)[|field|] == ':';
  }

  function Join(parts: seq<string>): string
    requires parts != []
  {
    if |parts| == 1 then parts[0] else parts[0] + ":" + Join(parts[1..])
  }

  /** Splitting loses nothing and leaves no colon. */
  lemma {:induction false} JoinedAgain(s: string)
    ensures Join(Split(s)) == s && forall part :: part in Split(s) ==> ColonFree(part)
  {
    if s != "" {
      var rest := Split(s[1..]);
      JoinedAgain(s[1..]);
      assert s == [s[0]] + s[1..];
      if s[0] == ':' {
        assert ([""] + rest)[1..] == rest;
      } else {
        var first := [s[0]] + rest[0];
        assert rest == [rest[0]] + rest[1..];
        assert ([first] + rest[1..])[1..] == rest[1..];
        assert rest[0] in rest;
      }
    }
  }

  lemma JoinThree(parts: seq<string>)
    requires |parts| == 3
    ensures Join(parts) == parts[0] + ":" + parts[1] + ":" + parts[2]
  {
    assert parts[1..][1..] == [parts[2]];
    assert Join(parts[1..]) == parts[1] + ":" + parts[2];
  }

  lemma JoinFour(parts: seq<string>)
    requires |parts| == 4
    ensures Join(parts) == parts[0] + ":" + parts[1] + ":" + parts[2] + ":" + parts[3]
  {
    JoinThree(parts[1..]);
  }

  /** The texts that are read as an id are exactly the printed ones whose fields carry no
      colon. */
  lemma ParsesExactly(text: string, a: AnomalyId)
    ensures ParseId(text) == Some(a) <==>
      text == PrintId(a) && Printable(a) && (a.Denied? || ColonFree(a.employee))
  {
    if text == PrintId(a) && Printable(a) && (a.Denied? || ColonFree(a.employee)) { IdsReadBack(a); }
    if ParseId(text) == Some(a) { ParsedIsPrinted(text, a); }
  }

  lemma ParsedIsPrinted(text: string, a: AnomalyId)
    requires ParseId(text) == Some(a)
    ensures text == PrintId(a) && Printable(a) && (a.Denied? || ColonFree(a.employee))
  {
    hide Join, ColonFree, Split;
    var parts := Split(text);
    FieldsOf(text);
    if a.Denied? {
      assert text == text[..7] + text[7..];
    } else {
      ParsedFields(text, a);
      hide ParseId;
      FieldsPrinted(parts, a);
    }
  }

  /** The text is its fields with colons between. */
  lemma FieldsOf(text: string)
    ensures var parts := Split(text);
      && (forall i :: 0 <= i < |parts| ==> ColonFree(parts[i]))
      && (|parts| == 3 ==> text == parts[0] + ":" + parts[1] + ":" + parts[2])
      && (|parts| == 4 ==> text == parts[0] + ":" + parts[1] + ":" + parts[2] + ":" + parts[3])
  {
    hide Split, Join, ColonFree;
    var parts := Split(text);
    JoinedAgain(text);
    assert forall i :: 0 <= i < |parts| ==> parts[i] in parts;
    if |parts| == 3 { JoinThree(parts); }
    if |parts| == 4 { JoinFour(parts); }
  }

  ghost predicate HasFields(parts: seq<string>, a: AnomalyId) {
    match a
    case Overtime(date, employee) => parts == ["overtime", date, employee]
    case Late(date, employee) => parts == ["late", date, employee]
    case Unpaired(date, employee, missing) =>
      parts == ["unpaired", date, employee, missing] && (missing == "IN" || missing == "OUT")
    case Denied(_) => false
  }

  lemma ParsedFields(text: string, a: AnomalyId)
    requires ParseId(text) == Some(a) && !a.Denied?
    ensures HasFields(Split(text), a)
  {
    hide Split;
    var parts := Split(text);
    if |parts| == 3 { assert parts == [parts[0], parts[1], parts[2]]; }
    if |parts| == 4 { assert parts == [parts[0], parts[1], parts[2], parts[3]]; }
  }

  lemma FieldsPrinted(parts: seq<string>, a: AnomalyId)
    requires HasFields(parts, a) && forall i :: 0 <= i < |parts| ==> ColonFree(parts[i])
    ensures Printable(a) && ColonFree(a.employee)
    ensures |parts| == 3 ==> PrintId(a) == parts[0] + ":" + parts[1] + ":" + parts[2]
    ensures |parts| == 4 ==> PrintId(a) == parts[0] + ":" + parts[1] + ":" + parts[2] + ":" + parts[3]
    ensures |parts| == 3 || |parts| == 4
  {
    hide ColonFree;
    assert ColonFree(parts[1]) && ColonFree(parts[2]);
    assert "overtime" + ":" == "overtime:" && "late" + ":" == "late:" && "unpaired" + ":" == "unpaired:";
  }

  // ----- the events -----

  /** An access event. `mainGate`: its gate matches the main gate pattern. Empty strings
      stand for a missing reason or remark. */
  datatype Event = Event(requestId: string, employee: string, mainGate: bool, direction: string, decision: string,
                         reason: string, remark: string, at: int, date: string)

  /** The table, by primary key. */
  type Events = map<nat, Event>

  ghost predicate Unique(events: Events) {
    forall i, j :: i in events && j in events && events[i].requestId == events[j].requestId ==> i == j
  }

  /** What a query may read: employees of some departments, or one employee only. */
  datatype View = View(ids: Option<set<string>>, own: string)

  predicate Sees(departments: map<string, string>, view: View, employee: string) {
    && employee in departments
    && Selects(view.ids, if departments[employee] == "" then None else Some(departments[employee]))
    && (view.own == "" || view.own == employee)
  }

  predicate Candidate(e: Event, employee: string, date: string, direction: string) {
    e.employee == employee && e.date == date && e.mainGate && e.decision == "GRANTED" && e.direction == direction
  }

  /** Row i precedes row j in the order by time, then key. */
  predicate Precedes(events: Events, i: nat, j: nat)
    requires i in events && j in events
  {
    events[i].at < events[j].at || (events[i].at == events[j].at && i < j)
  }

  /** The first (or last) granted main-gate event of an employee-day in a direction. */
  predicate FirstOn(events: Events, i: nat, employee: string, date: string, direction: string) {
    i in events && Candidate(events[i], employee, date, direction)
    && forall j :: j in events.Keys && Candidate(events[j], employee, date, direction) ==> !Precedes(events, j, i)
  }
  predicate LastOn(events: Events, i: nat, employee: string, date: string, direction: string) {
    i in events && Candidate(events[i], employee, date, direction)
    && forall j :: j in events.Keys && Candidate(events[j], employee, date, direction) ==> !Precedes(events, i, j)
  }

  // ----- writing a remark -----

  /** The event an anomaly id stands for, as the update statement selects it. */
  predicate IsTarget(events: Events, departments: map<string, string>, view: View, a: AnomalyId, i: nat) {
    match a
    case Late(date, employee) => Sees(departments, view, employee) && FirstOn(events, i, employee, date, "IN")
    case Overtime(date, employee) => Sees(departments, view, employee) && LastOn(events, i, employee, date, "OUT")
    case Unpaired(date, employee, missing) =>
      Sees(departments, view, employee) && LastOn(events, i, employee, date, if missing == "IN" then "OUT" else "IN")
    case Denied(requestId) =>
      i in events && events[i].requestId == requestId && events[i].decision == "DENIED"
          && Sees(departments, view, events[i].employee)
  }

  lemma TargetIsOne(events: Events, departments: map<string, string>, view: View, a: AnomalyId, i: nat, j: nat)
    requires Unique(events) && IsTarget(events, departments, view, a, i) && IsTarget(events, departments, view, a, j)
    ensures i == j
  {
  }

  /** The direction of the swipe that a remark on a day of this kind goes to. */
  function WantedDirection(a: AnomalyId): string
    requires !a.Denied?
  {
    match a
    case Late(_, _) => "IN"
    case Overtime(_, _) => "OUT"
    case Unpaired(_, _, missing) => if missing == "IN" then "OUT" else "IN"
  }

  /** A granted swipe of the employee at the main gate on the day. */
  predicate DaySwipe(e: Event, employee: string, date: string, direction: string) {
    && e.employee == employee && e.date == date && e.direction == direction && e.mainGate && e.decision == "GRANTED"
  }

  /** Whom a view shows: of the departments listed, if any, and nobody else, if it is one's own. */
  predicate MayWrite(departments: map<string, string>, view: View, employee: string) {
    && employee in departments
    && (view.ids == None || (departments[employee] != "" && departments[employee] in view.ids.value))
    && (view.own == "" || view.own == employee)
  }

  /** A late arrival stands for the earliest such swipe of the day, the lower key first; the
      other two for the latest, the higher key last; a denied id for its request. */
  lemma TargetExactly(events: Events, departments: map<string, string>, view: View, a: AnomalyId, i: nat)
    ensures IsTarget(events, departments, view, a, i) <==>
      && i in events
      && (if a.Denied? then
            && events[i].requestId == a.requestId && events[i].decision == "DENIED"
            && MayWrite(departments, view, events[i].employee)
          else
            && DaySwipe(events[i], a.employee, a.date, WantedDirection(a))
            && MayWrite(departments, view, a.employee)
            && forall j :: j in events && DaySwipe(events[j], a.employee, a.date, WantedDirection(a)) ==>
                 if a.Late? then events[i].at < events[j].at || (events[i].at == events[j].at && i <= j)
                 else events[j].at < events[i].at || (events[j].at == events[i].at && j <= i))
  {
    hide WantedDirection;
    WantedIs(a);
  }

  lemma WantedIs(a: AnomalyId)
    ensures a.Late? ==> WantedDirection(a) == "IN"
    ensures a.Overtime? ==> WantedDirection(a) == "OUT"
    ensures a.Unpaired? ==> WantedDirection(a) == if a.missing == "IN" then "OUT" else "IN"
  {
  }

  datatype Outcome = Written(note: string) | Unsupported | BadDate | NotFound

  /** The database's CAST of the date in an id, as the text of the date; None raises. */
  type Cast = string -> Option<string>

  /** The id with its date as the database understands it. */
  function Dated(cast: Cast, a: AnomalyId): Option<AnomalyId> {
    if a.Denied? then Some(a)
    else match cast(a.date) case None => None case Some(date) => Some(a.(date := date))
  }

  const PENDING := "待主管確認"

  function Or(s: string, default_: string): string { if s == "" then default_ else s }

  /** What the reply and the lists show for an event's remark. */
  function NoteOf(e: Event): string {
    if e.decision == "DENIED" then Or(e.remark, Or(e.reason, PENDING)) else Or(e.remark, PENDING)
  }

  function Remarked(events: Events, i: nat, remark: string): Events
    requires i in events
  {
    events[i := events[i].(remark := remark)]
  }

  class EventTable {
    var events: Events

    constructor (rows: Events)
      ensures events == rows
    {
      events := rows;
    }

    /** `update_compliance_anomaly_remark`, which hands denied ids to
        `update_denied_access_remark`. */
    method UpdateRemark(departments: map<string, string>, view: View, cast: Cast, anomalyId: string, remark: string)
      returns (r: Outcome, ghost target: nat)
      modifies this
      ensures r == Unsupported <==> ParseId(anomalyId) == None
      ensures r == BadDate <==> ParseId(anomalyId).Some? && Dated(cast, ParseId(anomalyId).value) == None
      ensures r == NotFound <==>
        && ParseId(anomalyId).Some? && Dated(cast, ParseId(anomalyId).value).Some?
        && forall i :: !IsTarget(old(events), departments, view, Dated(cast, ParseId(anomalyId).value).value, i)
      ensures !r.Written? ==> events == old(events)
      ensures r.Written? ==>
        && IsTarget(old(events), departments, view, Dated(cast, ParseId(anomalyId).value).value, target)
        && events == Remarked(old(events), target, Strip(remark))
        && r.note == NoteOf(events[target])
        // the reply shows the remark written; without one, why access was denied, if it was
        && var reason := if events[target].decision == "DENIED" then events[target].reason else "";
           r.note == if Strip(remark) != "" then Strip(remark) else if reason != "" then reason else PENDING
    {
      target := 0;
      var parsed := ParseId(anomalyId);
      if parsed.None? { return Unsupported, 0; }
      var dated := Dated(cast, parsed.value);
      if dated.None? { return BadDate, 0; }
      if i :| i in events.Keys && IsTarget(events, departments, view, dated.value, i) {
        events := Remarked(events, i, Strip(remark));
        target := i;
        r := Written(NoteOf(events[i]));
      } else {
        TargetsAreRows(events, departments, view, dated.value);
        r := NotFound;
      }
    }
  }

  /** The id of a listed item is read back as the item, whose date the database casts to
      itself, if and only if its employee id has no colon. */
  lemma ListedIdsReadBack(cast: Cast, a: AnomalyId)
    requires Printable(a) && (!a.Denied? ==> cast(a.date) == Some(a.date))
    ensures (ParseId(PrintId(a)).Some? && Dated(cast, ParseId(PrintId(a)).value) == Some(a)) <==>
      a.Denied? || ColonFree(a.employee)
  {
    IdsReadBack(a);
    if !a.Denied? && !ColonFree(a.employee) { OverlongIds(a); }
  }

  lemma OverlongIds(a: AnomalyId)
    requires Printable(a) && !a.Denied? && !ColonFree(a.employee)
    ensures ParseId(PrintId(a)) == None
  {
    hide Split, ColonFree;
    var text := PrintId(a);
    match a
    case Overtime(date, employee) =>
      TwoFields("overtime", date, employee);
      assert text == "overtime" + ":" + date + ":" + employee;
      assert "overtime"[0] != "unpaired"[0] && "overtime"[0] != "late"[0];
    case Late(date, employee) =>
      TwoFields("late", date, employee);
      assert text == "late" + ":" + date + ":" + employee;
      assert "late" != "overtime" && "late" != "unpaired";
    case Unpaired(date, employee, missing) =>
      ThreeFields(date, employee, missing);
      assert "unpaired"[0] != "overtime"[0] && "unpaired"[0] != "late"[0];
  }

  lemma TargetsAreRows(events: Events, departments: map<string, string>, view: View, a: AnomalyId)
    ensures forall i :: IsTarget(events, departments, view, a, i) ==> i in events.Keys
  {
  }

  // ----- the lists -----

  datatype Window = Window(since: int, until: int)

  predicate Within(w: Window, e: Event) { w.since <= e.at <= w.until }

  /** The overtime list has an employee-day whose first IN and last OUT in the window are
      far enough apart: some IN and some later OUT are. */
  ghost predicate OvertimeListed(events: Events, departments: map<string, string>, view: View, w: Window,
                                 threshold: nat, employee: string, date: string) {
    && Sees(departments, view, employee)
    && exists i, j :: i in events && j in events && Candidate(events[i], employee, date, "IN")
        && Candidate(events[j], employee, date, "OUT")
         && Within(w, events[i]) && Within(w, events[j]) && events[j].at - events[i].at > threshold
  }

  /** Its note is that of the last OUT of the whole day. */
  ghost predicate OvertimeNote(events: Events, employee: string, date: string, note: string) {
    exists i :: LastOn(events, i, employee, date, "OUT") && note == Or(events[i].remark, PENDING)
  }

  /** The late list has the first IN of each employee-day in the window, if it is late. */
  ghost predicate FirstWithin(events: Events, w: Window, i: nat, employee: string, date: string) {
    i in events && Candidate(events[i], employee, date, "IN") && Within(w, events[i])
    && forall j :: j in events && Candidate(events[j], employee, date, "IN") && Within(w, events[j]) ==>
      !Precedes(events, j, i)
  }

  ghost predicate LateListed(events: Events, departments: map<string, string>, view: View, w: Window,
                             isLate: int -> bool, i: nat, employee: string, date: string) {
    Sees(departments, view, employee) && FirstWithin(events, w, i, employee, date) && isLate(events[i].at)
  }

  ghost predicate DeniedListed(events: Events, departments: map<string, string>, view: View, w: Window, i: nat) {
    i in events && events[i].decision == "DENIED" && Within(w, events[i]) && Sees(departments, view, events[i].employee)
  }

  /** The unpaired list has an employee-day that shows only one direction in the window; the
      note names the missing one and is never read from a row. */
  ghost predicate UnpairedListed(events: Events, departments: map<string, string>, view: View, w: Window,
                                 employee: string, date: string, missing: string) {
    && Sees(departments, view, employee)
    && (missing == "IN" || missing == "OUT")
    && OccursWithin(events, w, employee, date, if missing == "IN" then "OUT" else "IN")
    && !OccursWithin(events, w, employee, date, missing)
  }

  ghost predicate OccursWithin(events: Events, w: Window, employee: string, date: string, direction: string) {
    exists i :: i in events && Candidate(events[i], employee, date, direction) && Within(w, events[i])
  }

  function UnpairedNote(missing: string): string { if missing == "IN" then "缺少進場刷卡" else "缺少離場刷卡" }

  /** Remarks decide neither what is listed nor what an id stands for. */
  lemma ListsStay(events: Events, departments: map<string, string>, view: View, w: Window, threshold: nat,
                  isLate: int -> bool, t: nat, remark: string)
    requires t in events
    ensures var after := Remarked(events, t, remark);
      && (forall employee, date :: OvertimeListed(after, departments, view, w, threshold, employee, date)
                              <==> OvertimeListed(events, departments, view, w, threshold, employee, date))
      && (forall i, employee, date :: LateListed(after, departments, view, w, isLate, i, employee, date)
                                 <==> LateListed(events, departments, view, w, isLate, i, employee, date))
      && (forall i :: DeniedListed(after, departments, view, w, i) <==> DeniedListed(events, departments, view, w, i))
      && (forall employee, date, missing :: UnpairedListed(after, departments, view, w, employee, date, missing)
                                       <==> UnpairedListed(events, departments, view, w, employee, date, missing))
  {
    var after := Remarked(events, t, remark);
    assert Remarked(after, t, events[t].remark) == events;
    hide Sees;
    forall employee, date ensures OvertimeListed(after, departments, view, w, threshold, employee, date)
                             <==> OvertimeListed(events, departments, view, w, threshold, employee, date) {
      OvertimeStays(events, departments, view, w, threshold, t, remark, employee, date);
      OvertimeStays(after, departments, view, w, threshold, t, events[t].remark, employee, date);
      assert Remarked(after, t, events[t].remark) == events;
    }
    forall employee, date, direction
      ensures OccursWithin(after, w, employee, date, direction) <==> OccursWithin(events, w, employee, date, direction)
    {
      OccurrenceStays(events, w, t, remark, employee, date, direction);
      OccurrenceStays(after, w, t, events[t].remark, employee, date, direction);
    }
    forall i, employee, date ensures FirstWithin(after, w, i, employee, date) <==>
      FirstWithin(events, w, i, employee, date) {
      FirstStays(events, w, t, remark, i, employee, date);
      FirstStays(after, w, t, events[t].remark, i, employee, date);
    }
  }

  lemma OccurrenceStays(events: Events, w: Window, t: nat, remark: string, employee: string, date: string,
                        direction: string)
    requires t in events
    ensures OccursWithin(events, w, employee, date, direction) ==>
      OccursWithin(Remarked(events, t, remark), w, employee, date, direction)
  {
    var after := Remarked(events, t, remark);
    if i :| i in events && Candidate(events[i], employee, date, direction) && Within(w, events[i]) {
      assert i in after && Candidate(after[i], employee, date, direction);
    }
  }

  lemma FirstStays(events: Events, w: Window, t: nat, remark: string, i: nat, employee: string, date: string)
    requires t in events
    ensures FirstWithin(events, w, i, employee, date) ==> FirstWithin(Remarked(events, t, remark), w, i, employee, date)
  {
  }

  lemma OvertimeStays(events: Events, departments: map<string, string>, view: View, w: Window, threshold: nat,
                      t: nat, remark: string, employee: string, date: string)
    requires t in events
    ensures OvertimeListed(events, departments, view, w, threshold, employee, date) ==>
            OvertimeListed(Remarked(events, t, remark), departments, view, w, threshold, employee, date)
  {
    var after := Remarked(events, t, remark);
    if OvertimeListed(events, departments, view, w, threshold, employee, date) {
      var i, j :| i in events && j in events && Candidate(events[i], employee, date, "IN")
          && Candidate(events[j], employee, date, "OUT")
        && Within(w, events[i]) && Within(w, events[j]) && events[j].at - events[i].at > threshold;
      assert i in after && j in after && Candidate(after[i], employee, date, "IN")
          && Candidate(after[j], employee, date, "OUT");
    }
  }

  /** Update permission is no narrower than what is listed. */
  ghost predicate Narrower(departments: map<string, string>, listed: View, updating: View) {
    forall employee :: Sees(departments, listed, employee) ==> Sees(departments, updating, employee)
  }

  /** A list narrowed to a requested department, and an update under the user's own view. */
  lemma ListedIsUpdatable(dir: Directory, user: Option<User>, visible: Option<set<string>>,
                          requested: Option<string>, own: string, departments: map<string, string>)
    ensures Narrower(departments, View(Narrowed(dir, user, visible, requested), own),
                     View(Narrowed(dir, user, visible, None), own))
  {
    var l, u := View(Narrowed(dir, user, visible, requested), own), View(Narrowed(dir, user, visible, None), own);
    forall employee | Sees(departments, l, employee) ensures Sees(departments, u, employee) { }
  }

  // ----- read your write -----

  /** After a remark on a listed overtime day: its note is the trimmed remark or the
      default, and the note of every other listed item stays. */
  lemma OvertimeReadsBack(events: Events, departments: map<string, string>, listed: View, updating: View, w: Window,
                          threshold: nat,
                          date: string, employee: string, remark: string, t: nat)
    requires Unique(events) && Narrower(departments, listed, updating)
    requires ColonFree(date) && ColonFree(employee)
    requires OvertimeListed(events, departments, listed, w, threshold, employee, date)
    requires IsTarget(events, departments, updating, Overtime(date, employee), t)
    ensures ParseId(PrintId(Overtime(date, employee))) == Some(Overtime(date, employee))
    ensures var after := Remarked(events, t, Strip(remark));
      && OvertimeNote(after, employee, date, Or(Strip(remark), PENDING))
      && (forall note :: OvertimeNote(after, employee, date, note) ==> note == Or(Strip(remark), PENDING))
      && OvertimeNotesStay(events, after, employee, date)
      && RowsStay(events, after, t) && events[t].direction == "OUT" && events[t].decision == "GRANTED"
  {
    IdsReadBack(Overtime(date, employee));
    var after := Remarked(events, t, Strip(remark));
    assert LastOn(after, t, employee, date, "OUT");
    hide LastOn;
    forall e, d, note | e != employee || d != date ensures OvertimeNote(after, e, d, note) <==>
      OvertimeNote(events, e, d, note) {
      NoteStays(events, t, Strip(remark), e, d, note);
    }
  }

  ghost predicate OvertimeNotesStay(events: Events, after: Events, employee: string, date: string) {
    forall e, d, note :: e != employee || d != date ==>
      (OvertimeNote(after, e, d, note) <==> OvertimeNote(events, e, d, note))
  }

  /** All rows but one keep everything. */
  ghost predicate RowsStay(events: Events, after: Events, t: nat) {
    after.Keys == events.Keys && forall i :: i in events && i != t ==> after[i] == events[i]
  }

  lemma OtherDayStays(events: Events, t: nat, remark: string, e: string, d: string, note: string)
    requires t in events && !Candidate(events[t], e, d, "OUT") && OvertimeNote(events, e, d, note)
    ensures OvertimeNote(Remarked(events, t, remark), e, d, note)
  {
    var i :| LastOn(events, i, e, d, "OUT") && note == Or(events[i].remark, PENDING);
    assert LastOn(Remarked(events, t, remark), i, e, d, "OUT");
  }

  lemma NoteStays(events: Events, t: nat, remark: string, e: string, d: string, note: string)
    requires t in events && !Candidate(events[t], e, d, "OUT")
    ensures OvertimeNote(Remarked(events, t, remark), e, d, note) <==> OvertimeNote(events, e, d, note)
  {
    var after := Remarked(events, t, remark);
    hide OvertimeNote;
    if OvertimeNote(events, e, d, note) { OtherDayStays(events, t, remark, e, d, note); }
    if OvertimeNote(after, e, d, note) {
      OtherDayStays(after, t, events[t].remark, e, d, note);
      assert Remarked(after, t, events[t].remark) == events;
    }
  }

  /** No granted main-gate IN of the day comes before the window's first one. */
  ghost predicate NothingBefore(events: Events, i: nat, employee: string, date: string)
    requires i in events
  {
    forall j :: j in events && Candidate(events[j], employee, date, "IN") ==> !Precedes(events, j, i)
  }

  /** After a remark on a listed late arrival its note is the trimmed remark or the default
      exactly where no earlier IN of the day lies outside the window; otherwise the remark
      went to that earlier event and the listed note is as before. Nothing else changes. */
  lemma LateReadsBack(events: Events, departments: map<string, string>, listed: View, updating: View, w: Window,
                      isLate: int -> bool,
                      date: string, employee: string, remark: string, i: nat, t: nat)
    requires Unique(events) && Narrower(departments, listed, updating)
    requires ColonFree(date) && ColonFree(employee)
    requires LateListed(events, departments, listed, w, isLate, i, employee, date)
    requires IsTarget(events, departments, updating, Late(date, employee), t)
    ensures ParseId(PrintId(Late(date, employee))) == Some(Late(date, employee))
    ensures isLate(events[i].at) && w.since <= events[i].at <= w.until
    ensures t == i <==> NothingBefore(events, i, employee, date)
    ensures var after := Remarked(events, t, Strip(remark));
      && NoteOf(after[i]) == (if NothingBefore(events, i, employee, date) then Or(Strip(remark), PENDING)
                              else NoteOf(events[i]))
      && RowsStay(events, after, t)
      && (forall e, d, note :: OvertimeNote(after, e, d, note) <==> OvertimeNote(events, e, d, note))
      && (forall l, e, d, k ::
            LateListed(events, departments, l, w, isLate, k, e, d) && (e != employee || d != date) ==>
              NoteOf(after[k]) == NoteOf(events[k]))
  {
    IdsReadBack(Late(date, employee));
    var after := Remarked(events, t, Strip(remark));
    forall e, d, note ensures OvertimeNote(after, e, d, note) <==> OvertimeNote(events, e, d, note) {
      NoteStays(events, t, Strip(remark), e, d, note);
    }
  }

  /** A window of whole days sees the whole day of each late arrival it lists. */
  lemma WholeDaysReadBack(events: Events, w: Window, i: nat, employee: string, date: string)
    requires FirstWithin(events, w, i, employee, date)
    requires forall j :: j in events && events[j].date == date ==> Within(w, events[j])
    ensures NothingBefore(events, i, employee, date)
  {
  }

  /** After a remark on a listed denied event its note is the trimmed remark, or else the
      reason, or else the default; no other row changes, so no other denied note does. */
  lemma DeniedReadsBack(events: Events, departments: map<string, string>, listed: View, updating: View, w: Window,
                        i: nat, t: nat, remark: string)
    requires Unique(events) && Narrower(departments, listed, updating)
    requires DeniedListed(events, departments, listed, w, i) && events[i].requestId != ""
    requires IsTarget(events, departments, updating, Denied(events[i].requestId), t)
    ensures ParseId(PrintId(Denied(events[i].requestId))) == Some(Denied(events[i].requestId))
    ensures t == i
    ensures var after := Remarked(events, t, Strip(remark));
      && NoteOf(after[i]) == Or(Strip(remark), Or(events[i].reason, PENDING))
      && RowsStay(events, after, i)
      && (forall e, d, note :: OvertimeNote(after, e, d, note) <==> OvertimeNote(events, e, d, note))
      && (forall l, isLate, e, d, k :: LateListed(events, departments, l, w, isLate, k, e, d) ==>
        NoteOf(after[k]) == NoteOf(events[k]))
  {
    IdsReadBack(Denied(events[i].requestId));
    var after := Remarked(events, t, Strip(remark));
    forall e, d, note ensures OvertimeNote(after, e, d, note) <==> OvertimeNote(events, e, d, note) {
      NoteStays(events, t, Strip(remark), e, d, note);
    }
  }

  /** Row i comes ahead of row j, from the front or from the back. */
  predicate Ahead(events: Events, i: nat, j: nat, front: bool)
    requires i in events && j in events
  {
    if front then Precedes(events, i, j) else Precedes(events, j, i)
  }

  lemma {:induction false} SomethingIsAhead(events: Events, keys: set<nat>, employee: string, date: string,
                                            direction: string, front: bool) returns (i: nat)
    requires keys <= events.Keys
    requires exists k :: k in keys && Candidate(events[k], employee, date, direction)
    ensures i in keys && Candidate(events[i], employee, date, direction)
    ensures forall j :: j in keys && Candidate(events[j], employee, date, direction) ==> !Ahead(events, j, i, front)
    decreases keys
  {
    var k :| k in keys && Candidate(events[k], employee, date, direction);
    if exists j :: j in keys - {k} && Candidate(events[j], employee, date, direction) {
      var m := SomethingIsAhead(events, keys - {k}, employee, date, direction, front);
      i := if Ahead(events, k, m, front) then k else m;
    } else {
      i := k;
    }
  }

  /** A listed overtime day or late arrival always has a target: its update is not refused. */
  lemma ListedHasTarget(events: Events, departments: map<string, string>, listed: View, updating: View, w: Window,
                        threshold: nat, isLate: int -> bool,
                        date: string, employee: string)
    requires Narrower(departments, listed, updating)
    ensures OvertimeListed(events, departments, listed, w, threshold, employee, date) ==>
              exists t :: IsTarget(events, departments, updating, Overtime(date, employee), t)
    ensures forall i :: LateListed(events, departments, listed, w, isLate, i, employee, date) ==>
              exists t :: IsTarget(events, departments, updating, Late(date, employee), t)
  {
    if OvertimeListed(events, departments, listed, w, threshold, employee, date) {
      var t := SomethingIsAhead(events, events.Keys, employee, date, "OUT", false);
      assert LastOn(events, t, employee, date, "OUT");
      assert IsTarget(events, departments, updating, Overtime(date, employee), t);
    }
    if i :| LateListed(events, departments, listed, w, isLate, i, employee, date) {
      var t := SomethingIsAhead(events, events.Keys, employee, date, "IN", true);
      assert FirstOn(events, t, employee, date, "IN");
      assert IsTarget(events, departments, updating, Late(date, employee), t);
    }
  }

  /** A remark on an unpaired day goes to a row of another list, and the day itself stays
      listed with its fixed note whatever was written. With the IN missing, the row is always
      the one whose remark is the day's overtime note; with the OUT missing, it is the row of
      the late list exactly where the day has a single IN. */
  lemma UnpairedWritesElsewhere(events: Events, departments: map<string, string>, view: View, w: Window,
                                date: string, employee: string,
                                missing: string, remark: string, t: nat)
    requires Unique(events) && (missing == "IN" || missing == "OUT")
    requires IsTarget(events, departments, view, Unpaired(date, employee, missing), t)
    ensures var after := Remarked(events, t, remark);
      UnpairedListed(after, departments, view, w, employee, date, missing) <==>
        UnpairedListed(events, departments, view, w, employee, date, missing)
    ensures UnpairedNote(missing) == if missing == "IN" then "缺少進場刷卡" else "缺少離場刷卡"
    ensures Or(remark, PENDING) == UnpairedNote(missing) <==> remark == UnpairedNote(missing)
    ensures missing == "IN" ==>
      && IsTarget(events, departments, view, Overtime(date, employee), t)
      && OvertimeNote(Remarked(events, t, remark), employee, date, Or(remark, PENDING))
    ensures missing == "OUT" ==>
      (IsTarget(events, departments, view, Late(date, employee), t) <==>
         forall j :: j in events && Candidate(events[j], employee, date, "IN") ==> j == t)
  {
    ListsStay(events, departments, view, w, 0, (x: int) => false, t, remark);
    if missing == "IN" {
      assert LastOn(Remarked(events, t, remark), t, employee, date, "OUT");
    }
  }
}
