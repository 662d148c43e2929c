/** Access events, the buffered stream they are appended to once, and the reporting
    database they are saved into once. */
module Events {
  import opened Text
  import opened AntiPassback

  datatype AccessEvent = AccessEvent(
    requestId: string,
    employeeId: string,
    gateId: string,
    direction: string,
    decision: string,
    reason: string,
    previousState: string,
    currentState: string,
    latencyMs: nat,
    timestamp: nat)

  /** The event the swipe handler builds from a decision. */
  function MakeEvent(employee: string, gate: string, direction: string, d: Decision,
                     nanos: nat, latencyMs: nat, now: nat): AccessEvent {
    AccessEvent(NewRequestId(employee, nanos), employee, gate, direction,
                if d.granted then "GRANTED" else "DENIED", d.reason,
                d.previousState, d.currentState, latencyMs, now)
  }

  /** What a consumer finds in a stream entry or a Kafka message: an event with all
      required fields, or something it cannot parse (with the request id, if any). */
  datatype Message = Valid(event: AccessEvent) | Malformed(requestId: string)

  function IdOf(m: Message): string {
    match m case Valid(e) => e.requestId case Malformed(id) => id
  }

  /** A text column holds so many characters, and no U+0000. */
  predicate ColumnHolds(text: string, width: nat) { |text| <= width && '\0' !in text }

  /** What the columns of the reporting database hold; anything else makes every save of the
      event raise. */
  predicate Fits(e: AccessEvent) {
    && ColumnHolds(e.requestId, 128) && ColumnHolds(e.employeeId, 64) && ColumnHolds(e.gateId, 64)
    && e.latencyMs < 0x8000_0000
  }

  /** What does not fit: an id too long or with U+0000 in it, or a latency of 32 bits. */
  lemma UnfitExactly(e: AccessEvent)
    ensures !Fits(e) <==>
      || |e.requestId| > 128 || |e.employeeId| > 64 || |e.gateId| > 64 || e.latencyMs > 2147483647
      || '\0' in e.requestId || '\0' in e.employeeId || '\0' in e.gateId
  {
  }

  // ----- the event stream behind the dedupe keys -----

  datatype Buffer = Buffer(dedupe: set<string>, stream: seq<Message>)

  /** `appendEventOnceScript`: SET NX on the dedupe key, then XADD. */
  function AppendOnce(b: Buffer, e: AccessEvent): Buffer {
    if e.requestId in b.dedupe then b
    else Buffer(b.dedupe + {e.requestId}, b.stream + [Valid(e)])
  }

  function AppendAll(b: Buffer, events: seq<AccessEvent>): Buffer {
    if events == [] then b
    else AppendOnce(AppendAll(b, events[..|events| - 1]), events[|events| - 1])
  }

  function StreamIds(stream: seq<Message>): set<string> {
    set m | m in stream && m.Valid? :: m.event.requestId
  }

  ghost predicate AtMostOnce(stream: seq<Message>) {
    forall i, j :: 0 <= i < j < |stream| && stream[i].Valid? && stream[j].Valid? ==>
      stream[i].event.requestId != stream[j].event.requestId
  }

  /** No dedupe key has expired: the keys are exactly the ids in the stream. */
  ghost predicate KeysLive(b: Buffer) {
    b.dedupe == StreamIds(b.stream)
  }

  lemma AppendOnceKeeps(b: Buffer, e: AccessEvent)
    requires KeysLive(b) && AtMostOnce(b.stream)
    ensures var b' := AppendOnce(b, e);
      && KeysLive(b') && AtMostOnce(b'.stream) && b.stream <= b'.stream
      && b'.dedupe == b.dedupe + {e.requestId}
  {
    var t := b.stream + [Valid(e)];
    assert StreamIds(t) == StreamIds(b.stream) + {e.requestId} by {
      assert t[|b.stream|] == Valid(e);
      assert forall m :: m in t <==> m in b.stream || m == Valid(e);
    }
    forall i | 0 <= i < |b.stream| && b.stream[i].Valid?
      ensures b.stream[i].event.requestId in StreamIds(b.stream)
    {
      assert b.stream[i] in b.stream;
    }
  }

  function Ids(events: seq<AccessEvent>): set<string> {
    set e | e in events :: e.requestId
  }

  /** A batch appended with live dedupe keys: every id of the batch ends up exactly
      once in the stream, nothing that was there moves, nothing else is added. */
  lemma {:induction false} AppendAllOnce(b: Buffer, events: seq<AccessEvent>)
    requires KeysLive(b) && AtMostOnce(b.stream)
    ensures var b' := AppendAll(b, events);
      && KeysLive(b') && AtMostOnce(b'.stream) && b.stream <= b'.stream
      && StreamIds(b'.stream) == StreamIds(b.stream) + Ids(events)
  {
    hide AppendOnce, AtMostOnce, KeysLive;
    if events == [] {
      assert Ids(events) == {};
    } else {
      var front, e := events[..|events| - 1], events[|events| - 1];
      AppendAllOnce(b, front);
      AppendOnceKeeps(AppendAll(b, front), e);
      IdsNext(front, e);
      assert events == front + [e];
      LiveKeys(AppendAll(b, front));
      LiveKeys(AppendAll(b, events));
    }
  }

  lemma IdsNext(front: seq<AccessEvent>, e: AccessEvent)
    ensures Ids(front + [e]) == Ids(front) + {e.requestId}
  {
  }

  lemma LiveKeys(b: Buffer)
    requires KeysLive(b)
    ensures b.dedupe == StreamIds(b.stream)
  {
  }

  /** Going over ids that are already keyed changes nothing: redoing a batch from the
      start after its first k events went in is the same as carrying on. */
  lemma {:induction false} RedoPrefix(b: Buffer, events: seq<AccessEvent>, k: nat, j: nat)
    requires j < k <= |events|
    ensures AppendOnce(AppendAll(b, events[..k]), events[j]) == AppendAll(b, events[..k])
    ensures events[j].requestId in AppendAll(b, events[..k]).dedupe
  {
    var front := events[..k];
    assert front[..k - 1] == events[..k - 1];
    if j < k - 1 { RedoPrefix(b, events, k - 1, j); }
  }

  lemma {:induction false} RedoUpTo(b: Buffer, events: seq<AccessEvent>, k: nat, j: nat)
    requires k <= |events| && j <= |events|
    ensures AppendAll(AppendAll(b, events[..k]), events[..j]) == AppendAll(b, events[..if k < j then j else k])
  {
    if j > 0 {
      RedoUpTo(b, events, k, j - 1);
      assert events[..j][..j - 1] == events[..j - 1];
      if j <= k { RedoPrefix(b, events, k, j - 1); }
    }
  }

  /** An attempt that got as far as the first k events, then the whole batch again: the
      same as the batch once. So it is for any number of attempts. */
  lemma RedoBatch(b: Buffer, events: seq<AccessEvent>, k: nat)
    requires k <= |events|
    ensures AppendAll(AppendAll(b, events[..k]), events) == AppendAll(b, events)
  {
    RedoUpTo(b, events, k, |events|);
    assert events[..|events|] == events;
  }

  // ----- the reporting database -----

  datatype Employee = Employee(departmentId: string, lastKnownState: string, lastSeenAt: Option<nat>)

  datatype Database = Database(
    events: seq<AccessEvent>,
    employees: map<string, Employee>,
    departments: set<string>)

  function RowIds(db: Database): set<string> {
    set e | e in db.events :: e.requestId
  }

  /** What a save reads before it writes: the employee, and whether the default department
      is there. The reads may be taken as one, since the commit checks the keys again. */
  datatype Loaded = Loaded(employee: Option<Employee>, unassigned: bool)

  function Load(db: Database, e: AccessEvent): Loaded {
    Loaded(if e.employeeId in db.employees then Some(db.employees[e.employeeId]) else None,
           "UNASSIGNED" in db.departments)
  }

  /** The commit inserts an employee, or the default department, that someone else has
      inserted since the read: the primary key refuses it. */
  predicate KeyTaken(db: Database, e: AccessEvent, l: Loaded) {
    match l.employee
    case None => e.employeeId in db.employees || (!l.unassigned && "UNASSIGNED" in db.departments)
    case Some(_) => e.employeeId !in db.employees
  }

  /** Of an employee that was read only the columns are written that differ from what was
      read; the others keep what is there by now. */
  function NetChange(now: Employee, read: Employee, e: AccessEvent): Employee {
    now.(lastKnownState := if e.currentState != read.lastKnownState then e.currentState else now.lastKnownState,
         lastSeenAt := if Some(e.timestamp) != read.lastSeenAt then Some(e.timestamp) else now.lastSeenAt)
  }

  /** The commit of a save that read `l`. */
  function Inserted(db: Database, e: AccessEvent, l: Loaded): Database {
    match l.employee
    case None =>
      Database(db.events + [e],
               db.employees[e.employeeId := Employee("UNASSIGNED", e.currentState, Some(e.timestamp))],
               db.departments + {"UNASSIGNED"})
    case Some(read) =>
      if e.employeeId !in db.employees then db.(events := db.events + [e])
      else db.(events := db.events + [e],
               employees := db.employees[e.employeeId := NetChange(db.employees[e.employeeId], read, e)])
  }

  /** The last inserted row of the employee, if there is one. */
  function LastInserted(events: seq<AccessEvent>, employee: string): Option<AccessEvent> {
    if events == [] then None
    else if events[|events| - 1].employeeId == employee then Some(events[|events| - 1])
    else LastInserted(events[..|events| - 1], employee)
  }

  ghost predicate UniqueRows(events: seq<AccessEvent>) {
    forall i, j :: 0 <= i < j < |events| ==> events[i].requestId != events[j].requestId
  }

  /** Employees with rows are there, in the department they were seeded in; employees
      without rows are exactly as the database was seeded. */
  ghost predicate EmployeesFollowRows(db: Database, seed: map<string, Employee>) {
    forall employee :: EmployeeFollows(db, seed, employee)
  }

  ghost predicate EmployeeFollows(db: Database, seed: map<string, Employee>, employee: string) {
    match LastInserted(db.events, employee)
    case Some(e) =>
      && employee in db.employees
      && (employee in seed ==> db.employees[employee].departmentId == seed[employee].departmentId)
    case None =>
      && (employee in db.employees <==> employee in seed)
      && (employee in seed ==> db.employees[employee] == seed[employee])
  }

  lemma LastAfter(db: Database, e: AccessEvent, l: Loaded, employee: string)
    ensures LastInserted(Inserted(db, e, l).events, employee) ==
            if employee == e.employeeId then Some(e) else LastInserted(db.events, employee)
  {
    assert Inserted(db, e, l).events[..|db.events|] == db.events;
  }

  lemma IdsAfter(db: Database, e: AccessEvent, l: Loaded)
    requires UniqueRows(db.events) && e.requestId !in RowIds(db)
    ensures UniqueRows(Inserted(db, e, l).events)
    ensures RowIds(Inserted(db, e, l)) == RowIds(db) + {e.requestId}
  {
    var more := db.events + [e];
    assert forall x :: x in more <==> x in db.events || x == e;
    forall i | 0 <= i < |db.events| ensures db.events[i].requestId in RowIds(db) { assert db.events[i] in db.events; }
  }

  lemma EmployeeAfter(db: Database, seed: map<string, Employee>, e: AccessEvent, l: Loaded, employee: string)
    requires EmployeeFollows(db, seed, employee) && EmployeeFollows(db, seed, e.employeeId) && !KeyTaken(db, e, l)
    ensures EmployeeFollows(Inserted(db, e, l), seed, employee)
  {
    LastAfter(db, e, l, employee);
    hide LastInserted;
  }

  /** A commit that no key refuses keeps request ids unique and the employees in place. */
  lemma InsertKeeps(db: Database, seed: map<string, Employee>, e: AccessEvent, l: Loaded)
    requires UniqueRows(db.events) && EmployeesFollowRows(db, seed)
    requires e.requestId !in RowIds(db) && !KeyTaken(db, e, l)
    ensures UniqueRows(Inserted(db, e, l).events) && EmployeesFollowRows(Inserted(db, e, l), seed)
    ensures RowIds(Inserted(db, e, l)) == RowIds(db) + {e.requestId}
  {
    hide Inserted, UniqueRows, RowIds, EmployeeFollows, KeyTaken;
    IdsAfter(db, e, l);
    forall employee ensures EmployeeFollows(Inserted(db, e, l), seed, employee) {
      EmployeeAfter(db, seed, e, l, employee);
    }
  }

  // ----- the last known state -----

  /** The save changes nothing of the state it read, but someone else has since. */
  predicate StaleState(db: Database, e: AccessEvent, l: Loaded) {
    && l.employee.Some? && e.employeeId in db.employees
    && e.currentState == l.employee.value.lastKnownState != db.employees[e.employeeId].lastKnownState
  }

  predicate StaleSeen(db: Database, e: AccessEvent, l: Loaded) {
    && l.employee.Some? && e.employeeId in db.employees
    && Some(e.timestamp) == l.employee.value.lastSeenAt != db.employees[e.employeeId].lastSeenAt
  }

  /** A save adds the event as the last row. It leaves the employee with the event's state,
      and the time of it, if and only if it is not stale; a stale one leaves what is there. A
      new employee is put into the default department, which is there from then on; nobody
      else's department, and no other employee, changes. */
  lemma SaveSetsState(db: Database, e: AccessEvent, l: Loaded)
    requires !KeyTaken(db, e, l)
    ensures var now := Inserted(db, e, l).employees;
      && Inserted(db, e, l).events == db.events + [e] && e.employeeId in now
      && (l.employee.None? ==> now[e.employeeId].departmentId == "UNASSIGNED")
      && (l.employee.Some? ==> now[e.employeeId].departmentId == db.employees[e.employeeId].departmentId)
      && Inserted(db, e, l).departments == db.departments + (if l.employee.None? then {"UNASSIGNED"} else {})
      && (now[e.employeeId].lastKnownState == e.currentState <==> !StaleState(db, e, l))
      && (now[e.employeeId].lastSeenAt == Some(e.timestamp) <==> !StaleSeen(db, e, l))
      && (StaleState(db, e, l) ==> now[e.employeeId].lastKnownState == db.employees[e.employeeId].lastKnownState)
      && (forall other :: other != e.employeeId ==> (other in now <==> other in db.employees))
      && (forall other :: other != e.employeeId && other in now ==> now[other] == db.employees[other])
  {
  }

  /** Between two states of the database someone else has inserted the employee, or the
      default department for one, that was missing in the first. */
  predicate Overtaken(before: Database, after: Database, e: AccessEvent) {
    && e.employeeId !in before.employees
    && (e.employeeId in after.employees || ("UNASSIGNED" !in before.departments && "UNASSIGNED" in after.departments))
  }
}
