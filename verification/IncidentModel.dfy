/**
 Incidents and their timeline (backend/app/services/incident_service.py, with the row
 definition of backend/app/infrastructure/database/models.py).
 */
module IncidentModel {
  import opened Wrappers

  datatype Status = New | Assigned | Investigating | Contained | Resolved | Closed

  /** `INC-<day>-<number>`: a key is fixed by the two parts it is printed from. */
  datatype Key = Key(day: string, number: nat)

  datatype Incident = Incident(
    key: Key, tenant: string, status: Status, owner: string, assignee: Option<string>,
    resolvedAt: Option<int>, closedAt: Option<int>)

  datatype Event =
    | Created(status: Status)
    | AssignedTo(user: string)
    | StatusChanged(status: Status)
    | CommentAdded(isInternal: bool)

  datatype Entry = Entry(incident: string, tenant: string, actor: string, event: Event)

  datatype Comment = Comment(incident: string, tenant: string, user: string, text: string, isInternal: bool)

  datatype Database = Database(rows: map<string, Incident>, timeline: seq<Entry>, comments: seq<Comment>)

  datatype Operation =
    | Create(id: string, tenant: string, day: string, createdBy: string, owner: Option<string>,
             assignee: Option<string>)
    | Assign(id: string, tenant: string, user: string, actor: string)
    | UpdateStatus(id: string, tenant: string, status: Status, actor: string, now: int)
    | AddComment(id: string, tenant: string, user: string, text: string, isInternal: bool)

  function OfTenant(rows: map<string, Incident>, tenant: string): set<string> {
    set id | id in rows && rows[id].tenant == tenant
  }

  function NextKey(rows: map<string, Incident>, tenant: string, day: string): Key {
    Key(day, |OfTenant(rows, tenant)| + 1)
  }

  /** The key column is unique over the whole table, not per tenant. */
  predicate KeyTaken(rows: map<string, Incident>, key: Key) {
    exists id :: id in rows && rows[id].key == key
  }

  /** An operation finds its incident only under its own tenant. */
  predicate Visible(db: Database, id: string, tenant: string) {
    id in db.rows && db.rows[id].tenant == tenant
  }

  function NewIncident(db: Database, op: Operation): Incident
    requires op.Create?
  {
    Incident(NextKey(db.rows, op.tenant, op.day), op.tenant,
             if op.assignee.Some? then Assigned else New,
             if op.owner.Some? then op.owner.value else op.createdBy, op.assignee, None, None)
  }

  /** One operation; creating under a taken id or key fails, and so does whatever the tenant cannot see. */
  function Apply(db: Database, op: Operation): Database {
    match op
    case Create(id, tenant, day, createdBy, _, assignee) =>
      if id in db.rows || KeyTaken(db.rows, NextKey(db.rows, tenant, day)) then db else
        var created := db.timeline + [Entry(id, tenant, createdBy, Created(New))];
        db.(rows := db.rows[id := NewIncident(db, op)],
            timeline := if assignee.None? then created
                        else created + [Entry(id, tenant, createdBy, AssignedTo(assignee.value))])
    case Assign(id, tenant, user, actor) =>
      if !Visible(db, id, tenant) then db else
        db.(rows := db.rows[id := db.rows[id].(assignee := Some(user), status := Assigned)],
            timeline := db.timeline + [Entry(id, tenant, actor, AssignedTo(user))])
    case UpdateStatus(id, tenant, status, actor, now) =>
      if !Visible(db, id, tenant) then db else
        var row := db.rows[id].(status := status);
        var resolved := if status == Resolved then row.(resolvedAt := Some(now)) else row;
        var closed := if status == Closed then resolved.(closedAt := Some(now)) else resolved;
        db.(rows := db.rows[id := closed], timeline := db.timeline + [Entry(id, tenant, actor, StatusChanged(status))])
    case AddComment(id, tenant, user, text, isInternal) =>
      if !Visible(db, id, tenant) then db else
        db.(comments := db.comments + [Comment(id, tenant, user, text, isInternal)],
            timeline := db.timeline + [Entry(id, tenant, user, CommentAdded(isInternal))])
  }

  function Run(db: Database, ops: seq<Operation>): Database {
    if ops == [] then db else Apply(Run(db, ops[..|ops| - 1]), ops[|ops| - 1])
  }

  const EMPTY := Database(map[], [], [])

  datatype CreateError = DuplicateId | DuplicateKey

  class IncidentService {
    var rows: map<string, Incident>
    var timeline: seq<Entry>
    var comments: seq<Comment>

    ghost function State(): Database
      reads this
    {
      Database(rows, timeline, comments)
    }

    constructor ()
      ensures State() == EMPTY
    {
      rows, timeline, comments := map[], [], [];
    }

    method AddTimelineEntry(id: string, tenant: string, actor: string, event: Event)
      modifies this`timeline
      ensures timeline == old(timeline) + [Entry(id, tenant, actor, event)]
    {
      timeline := timeline + [Entry(id, tenant, actor, event)];
    }

    method CreateIncident(id: string, tenant: string, day: string, createdBy: string, owner: Option<string>,
                          assignee: Option<string>)
      returns (result: Result<Incident, CreateError>)
      modifies this
      ensures State() == Apply(old(State()), Create(id, tenant, day, createdBy, owner, assignee))
      ensures result.Err? <==> id in old(rows) || KeyTaken(old(rows), NextKey(old(rows), tenant, day))
      ensures result.Ok? ==> id in rows && result.value == rows[id]
      ensures result.Err? ==> State() == old(State())
      ensures result.Err? <==>
        || id in old(rows)
        || exists x :: x in old(rows) && old(rows)[x].key == Key(day, |OfTenant(old(rows), tenant)| + 1)
      ensures result.Ok? ==>
        && rows == old(rows)[id := result.value]
        && result.value.key == Key(day, |OfTenant(old(rows), tenant)| + 1) && result.value.tenant == tenant
        && result.value.status == (if assignee.Some? then Assigned else New) && result.value.assignee == assignee
        && result.value.owner == (if owner.Some? then owner.value else createdBy)
        && result.value.resolvedAt == None && result.value.closedAt == None
        && |timeline| == |old(timeline)| + (if assignee.Some? then 2 else 1) && old(timeline) <= timeline
        && timeline[|old(timeline)|] == Entry(id, tenant, createdBy, Created(New))
        && (assignee.Some? ==>
              timeline[|old(timeline)| + 1] == Entry(id, tenant, createdBy, AssignedTo(assignee.value)))
    {
      var key := NextKey(rows, tenant, day);
      if id in rows {
        return Err(DuplicateId);
      }
      if KeyTaken(rows, key) {
        return Err(DuplicateKey);
      }
      var incident := Incident(key, tenant, New, if owner.Some? then owner.value else createdBy, assignee, None, None);
      AddTimelineEntry(id, tenant, createdBy, Created(incident.status));
      if assignee.Some? {
        incident := incident.(status := Assigned);
        AddTimelineEntry(id, tenant, createdBy, AssignedTo(assignee.value));
      }
      rows := rows[id := incident];
      result := Ok(incident);
    }

    function GetIncident(id: string, tenant: string): Option<Incident>
      reads this
    {
      if id !in rows || rows[id].tenant != tenant then None else Some(rows[id])
    }

    method AssignIncident(id: string, tenant: string, user: string, actor: string) returns (result: Option<Incident>)
      modifies this
      ensures State() == Apply(old(State()), Assign(id, tenant, user, actor))
      ensures result.Some? <==> id in old(rows) && old(rows)[id].tenant == tenant
      ensures result.None? ==> State() == old(State())
      ensures result.Some? ==>
        && rows == old(rows)[id := old(rows)[id].(assignee := Some(user), status := Assigned)]
        && timeline == old(timeline) + [Entry(id, tenant, actor, AssignedTo(user))]
      ensures result == GetIncident(id, tenant)
    {
      var found := GetIncident(id, tenant);
      if found.None? {
        return None;
      }
      var incident := found.value.(assignee := Some(user), status := Assigned);
      rows := rows[id := incident];
      AddTimelineEntry(id, tenant, actor, AssignedTo(user));
      result := Some(incident);
    }

    method ChangeStatus(id: string, tenant: string, status: Status, actor: string, now: int)
        returns (result: Option<Incident>)
      modifies this
      ensures State() == Apply(old(State()), UpdateStatus(id, tenant, status, actor, now))
      ensures result.Some? <==> id in old(rows) && old(rows)[id].tenant == tenant
      ensures result.None? ==> State() == old(State())
      ensures result.Some? ==>
        var before := old(rows)[id];
        && rows == old(rows)[id := before.(status := status,
                                           resolvedAt := if status == Resolved then Some(now) else before.resolvedAt,
                                           closedAt := if status == Closed then Some(now) else before.closedAt)]
        && timeline == old(timeline) + [Entry(id, tenant, actor, StatusChanged(status))]
      ensures result == GetIncident(id, tenant)
    {
      var found := GetIncident(id, tenant);
      if found.None? {
        return None;
      }
      var incident := found.value.(status := status);
      if status == Resolved {
        incident := incident.(resolvedAt := Some(now));
      }
      if status == Closed {
        incident := incident.(closedAt := Some(now));
      }
      rows := rows[id := incident];
      AddTimelineEntry(id, tenant, actor, StatusChanged(status));
      result := Some(incident);
    }

    method CommentOn(id: string, tenant: string, user: string, text: string, isInternal: bool)
        returns (result: Option<Comment>)
      modifies this
      ensures State() == Apply(old(State()), AddComment(id, tenant, user, text, isInternal))
      ensures result.Some? <==> id in old(rows) && old(rows)[id].tenant == tenant
      ensures rows == old(rows) && (result.None? ==> State() == old(State()))
      ensures result.Some? ==>
        && comments == old(comments) + [Comment(id, tenant, user, text, isInternal)]
        && timeline == old(timeline) + [Entry(id, tenant, user, CommentAdded(isInternal))]
      ensures result.Some? ==> result.value == Comment(id, tenant, user, text, isInternal)
    {
      var found := GetIncident(id, tenant);
      if found.None? {
        return None;
      }
      var comment := Comment(id, tenant, user, text, isInternal);
      comments := comments + [comment];
      AddTimelineEntry(id, tenant, user, CommentAdded(isInternal));
      result := Some(comment);
    }
  }
}
