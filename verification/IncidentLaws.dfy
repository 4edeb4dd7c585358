/** The timeline is a full record of each incident, and keys are distinct. */
module IncidentLaws {
  import opened Wrappers
  import opened IncidentModel

  /** What the timeline alone says of an incident. */
  datatype View = View(known: bool, status: Status, assignee: Option<string>, resolved: bool, closed: bool)

  const UNKNOWN := View(false, New, None, false, false)

  function Seen(view: View, event: Event): View {
    match event
    case Created(status) => View(true, status, None, false, false)
    case AssignedTo(user) => view.(status := Assigned, assignee := Some(user))
    case StatusChanged(status) =>
      view.(status := status, resolved := view.resolved || status == Resolved,
            closed := view.closed || status == Closed)
    case CommentAdded(_) => view
  }

  function Replay(timeline: seq<Entry>, id: string): View {
    if timeline == [] then UNKNOWN else
      var last, before := timeline[|timeline| - 1], Replay(timeline[..|timeline| - 1], id);
      if last.incident == id then Seen(before, last.event) else before
  }

  ghost function ViewOf(db: Database, id: string): View {
    if id !in db.rows then UNKNOWN
    else View(true, db.rows[id].status, db.rows[id].assignee, db.rows[id].resolvedAt.Some?, db.rows[id].closedAt.Some?)
  }

  lemma ReplayAppend(timeline: seq<Entry>, entry: Entry, id: string)
    ensures Replay(timeline + [entry], id) ==
            if entry.incident == id then Seen(Replay(timeline, id), entry.event) else Replay(timeline, id)
  {
    assert (timeline + [entry])[..|timeline|] == timeline;
  }

  lemma CreateKeepsReplay(db: Database, op: Operation, id: string)
    requires op.Create? && Replay(db.timeline, id) == ViewOf(db, id)
    ensures Replay(Apply(db, op).timeline, id) == ViewOf(Apply(db, op), id)
  {
    var created := Entry(op.id, op.tenant, op.createdBy, Created(New));
    ReplayAppend(db.timeline, created, id);
    if op.assignee.Some? {
      ReplayAppend(db.timeline + [created], Entry(op.id, op.tenant, op.createdBy, AssignedTo(op.assignee.value)), id);
    }
  }

  lemma AssignKeepsReplay(db: Database, op: Operation, id: string)
    requires op.Assign? && Replay(db.timeline, id) == ViewOf(db, id)
    ensures Replay(Apply(db, op).timeline, id) == ViewOf(Apply(db, op), id)
  {
    ReplayAppend(db.timeline, Entry(op.id, op.tenant, op.actor, AssignedTo(op.user)), id);
  }

  lemma StatusKeepsReplay(db: Database, op: Operation, id: string)
    requires op.UpdateStatus? && Replay(db.timeline, id) == ViewOf(db, id)
    ensures Replay(Apply(db, op).timeline, id) == ViewOf(Apply(db, op), id)
  {
    ReplayAppend(db.timeline, Entry(op.id, op.tenant, op.actor, StatusChanged(op.status)), id);
  }

  lemma ApplyKeepsReplay(db: Database, op: Operation, id: string)
    requires Replay(db.timeline, id) == ViewOf(db, id)
    ensures Replay(Apply(db, op).timeline, id) == ViewOf(Apply(db, op), id)
  {
    match op
    case Create(_, _, _, _, _, _) =>
      CreateKeepsReplay(db, op, id);
    case Assign(_, _, _, _) =>
      AssignKeepsReplay(db, op, id);
    case UpdateStatus(_, _, _, _, _) =>
      StatusKeepsReplay(db, op, id);
    case AddComment(own, tenant, user, _, isInternal) =>
      ReplayAppend(db.timeline, Entry(own, tenant, user, CommentAdded(isInternal)), id);
  }

  /**
   After any run of operations, replaying the timeline from nothing gives each incident's
   status and assignee, and whether it has ever been resolved and closed.
   */
  lemma {:induction false} TimelineReplays(ops: seq<Operation>, id: string)
    ensures Replay(Run(EMPTY, ops).timeline, id) == ViewOf(Run(EMPTY, ops), id)
  {
    if ops == [] {
    } else {
      TimelineReplays(ops[..|ops| - 1], id);
      ApplyKeepsReplay(Run(EMPTY, ops[..|ops| - 1]), ops[|ops| - 1], id);
    }
  }

  /** A replay says resolved, or closed, exactly if the timeline has such an entry; no incident is created twice. */
  ghost predicate HasStatus(timeline: seq<Entry>, id: string, status: Status) {
    exists e :: e in timeline && e.incident == id && e.event == StatusChanged(status)
  }

  ghost predicate CreatedOnce(timeline: seq<Entry>) {
    forall i, j | 0 <= i <= j < |timeline| && timeline[j].event.Created?
        && timeline[i].incident == timeline[j].incident :: i == j
  }

  lemma {:induction false} ReplayFindsStatus(timeline: seq<Entry>, id: string)
    requires CreatedOnce(timeline)
    ensures Replay(timeline, id).resolved <==> HasStatus(timeline, id, Resolved)
    ensures Replay(timeline, id).closed <==> HasStatus(timeline, id, Closed)
  {
    if timeline == [] {
    } else {
      var n := |timeline| - 1;
      var before, last := timeline[..n], timeline[n];
      ReplayFindsStatus(before, id);
      assert timeline == before + [last];
      if last.incident == id && last.event.Created? {
        forall e | e in before
          ensures e.incident != id
        {
          var i :| 0 <= i < n && timeline[i] == e;
        }
      }
      StatusAppend(before, last, id, Resolved);
      StatusAppend(before, last, id, Closed);
    }
  }

  lemma StatusAppend(timeline: seq<Entry>, entry: Entry, id: string, status: Status)
    ensures HasStatus(timeline + [entry], id, status) <==>
            HasStatus(timeline, id, status) || (entry.incident == id && entry.event == StatusChanged(status))
  {
    assert forall e :: e in timeline + [entry] <==> e in timeline || e == entry;
  }

  /** Entries belong to known incidents, so only the first entry of an incident creates it. */
  lemma {:induction false} TimelineIsWellFormed(ops: seq<Operation>)
    ensures CreatedOnce(Run(EMPTY, ops).timeline) && Known(Run(EMPTY, ops).timeline, Run(EMPTY, ops).rows)
  {
    if ops == [] {
    } else {
      var n := |ops| - 1;
      TimelineIsWellFormed(ops[..n]);
      ApplyKeepsWellFormed(Run(EMPTY, ops[..n]), ops[n]);
    }
  }

  /** Each entry belongs to an incident of its own tenant. */
  ghost predicate Known(timeline: seq<Entry>, rows: map<string, Incident>) {
    forall e | e in timeline :: e.incident in rows && rows[e.incident].tenant == e.tenant
  }

  lemma ApplyKeepsWellFormed(db: Database, op: Operation)
    requires CreatedOnce(db.timeline) && Known(db.timeline, db.rows)
    ensures CreatedOnce(Apply(db, op).timeline) && Known(Apply(db, op).timeline, Apply(db, op).rows)
  {
    var after := Apply(db, op);
    if after != db {
      KnownStays(db.timeline, db.rows, after.rows);
      var first := after.timeline[|db.timeline|];
      EntryAppended(db.timeline, after.rows, first);
      if |after.timeline| > |db.timeline| + 1 {
        EntryAppended(db.timeline + [first], after.rows, after.timeline[|db.timeline| + 1]);
      }
    }
  }

  lemma KnownStays(timeline: seq<Entry>, rows: map<string, Incident>, next: map<string, Incident>)
    requires Known(timeline, rows) && forall id | id in rows :: id in next && next[id].tenant == rows[id].tenant
    ensures Known(timeline, next)
  {
  }

  lemma EntryAppended(timeline: seq<Entry>, rows: map<string, Incident>, entry: Entry)
    requires CreatedOnce(timeline) && Known(timeline, rows)
    requires entry.incident in rows && rows[entry.incident].tenant == entry.tenant
    requires entry.event.Created? ==> forall e | e in timeline :: e.incident != entry.incident
    ensures CreatedOnce(timeline + [entry]) && Known(timeline + [entry], rows)
  {
    assert forall i | 0 <= i < |timeline| :: timeline[i] in timeline;
  }

  /**
   After any run, `resolvedAt` is set exactly if a status change to resolved is on the
   timeline, and `closedAt` likewise.
   */
  lemma TimestampsMatchTimeline(ops: seq<Operation>, id: string)
    requires id in Run(EMPTY, ops).rows
    ensures var db := Run(EMPTY, ops);
            && (db.rows[id].resolvedAt.Some? <==> HasStatus(db.timeline, id, Resolved))
            && (db.rows[id].closedAt.Some? <==> HasStatus(db.timeline, id, Closed))
  {
    TimelineReplays(ops, id);
    TimelineIsWellFormed(ops);
    ReplayFindsStatus(Run(EMPTY, ops).timeline, id);
  }

  /** An operation under another tenant than the incident's changes nothing at all. */
  lemma WrongTenantChangesNothing(db: Database, op: Operation)
    requires !op.Create? && op.id in db.rows && db.rows[op.id].tenant != op.tenant
    ensures Apply(db, op) == db
  {
  }

  /* Keys */

  /** The numbers of a tenant's incidents are distinct and run from 1 to their count. */
  ghost predicate Numbered(rows: map<string, Incident>) {
    && (forall id | id in rows :: 1 <= rows[id].key.number <= |OfTenant(rows, rows[id].tenant)|)
    && (forall a, b | a in rows && b in rows && a != b && rows[a].tenant == rows[b].tenant ::
      rows[a].key.number != rows[b].key.number)
  }

  lemma SameTenants(rows: map<string, Incident>, id: string, row: Incident)
    requires id in rows && row.tenant == rows[id].tenant && row.key == rows[id].key && Numbered(rows)
    ensures Numbered(rows[id := row])
  {
    var after := rows[id := row];
    assert forall x | x in rows :: after[x].tenant == rows[x].tenant && after[x].key == rows[x].key;
    forall tenant
      ensures OfTenant(after, tenant) == OfTenant(rows, tenant)
    {
    }
  }

  lemma CountAfterCreate(rows: map<string, Incident>, id: string, row: Incident, tenant: string)
    requires id !in rows
    ensures |OfTenant(rows[id := row], tenant)| == |OfTenant(rows, tenant)| + if tenant == row.tenant then 1 else 0
  {
    assert OfTenant(rows[id := row], tenant) == OfTenant(rows, tenant) + if tenant == row.tenant then {id} else {};
  }

  lemma CreateKeepsNumbered(rows: map<string, Incident>, id: string, row: Incident)
    requires id !in rows && Numbered(rows) && row.key.number == |OfTenant(rows, row.tenant)| + 1
    ensures Numbered(rows[id := row])
  {
    var after := rows[id := row];
    forall x | x in after
      ensures 1 <= after[x].key.number <= |OfTenant(after, after[x].tenant)|
    {
      CountAfterCreate(rows, id, row, after[x].tenant);
    }
    forall x | x in rows && rows[x].tenant == row.tenant
      ensures rows[x].key.number != row.key.number
    {
    }
  }

  lemma {:induction false} NumbersAreDistinct(ops: seq<Operation>)
    ensures Numbered(Run(EMPTY, ops).rows)
  {
    if ops == [] {
    } else {
      NumbersAreDistinct(ops[..|ops| - 1]);
      var db, op := Run(EMPTY, ops[..|ops| - 1]), ops[|ops| - 1];
      var after := Apply(db, op);
      if after.rows != db.rows {
        match op
        case Create(id, _, _, _, _, _) => CreateKeepsNumbered(db.rows, id, NewIncident(db, op));
        case Assign(id, _, _, _) => SameTenants(db.rows, id, after.rows[id]);
        case UpdateStatus(id, _, _, _, _) => SameTenants(db.rows, id, after.rows[id]);
        case AddComment(_, _, _, _, _) =>
      }
    }
  }

  /**
   A new key never collides with one of the tenant's own, but it does collide, and the
   creation fails, exactly when another tenant has used the same number on the same day.
   */
  lemma KeysCollideAcrossTenants(ops: seq<Operation>, tenant: string, day: string)
    ensures var rows := Run(EMPTY, ops).rows;
            KeyTaken(rows, NextKey(rows, tenant, day)) <==>
            exists id :: id in rows && rows[id].tenant != tenant
                         && rows[id].key == Key(day, |OfTenant(rows, tenant)| + 1)
  {
    NumbersAreDistinct(ops);
  }

  /** The first incidents of two tenants on one day: the second cannot be created. */
  lemma SecondTenantIsBlocked(first: Operation, second: Operation)
    requires first.Create? && second.Create? && first.id != second.id
    requires first.tenant != second.tenant && first.day == second.day
    ensures var db := Run(EMPTY, [first]); first.id in db.rows && Run(EMPTY, [first, second]) == db
  {
    assert [first][..0] == [] && [first, second][..1] == [first];
    assert Run(EMPTY, []) == EMPTY;
    var db := Run(EMPTY, [first]);
    assert OfTenant(EMPTY.rows, first.tenant) == {};
    assert db == Apply(EMPTY, first);
    assert OfTenant(db.rows, second.tenant) == {};
    assert db.rows[first.id].key == NextKey(db.rows, second.tenant, second.day);
  }

  /* What takes effect stays, until the next operation of its kind */

  /** The operation may set the status of the incident. */
  ghost predicate SetsStatus(op: Operation, id: string) {
    (op.Assign? || op.UpdateStatus?) && op.id == id
  }

  lemma {:induction false} RowsStay(ops: seq<Operation>, k: nat, id: string)
    requires k <= |ops| && id in Run(EMPTY, ops[..k]).rows
    requires forall l | k <= l < |ops| :: !SetsStatus(ops[l], id)
    ensures id in Run(EMPTY, ops).rows
    ensures Run(EMPTY, ops).rows[id] == Run(EMPTY, ops[..k]).rows[id]
  {
    if k == |ops| {
      assert ops[..k] == ops;
    } else {
      var n := |ops| - 1;
      assert ops[..n][..k] == ops[..k];
      RowsStay(ops[..n], k, id);
      assert !SetsStatus(ops[n], id);
    }
  }

  /**
   In every run, a status change under the incident's own tenant decides its status until
   the next operation that can set it; and so does an assignment its assignee.
   */
  lemma LastChangeWins(ops: seq<Operation>, k: nat, id: string)
    requires k < |ops| && SetsStatus(ops[k], id)
    requires id in Run(EMPTY, ops[..k]).rows && Run(EMPTY, ops[..k]).rows[id].tenant == ops[k].tenant
    requires forall l | k < l < |ops| :: !SetsStatus(ops[l], id)
    ensures id in Run(EMPTY, ops).rows
    ensures var row := Run(EMPTY, ops).rows[id];
            if ops[k].UpdateStatus? then row.status == ops[k].status
            else row.status == Assigned && row.assignee == Some(ops[k].user)
  {
    assert ops[..k + 1][..k] == ops[..k];
    RowsStay(ops, k + 1, id);
  }

  /** In every run, a comment under the incident's own tenant is kept, and so is its entry on the timeline. */
  lemma {:induction false} CommentsAreKept(ops: seq<Operation>, k: nat)
    requires k < |ops| && ops[k].AddComment?
    requires ops[k].id in Run(EMPTY, ops[..k]).rows && Run(EMPTY, ops[..k]).rows[ops[k].id].tenant == ops[k].tenant
    ensures var AddComment(id, tenant, user, text, isInternal) := ops[k];
            && Comment(id, tenant, user, text, isInternal) in Run(EMPTY, ops).comments
            && Entry(id, tenant, user, CommentAdded(isInternal)) in Run(EMPTY, ops).timeline
  {
    var n := |ops| - 1;
    if k == n {
    } else {
      assert ops[..n][..k] == ops[..k];
      CommentsAreKept(ops[..n], k);
    }
  }
}
