/** Sensitive actions waiting for the owner's approval, and the audit events each status change leaves. */
module PendingActions {
  import opened Common

  type ActionId = string

  datatype Status = Pending | Approved | Executing | Executed | Rejected | Expired

  datatype Action = Action(
    run: string, user: string, tool: string, status: Status, expiresAt: int, key: Option<string>)

  /** The pending_action.* event types. */
  datatype EventType =
    | CreatedEvent | IdempotencyHit
    | ApprovedEvent | RejectedEvent | ExpiredEvent | ExecutionStarted | ExecutedEvent

  datatype Event = Event(action: ActionId, eventType: EventType)

  datatype Db = Db(actions: map<ActionId, Action>, audit: seq<Event>)

  /** What a call reports: a status name and, for approve and claim, whether execution may go on. */
  datatype Outcome = Outcome(status: StatusName, shouldExecute: bool)

  datatype StatusName = NotFound | Forbidden | Unsupported | Is(status: Status)

  datatype CreateReply = Created(id: ActionId, action: Action) | Refused | TypeError

  const LIFETIME := 900
  const TEST_TOOL := "test_sensitive_action"

  function SetStatus(db: Db, id: ActionId, status: Status, eventType: EventType): Db
    requires id in db.actions
  {
    Db(db.actions[id := db.actions[id].(status := status)], db.audit + [Event(id, eventType)])
  }

  predicate HasKey(db: Db, run: string, key: string, id: ActionId) {
    id in db.actions && db.actions[id].run == run && db.actions[id].key == Some(key)
  }

  /** The unique index on (run_id, idempotency_key). */
  ghost predicate KeysUnique(db: Db) {
    forall i, j :: i in db.actions && j in db.actions && i != j && db.actions[i].key.Some? ==>
      !HasKey(db, db.actions[i].run, db.actions[i].key.value, j)
  }

  /** The row the unique index finds for a creation, if any. */
  ghost function Holder(db: Db, run: string, key: Option<string>): Option<ActionId> {
    if key.Some? && exists id :: HasKey(db, run, key.value, id) then
      var id :| HasKey(db, run, key.value, id);
      Some(id)
    else None
  }

  /** create_pending_action: the insert does nothing on a key conflict and fails on a primary-key
      conflict; a row found under a non-empty key, even the one just inserted, is reported as an
      idempotency hit; and an empty key that conflicts commits a created event for a row that does not
      exist before the call fails. */
  ghost function Create(db: Db, now: int, id: ActionId, run: string, user: string, tool: string,
                        key: Option<string>): (Db, CreateReply)
  {
    var holder := Holder(db, run, key);
    if holder.None? && id in db.actions then (db, Refused)
    else
      var row := Action(run, user, tool, Pending, now + LIFETIME, key);
      var actions := if holder.None? then db.actions[id := row] else db.actions;
      if key.Some? && key.value != "" then
        var found := if holder.Some? then holder.value else id;
        (Db(actions, db.audit + [Event(found, IdempotencyHit)]), Created(found, actions[found]))
      else
        (Db(actions, db.audit + [Event(id, CreatedEvent)]),
         if id in actions then Created(id, actions[id]) else TypeError)
  }

  lemma HolderIsUnique(db: Db, run: string, key: string, id: ActionId)
    requires KeysUnique(db) && HasKey(db, run, key, id)
    ensures Holder(db, run, Some(key)) == Some(id)
  {
  }

  function Approve(db: Db, now: int, id: ActionId, user: string): (Db, Outcome) {
    if id !in db.actions then (db, Outcome(NotFound, false))
    else if db.actions[id].user != user then (db, Outcome(Forbidden, false))
    else if db.actions[id].status == Pending && db.actions[id].expiresAt <= now then
      (SetStatus(db, id, Expired, ExpiredEvent), Outcome(Is(Expired), false))
    else if db.actions[id].status == Pending then
      (SetStatus(db, id, Approved, ApprovedEvent), Outcome(Is(Approved), true))
    else (db, Outcome(Is(db.actions[id].status), db.actions[id].status == Approved))
  }

  function Claim(db: Db, id: ActionId, user: string): (Db, Outcome) {
    if id !in db.actions then (db, Outcome(NotFound, false))
    else if db.actions[id].user != user then (db, Outcome(Forbidden, false))
    else if db.actions[id].status != Approved then (db, Outcome(Is(db.actions[id].status), false))
    else (SetStatus(db, id, Executing, ExecutionStarted), Outcome(Is(Executing), true))
  }

  function Complete(db: Db, id: ActionId, user: string): (Db, StatusName) {
    if id !in db.actions then (db, NotFound)
    else if db.actions[id].user != user then (db, Forbidden)
    else if db.actions[id].status != Executing then (db, Is(db.actions[id].status))
    else (SetStatus(db, id, Executed, ExecutedEvent), Is(Executed))
  }

  function Reject(db: Db, id: ActionId, user: string): (Db, StatusName) {
    if id !in db.actions then (db, NotFound)
    else if db.actions[id].user != user then (db, Forbidden)
    else if db.actions[id].status != Pending then (db, Is(db.actions[id].status))
    else (SetStatus(db, id, Rejected, RejectedEvent), Is(Rejected))
  }

  /** The table with its row locks: each call is one transaction. */
  class ActionStore {
    var actions: map<ActionId, Action>
    var audit: seq<Event>

    function State(): Db
      reads this
    {
      Db(actions, audit)
    }

    constructor ()
      ensures State() == Db(map[], [])
    {
      actions, audit := map[], [];
    }

    method SetRow(id: ActionId, status: Status, eventType: EventType)
      requires id in actions
      modifies this
      ensures State() == SetStatus(old(State()), id, status, eventType)
    {
      actions := actions[id := actions[id].(status := status)];
      audit := audit + [Event(id, eventType)];
    }

    method CreatePendingAction(now: int, id: ActionId, run: string, user: string, tool: string,
                               key: Option<string>) returns (reply: CreateReply)
      requires KeysUnique(State())
      modifies this
      ensures (State(), reply) == Create(old(State()), now, id, run, user, tool, key)
    {
      var found := id;
      if key.Some? && exists i :: i in actions && HasKey(State(), run, key.value, i) {
        found :| found in actions && HasKey(State(), run, key.value, found);
        HolderIsUnique(State(), run, key.value, found);
      } else {
        assert Holder(State(), run, key) == None;
        if id in actions {
          return Refused;
        }
        actions := actions[id := Action(run, user, tool, Pending, now + LIFETIME, key)];
      }
      if key.Some? && key.value != "" {
        audit := audit + [Event(found, IdempotencyHit)];
        return Created(found, actions[found]);
      }
      audit := audit + [Event(id, CreatedEvent)];
      if id !in actions {
        return TypeError;
      }
      reply := Created(id, actions[id]);
    }

    method ApprovePendingAction(now: int, id: ActionId, user: string) returns (outcome: Outcome)
      modifies this
      ensures (State(), outcome) == Approve(old(State()), now, id, user)
    {
      if id !in actions {
        return Outcome(NotFound, false);
      }
      var row := actions[id];
      if row.user != user {
        return Outcome(Forbidden, false);
      }
      var status := row.status;
      if status == Pending && row.expiresAt <= now {
        SetRow(id, Expired, ExpiredEvent);
        return Outcome(Is(Expired), false);
      }
      if status == Pending {
        SetRow(id, Approved, ApprovedEvent);
        status := Approved;
      }
      outcome := Outcome(Is(status), status == Approved);
    }

    method ClaimPendingActionExecution(id: ActionId, user: string) returns (outcome: Outcome)
      modifies this
      ensures (State(), outcome) == Claim(old(State()), id, user)
    {
      if id !in actions {
        return Outcome(NotFound, false);
      }
      var row := actions[id];
      if row.user != user {
        return Outcome(Forbidden, false);
      }
      if row.status == Executed {
        return Outcome(Is(Executed), false);
      }
      if row.status != Approved {
        return Outcome(Is(row.status), false);
      }
      SetRow(id, Executing, ExecutionStarted);
      outcome := Outcome(Is(Executing), true);
    }

    method CompletePendingAction(id: ActionId, user: string) returns (name: StatusName)
      modifies this
      ensures (State(), name) == Complete(old(State()), id, user)
    {
      if id !in actions {
        return NotFound;
      }
      var row := actions[id];
      if row.user != user {
        return Forbidden;
      }
      if row.status == Executed {
        return Is(Executed);
      }
      if row.status != Executing {
        return Is(row.status);
      }
      SetRow(id, Executed, ExecutedEvent);
      name := Is(Executed);
    }

    method RejectPendingAction(id: ActionId, user: string) returns (name: StatusName)
      modifies this
      ensures (State(), name) == Reject(old(State()), id, user)
    {
      if id !in actions {
        return NotFound;
      }
      var row := actions[id];
      if row.user != user {
        return Forbidden;
      }
      if row.status == Pending {
        SetRow(id, Rejected, RejectedEvent);
        return Is(Rejected);
      }
      name := Is(row.status);
    }

    /** _execute_approved_action with no other request in between: claim, then complete, for the one
        supported tool. */
    method ExecuteApprovedAction(id: ActionId, user: string) returns (name: StatusName, executed: bool)
      modifies this
      ensures var (claimed, outcome) := Claim(old(State()), id, user);
              if !outcome.shouldExecute then State() == claimed && name == outcome.status
              else if old(actions)[id].tool != TEST_TOOL then State() == claimed && name == Unsupported
              else (State(), name) == Complete(claimed, id, user) && name == Is(Executed)
      ensures executed <==> name == Is(Executed)
      ensures executed <==> id in actions && actions[id].user == user && actions[id].status == Executed
    {
      var claim := ClaimPendingActionExecution(id, user);
      if claim.status == NotFound || claim.status == Forbidden {
        return claim.status, false;
      }
      if !claim.shouldExecute {
        return claim.status, claim.status == Is(Executed);
      }
      if actions[id].tool != TEST_TOOL {
        return Unsupported, false;
      }
      name := CompletePendingAction(id, user);
      executed := name == Is(Executed);
    }
  }

  // ---- Every interleaving of requests

  datatype Call =
    | CallCreate(id: ActionId, run: string, user: string, tool: string, key: Option<string>)
    | CallApprove(id: ActionId, user: string)
    | CallClaim(id: ActionId, user: string)
    | CallComplete(id: ActionId, user: string)
    | CallReject(id: ActionId, user: string)

  datatype Timed = Timed(now: int, call: Call)

  ghost function Apply(db: Db, t: Timed): Db {
    match t.call
    case CallCreate(id, run, user, tool, key) => Create(db, t.now, id, run, user, tool, key).0
    case CallApprove(id, user) => Approve(db, t.now, id, user).0
    case CallClaim(id, user) => Claim(db, id, user).0
    case CallComplete(id, user) => Complete(db, id, user).0
    case CallReject(id, user) => Reject(db, id, user).0
  }

  ghost function After(calls: seq<Timed>): Db {
    if calls == [] then Db(map[], []) else Apply(After(calls[..|calls| - 1]), calls[|calls| - 1])
  }

  /** At most one action per (run, non-null key), always. */
  lemma {:induction false} KeysStayUnique(calls: seq<Timed>)
    ensures KeysUnique(After(calls))
  {
    if calls != [] {
      KeysStayUnique(calls[..|calls| - 1]);
      StepKeepsKeys(After(calls[..|calls| - 1]), calls[|calls| - 1]);
    }
  }

  /** Only a creation touches the set of actions, their runs or their keys. */
  lemma OwnerCallsKeepKeys(db: Db, t: Timed, id: ActionId)
    requires !t.call.CallCreate?
    ensures id in Apply(db, t).actions <==> id in db.actions
    ensures id in db.actions ==>
              Apply(db, t).actions[id].run == db.actions[id].run && Apply(db, t).actions[id].key == db.actions[id].key
  {
  }

  lemma CreationKeepsKeys(db: Db, t: Timed)
    requires KeysUnique(db) && t.call.CallCreate?
    ensures KeysUnique(Apply(db, t))
  {
    var db' := Apply(db, t);
    forall i, j | i in db'.actions && j in db'.actions && i != j && db'.actions[i].key.Some?
      ensures !HasKey(db', db'.actions[i].run, db'.actions[i].key.value, j)
    {
      if i in db.actions && j in db.actions {
        assert !HasKey(db, db.actions[i].run, db.actions[i].key.value, j);
      } else if t.call.key.Some? {
        assert !HasKey(db, t.call.run, t.call.key.value, i) && !HasKey(db, t.call.run, t.call.key.value, j);
      }
    }
  }

  lemma StepKeepsKeys(db: Db, t: Timed)
    requires KeysUnique(db)
    ensures KeysUnique(Apply(db, t))
  {
    if t.call.CallCreate? {
      CreationKeepsKeys(db, t);
    } else {
      hide Apply;
      var db' := Apply(db, t);
      forall i, j | i in db'.actions && j in db'.actions && i != j && db'.actions[i].key.Some?
        ensures !HasKey(db', db'.actions[i].run, db'.actions[i].key.value, j)
      {
        OwnerCallsKeepKeys(db, t, i);
        OwnerCallsKeepKeys(db, t, j);
        assert !HasKey(db, db.actions[i].run, db.actions[i].key.value, j);
      }
    }
  }

  predicate Lifecycle(t: EventType) {
    t != CreatedEvent && t != IdempotencyHit
  }

  /** The status-changing events of one action, in order. */
  function Trail(audit: seq<Event>, id: ActionId): seq<EventType> {
    if audit == [] then []
    else
      var front, e := Trail(audit[..|audit| - 1], id), audit[|audit| - 1];
      if e.action == id && Lifecycle(e.eventType) then front + [e.eventType] else front
  }

  /** The one trail that leads to each status. */
  function Script(status: Status): seq<EventType> {
    match status
    case Pending => []
    case Approved => [ApprovedEvent]
    case Executing => [ApprovedEvent, ExecutionStarted]
    case Executed => [ApprovedEvent, ExecutionStarted, ExecutedEvent]
    case Rejected => [RejectedEvent]
    case Expired => [ExpiredEvent]
  }

  /** Replays a trail from pending, one event at a time. */
  function Replay(trail: seq<EventType>): Status {
    if trail == [] then Pending
    else
      match trail[|trail| - 1]
      case ApprovedEvent => Approved
      case RejectedEvent => Rejected
      case ExpiredEvent => Expired
      case ExecutionStarted => Executing
      case ExecutedEvent => Executed
      case _ => Replay(trail[..|trail| - 1])
  }

  lemma TrailExtends(audit: seq<Event>, e: Event, id: ActionId)
    ensures Trail(audit + [e], id) ==
            if e.action == id && Lifecycle(e.eventType) then Trail(audit, id) + [e.eventType] else Trail(audit, id)
  {
    assert (audit + [e])[..|audit|] == audit;
  }

  ghost predicate TrailMatches(db: Db, id: ActionId) {
    Trail(db.audit, id) == if id in db.actions then Script(db.actions[id].status) else []
  }

  /** The event a step adds, if any. */
  ghost function Added(db: Db, t: Timed): seq<Event> {
    if |Apply(db, t).audit| > |db.audit| then Apply(db, t).audit[|db.audit|..] else []
  }

  ghost predicate Concerns(added: seq<Event>, id: ActionId) {
    added != [] && added[0].action == id && Lifecycle(added[0].eventType)
  }

  ghost predicate Effect(db: Db, t: Timed, id: ActionId) {
    var db', added := Apply(db, t), Added(db, t);
    && |added| <= 1 && db'.audit == db.audit + added
    && (Concerns(added, id) ==>
          && id in db.actions && id in db'.actions
          && Script(db'.actions[id].status) == Script(db.actions[id].status) + [added[0].eventType])
    && (!Concerns(added, id) ==>
          && (id in db.actions ==> id in db'.actions && db'.actions[id].status == db.actions[id].status)
          && (id in db'.actions && id !in db.actions ==> db'.actions[id].status == Pending))
  }

  lemma CreateEffect(db: Db, t: Timed, id: ActionId)
    requires t.call.CallCreate?
    ensures Effect(db, t, id)
  {
  }

  lemma OwnerEffect(db: Db, t: Timed, id: ActionId)
    requires t.call.CallApprove? || t.call.CallReject?
    ensures Effect(db, t, id)
  {
  }

  /** A step adds at most one event; a status-changing event of an action extends its script by itself,
      and any other step leaves the action's status alone. */
  lemma StepEffect(db: Db, t: Timed, id: ActionId)
    ensures Effect(db, t, id)
  {
    if t.call.CallCreate? {
      CreateEffect(db, t, id);
    } else if t.call.CallApprove? || t.call.CallReject? {
      OwnerEffect(db, t, id);
    }
  }

  /** A status-changing claim event is added exactly when a claim tells its request to execute. */
  lemma StartEffect(db: Db, t: Timed, id: ActionId)
    ensures Starts(db, t, id) <==> Added(db, t) == [Event(id, ExecutionStarted)]
  {
  }

  lemma StepKeepsTrail(db: Db, t: Timed, id: ActionId)
    requires TrailMatches(db, id)
    ensures TrailMatches(Apply(db, t), id)
  {
    hide Apply, Added, Script;
    StepEffect(db, t, id);
    var added := Added(db, t);
    if added != [] {
      assert added == [added[0]];
      TrailExtends(db.audit, added[0], id);
    } else {
      assert Apply(db, t).audit == db.audit;
    }
    assert Script(Pending) == [] by { ScriptOfPending(); }
  }

  lemma ScriptOfPending()
    ensures Script(Pending) == []
  {
  }

  /** Whatever requests interleave, an action's status-changing events are exactly the script of its
      status, and replaying them from pending gives the stored status. */
  lemma {:induction false} TrailIsTheScript(calls: seq<Timed>, id: ActionId)
    ensures var db := After(calls);
            && Trail(db.audit, id) == (if id in db.actions then Script(db.actions[id].status) else [])
            && (id in db.actions ==> Replay(Trail(db.audit, id)) == db.actions[id].status)
  {
    hide Apply;
    if calls == [] {
      assert TrailMatches(After(calls), id);
    } else {
      TrailIsTheScript(calls[..|calls| - 1], id);
      StepKeepsTrail(After(calls[..|calls| - 1]), calls[|calls| - 1], id);
    }
    if id in After(calls).actions {
      ReplayScript(After(calls).actions[id].status);
    }
  }

  lemma ReplayScript(status: Status)
    ensures Replay(Script(status)) == status
  {
  }

  /** The claims that told a request to execute. */
  predicate Starts(db: Db, t: Timed, id: ActionId) {
    t.call.CallClaim? && t.call.id == id && Claim(db, id, t.call.user).1.shouldExecute
  }

  ghost function StartCount(calls: seq<Timed>, id: ActionId): nat {
    if calls == [] then 0
    else
      var front := calls[..|calls| - 1];
      StartCount(front, id) + if Starts(After(front), calls[|calls| - 1], id) then 1 else 0
  }

  lemma {:induction false} StartsAreAudited(calls: seq<Timed>, id: ActionId)
    ensures StartCount(calls, id) == multiset(Trail(After(calls).audit, id))[ExecutionStarted]
  {
    hide Apply, Added, Starts, Script;
    if calls != [] {
      var front, t := calls[..|calls| - 1], calls[|calls| - 1];
      StartsAreAudited(front, id);
      var db := After(front);
      StepEffect(db, t, id);
      StartEffect(db, t, id);
      var added := Added(db, t);
      if added != [] {
        assert added == [added[0]];
        TrailExtends(db.audit, added[0], id);
      } else {
        assert After(calls).audit == db.audit;
      }
    }
  }

  /** An action starts execution at most once, never after rejection or expiry, and only when an
      approval event precedes it. */
  lemma ExecutionStartsAtMostOnce(calls: seq<Timed>, id: ActionId)
    ensures StartCount(calls, id) <= 1
    ensures StartCount(calls, id) == 1 ==>
              && id in After(calls).actions && After(calls).actions[id].status in {Executing, Executed}
              && [ApprovedEvent, ExecutionStarted] <= Trail(After(calls).audit, id)
              && RejectedEvent !in Trail(After(calls).audit, id) && ExpiredEvent !in Trail(After(calls).audit, id)
  {
    hide Apply, Trail;
    TrailIsTheScript(calls, id);
    StartsAreAudited(calls, id);
  }

  /** A first creation under a non-empty key leaves an idempotency hit and no created event; a repeated
      one returns the first action and changes no action. */
  lemma KeyedCreationIsIdempotent(db: Db, now: int, id: ActionId, run: string, user: string, tool: string,
                                  key: string, later: int, id': ActionId, user': string, tool': string)
    requires key != "" && id !in db.actions && KeysUnique(db)
    requires forall i :: !HasKey(db, run, key, i)
    ensures var (db1, reply1) := Create(db, now, id, run, user, tool, Some(key));
            var (db2, reply2) := Create(db1, later, id', run, user', tool', Some(key));
            && db1.actions.Keys == db.actions.Keys + {id}
            && db1.audit == db.audit + [Event(id, IdempotencyHit)]
            && reply1 == reply2 == Created(id, db1.actions[id])
            && db2 == db1.(audit := db1.audit + [Event(id, IdempotencyHit)])
  {
    var db1 := Create(db, now, id, run, user, tool, Some(key)).0;
    assert Holder(db, run, Some(key)) == None;
    assert HasKey(db1, run, key, id);
    forall i | HasKey(db1, run, key, i) ensures i == id {
      assert !HasKey(db, run, key, i);
    }
    assert Holder(db1, run, Some(key)) == Some(id);
  }

  // ---- Which actions have a created event

  predicate LogsNoHit(key: Option<string>) {
    key == None || key == Some("")
  }

  /** A creation that inserts its action logs a created event for it exactly when it gives no key or the empty one. */
  lemma InsertLogsCreatedExactlyWhen(db: Db, now: int, id: ActionId, run: string, user: string, tool: string,
                                     key: Option<string>)
    requires id !in db.actions && id in Create(db, now, id, run, user, tool, key).0.actions
    ensures var added := Create(db, now, id, run, user, tool, key).0.audit[|db.audit|..];
            && |added| == 1
            && (added == [Event(id, CreatedEvent)] <==> LogsNoHit(key))
            && (added == [Event(id, IdempotencyHit)] <==> !LogsNoHit(key))
  {
  }

  /** A creation under the empty key that finds the key taken. */
  ghost predicate EmptyKeyConflict(db: Db, t: Timed, id: ActionId) {
    t.call.CallCreate? && t.call.id == id && t.call.key == Some("") && Holder(db, t.call.run, Some("")).Some?
  }

  /** A creation leaves a created event for an action that does not exist exactly when the empty key is taken and the
      id is new; the call then fails. */
  lemma CreationStraysExactlyWhen(db: Db, t: Timed, id: ActionId)
    requires t.call.CallCreate? && t.call.id == id
    ensures Added(db, t) == [Event(id, CreatedEvent)] && id !in Apply(db, t).actions <==>
            EmptyKeyConflict(db, t, id) && id !in db.actions
    ensures EmptyKeyConflict(db, t, id) && id !in db.actions ==>
              Create(db, t.now, id, t.call.run, t.call.user, t.call.tool, t.call.key).1 == TypeError
  {
  }

  /** An empty-key conflict under this id happened during the calls. */
  ghost predicate Strayed(calls: seq<Timed>, id: ActionId) {
    exists i :: 0 <= i < |calls| && EmptyKeyConflict(After(calls[..i]), calls[i], id)
  }

  lemma StrayedNext(calls: seq<Timed>, id: ActionId)
    requires calls != []
    ensures var front := calls[..|calls| - 1];
            Strayed(calls, id) <==> Strayed(front, id) || EmptyKeyConflict(After(front), calls[|calls| - 1], id)
  {
    hide After, EmptyKeyConflict;
    var front := calls[..|calls| - 1];
    if Strayed(front, id) {
      var i :| 0 <= i < |front| && EmptyKeyConflict(After(front[..i]), front[i], id);
      assert front[..i] == calls[..i];
      assert EmptyKeyConflict(After(calls[..i]), calls[i], id);
    }
    if Strayed(calls, id) {
      var i :| 0 <= i < |calls| && EmptyKeyConflict(After(calls[..i]), calls[i], id);
      if i < |front| {
        assert front[..i] == calls[..i];
      }
    }
  }

  ghost predicate Unkeyed(db: Db, id: ActionId) {
    id in db.actions && LogsNoHit(db.actions[id].key)
  }

  lemma StepLogsCreated(db: Db, t: Timed, id: ActionId)
    ensures var e, db' := Event(id, CreatedEvent), Apply(db, t);
            && (Unkeyed(db, id) ==> Unkeyed(db', id))
            && (id in db.actions && !Unkeyed(db, id) ==> !Unkeyed(db', id))
            && (e in db'.audit ==> e in db.audit || EmptyKeyConflict(db, t, id) || Unkeyed(db', id))
            && (e in db.audit || EmptyKeyConflict(db, t, id) || (id !in db.actions && Unkeyed(db', id)) ==>
                e in db'.audit)
  {
  }

  /** Over every run, an action id has a created event exactly when its action was inserted without a key or under the
      empty one, or a creation under that id met a taken empty key. */
  lemma {:induction false} CreatedEventExactlyWhen(calls: seq<Timed>, id: ActionId)
    ensures Event(id, CreatedEvent) in After(calls).audit <==> Unkeyed(After(calls), id) || Strayed(calls, id)
  {
    hide Apply, EmptyKeyConflict, Unkeyed;
    if calls == [] {
      assert !Unkeyed(After(calls), id) by { NoneUnkeyed(id); }
    } else {
      var front, t := calls[..|calls| - 1], calls[|calls| - 1];
      CreatedEventExactlyWhen(front, id);
      StrayedNext(calls, id);
      StepLogsCreated(After(front), t, id);
    }
  }

  lemma NoneUnkeyed(id: ActionId)
    ensures !Unkeyed(After([]), id)
  {
  }

  /** So every created event names an action exactly when every id that met a taken empty key was inserted at some
      time, which callers that never pass the empty key guarantee; and every action has a created event exactly when
      each was unkeyed or its id met such a conflict. */
  lemma CreatedEventsNameActionsExactlyWhen(calls: seq<Timed>)
    ensures var db := After(calls);
            (forall id :: Event(id, CreatedEvent) in db.audit ==> id in db.actions) <==>
            (forall id :: Strayed(calls, id) ==> id in db.actions)
    ensures var db := After(calls);
            (forall id :: id in db.actions ==> Event(id, CreatedEvent) in db.audit) <==>
            (forall id :: id in db.actions ==> Unkeyed(db, id) || Strayed(calls, id))
    ensures (forall i :: 0 <= i < |calls| && calls[i].call.CallCreate? ==> calls[i].call.key != Some("")) ==>
              forall id :: !Strayed(calls, id)
  {
    hide Apply, After;
    forall id
      ensures Event(id, CreatedEvent) in After(calls).audit <==> Unkeyed(After(calls), id) || Strayed(calls, id)
    {
      CreatedEventExactlyWhen(calls, id);
    }
  }

  /** Two creations of one run under the empty key reach such an event. Nothing in the repository calls this way: its
      one caller passes the hex digest of a SHA-256 hash. */
  lemma EmptyKeyLeavesAStrayEvent(a: ActionId, b: ActionId, run: string, user: string, tool: string)
    requires a != b
    ensures var calls := [Timed(0, CallCreate(a, run, user, tool, Some(""))),
                          Timed(1, CallCreate(b, run, user, tool, Some("")))];
            Event(b, CreatedEvent) in After(calls).audit && b !in After(calls).actions
  {
    var first, second := Timed(0, CallCreate(a, run, user, tool, Some(""))),
                         Timed(1, CallCreate(b, run, user, tool, Some("")));
    var calls := [first, second];
    assert calls[..1] == [first] && [first][..0] == [];
    var db := After([first]);
    assert After([]) == Db(map[], []);
    assert db == Apply(After([]), first);
    assert After(calls) == Apply(db, second);
    assert HasKey(db, run, "", a);
  }
}
