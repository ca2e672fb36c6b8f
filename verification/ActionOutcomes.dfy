/** What each call does to the table, by the stored rows and the clock, and how long an action can be approved. */
module ActionOutcomes {
  import opened Common
  import opened PendingActions

  /** The row exists and is this user's. */
  predicate Own(db: Db, id: ActionId, user: string) {
    id in db.actions && db.actions[id].user == user
  }

  /** What a user who does not own the row is told. */
  predicate TurnedAway(db: Db, id: ActionId, user: string, name: StatusName) {
    !Own(db, id, user) && (name == NotFound <==> id !in db.actions) && (name == Forbidden <==> id in db.actions)
  }

  /** The call moved the row from one status to the next, logged it, and changed nothing else. */
  predicate Moved(db: Db, db': Db, id: ActionId, from: Status, to: Status, eventType: EventType) {
    && id in db.actions && db.actions[id].status == from
    && db' == Db(db.actions[id := db.actions[id].(status := to)], db.audit + [Event(id, eventType)])
  }

  /** A pending action is approved by its owner before it expires, and found expired from that moment on; any other call
      changes nothing, and execution may go on exactly when the owner's action is then approved. */
  lemma ApprovalExactlyWhen(db: Db, now: int, id: ActionId, user: string)
    ensures var (db', outcome) := Approve(db, now, id, user);
            var pending := Own(db, id, user) && db.actions[id].status == Pending;
            && (Moved(db, db', id, Pending, Approved, ApprovedEvent) <==> pending && now < db.actions[id].expiresAt)
            && (Moved(db, db', id, Pending, Expired, ExpiredEvent) <==> pending && db.actions[id].expiresAt <= now)
            && (db' == db <==> !pending)
            && (!Own(db, id, user) <==> TurnedAway(db, id, user, outcome.status))
            && (Own(db, id, user) ==> outcome.status == Is(db'.actions[id].status))
            && (outcome.shouldExecute <==> Own(db, id, user) && db'.actions[id].status == Approved)
  {
    var db' := Approve(db, now, id, user).0;
    if Own(db, id, user) && db.actions[id].status == Pending {
      assert db'.audit[|db.audit|] == Event(id, if now < db.actions[id].expiresAt then ApprovedEvent else ExpiredEvent);
    }
  }

  /** A claim starts exactly the owner's approved action. */
  lemma ClaimExactlyWhen(db: Db, id: ActionId, user: string)
    ensures var (db', outcome) := Claim(db, id, user);
            var approved := Own(db, id, user) && db.actions[id].status == Approved;
            && (outcome.shouldExecute <==> approved)
            && (Moved(db, db', id, Approved, Executing, ExecutionStarted) <==> approved)
            && (db' == db <==> !approved)
            && (!Own(db, id, user) <==> TurnedAway(db, id, user, outcome.status))
            && (Own(db, id, user) ==> outcome.status == Is(db'.actions[id].status))
  {
  }

  /** A completion ends exactly the owner's executing action, a rejection exactly the owner's pending one. */
  lemma EndExactlyWhen(db: Db, id: ActionId, user: string)
    ensures var (db', name) := Complete(db, id, user);
            var executing := Own(db, id, user) && db.actions[id].status == Executing;
            && (Moved(db, db', id, Executing, Executed, ExecutedEvent) <==> executing)
            && (db' == db <==> !executing)
            && (!Own(db, id, user) <==> TurnedAway(db, id, user, name))
            && (Own(db, id, user) ==> name == Is(db'.actions[id].status))
    ensures var (db', name) := Reject(db, id, user);
            var pending := Own(db, id, user) && db.actions[id].status == Pending;
            && (Moved(db, db', id, Pending, Rejected, RejectedEvent) <==> pending)
            && (db' == db <==> !pending)
            && (!Own(db, id, user) <==> TurnedAway(db, id, user, name))
            && (Own(db, id, user) ==> name == Is(db'.actions[id].status))
  {
  }

  // ---- Creations

  /** The run has an action under this key. */
  ghost predicate KeyTaken(db: Db, run: string, key: Option<string>) {
    key.Some? && exists i :: i in db.actions && db.actions[i].run == run && db.actions[i].key == key
  }

  /** A creation inserts a pending action that lives 900 seconds exactly when its id is new and its run has not used the
      key; it is refused on a known id without such a key, and fails on a new id under a taken empty key. */
  lemma CreationExactlyWhen(db: Db, now: int, id: ActionId, run: string, user: string, tool: string,
                            key: Option<string>)
    ensures var (db', reply) := Create(db, now, id, run, user, tool, key);
            var taken, row := KeyTaken(db, run, key), Action(run, user, tool, Pending, now + 900, key);
            && (!taken && id !in db.actions ==> db'.actions == db.actions[id := row] && reply == Created(id, row))
            && (taken || id in db.actions ==> db'.actions == db.actions)
            && (reply == Refused <==> !taken && id in db.actions)
            && (reply == Refused ==> db'.audit == db.audit)
            && (reply == TypeError <==> taken && key == Some("") && id !in db.actions)
  {
    if KeyTaken(db, run, key) {
      var i :| i in db.actions && db.actions[i].run == run && db.actions[i].key == key;
      assert HasKey(db, run, key.value, i);
    }
  }

  /** A repeated non-empty key answers with the action the run has under it. */
  lemma RepeatedKeyAnswers(db: Db, now: int, id: ActionId, run: string, user: string, tool: string,
                           key: Option<string>)
    requires KeyTaken(db, run, key) && key != Some("")
    ensures var (db', reply) := Create(db, now, id, run, user, tool, key);
            && reply.Created? && reply.id in db.actions && reply.action == db.actions[reply.id]
            && reply.action.run == run && reply.action.key == key
            && db' == db.(audit := db.audit + [Event(reply.id, IdempotencyHit)])
  {
    var i :| i in db.actions && db.actions[i].run == run && db.actions[i].key == key;
    assert HasKey(db, run, key.value, i);
  }

  // ---- Over every run of calls

  /** Call `j` inserted the action. */
  ghost predicate Inserts(calls: seq<Timed>, j: nat, id: ActionId)
    requires j < |calls|
  {
    && calls[j].call.CallCreate? && calls[j].call.id == id && id !in After(calls[..j]).actions
    && id in After(calls[..j + 1]).actions
  }

  /** The row's user and expiry are those of the call that inserted it. */
  ghost predicate BornAt(calls: seq<Timed>, j: nat, id: ActionId)
    requires j < |calls|
  {
    && Inserts(calls, j, id) && id in After(calls).actions
    && After(calls).actions[id].user == calls[j].call.user
    && After(calls).actions[id].expiresAt == calls[j].now + 900
  }

  lemma StepKeepsBirth(db: Db, t: Timed, id: ActionId)
    requires id in db.actions
    ensures var db' := Apply(db, t);
            && id in db'.actions && db'.actions[id].user == db.actions[id].user
            && db'.actions[id].expiresAt == db.actions[id].expiresAt
  {
  }

  lemma StepGivesBirth(db: Db, t: Timed, id: ActionId)
    requires id !in db.actions && id in Apply(db, t).actions
    ensures t.call.CallCreate? && t.call.id == id
    ensures Apply(db, t).actions[id].user == t.call.user && Apply(db, t).actions[id].expiresAt == t.now + 900
  {
  }

  /** Every action was inserted by one call, and still has the user and the expiry it gave. */
  lemma {:induction false} EveryActionIsBorn(calls: seq<Timed>, id: ActionId) returns (j: nat)
    requires id in After(calls).actions
    ensures j < |calls| && BornAt(calls, j, id)
  {
    hide Apply;
    var front, t := calls[..|calls| - 1], calls[|calls| - 1];
    if id in After(front).actions {
      j := EveryActionIsBorn(front, id);
      StepKeepsBirth(After(front), t, id);
      assert front[..j] == calls[..j] && front[..j + 1] == calls[..j + 1];
    } else {
      j := |front|;
      StepGivesBirth(After(front), t, id);
      assert calls[..j] == front && calls[..j + 1] == calls;
    }
  }

  lemma {:induction false} ActionsStay(calls: seq<Timed>, cut: nat, id: ActionId)
    requires cut <= |calls| && id in After(calls[..cut]).actions
    ensures id in After(calls).actions
  {
    hide Apply;
    if cut == |calls| {
      assert calls[..cut] == calls;
    } else {
      var front := calls[..|calls| - 1];
      assert front[..cut] == calls[..cut];
      ActionsStay(front, cut, id);
      StepKeepsBirth(After(front), calls[|calls| - 1], id);
    }
  }

  lemma InsertedOnce(calls: seq<Timed>, i: nat, j: nat, id: ActionId)
    requires i < |calls| && j < |calls| && Inserts(calls, i, id) && Inserts(calls, j, id)
    ensures i == j
  {
    hide After;
    if i < j {
      assert calls[..j][..i + 1] == calls[..i + 1];
      ActionsStay(calls[..j], i + 1, id);
    } else if j < i {
      assert calls[..i][..j + 1] == calls[..j + 1];
      ActionsStay(calls[..i], j + 1, id);
    }
  }

  /** The next call is an approval of the pending action by the user who created it at `born`. */
  ghost predicate Answers(calls: seq<Timed>, t: Timed, id: ActionId, born: nat)
    requires born < |calls|
  {
    && Inserts(calls, born, id) && t.call == CallApprove(id, calls[born].call.user)
    && id in After(calls).actions && After(calls).actions[id].status == Pending
  }

  lemma StepLogs(db: Db, t: Timed, id: ActionId)
    ensures Added(db, t) == [Event(id, ApprovedEvent)] <==>
            && id in db.actions && t.call == CallApprove(id, db.actions[id].user)
            && db.actions[id].status == Pending && t.now < db.actions[id].expiresAt
    ensures Added(db, t) == [Event(id, ExpiredEvent)] <==>
            && id in db.actions && t.call == CallApprove(id, db.actions[id].user)
            && db.actions[id].status == Pending && db.actions[id].expiresAt <= t.now
  {
  }

  /** Over every run of calls, the next call logs an approval exactly when it approves a pending action as the user who
      created it, less than 900 seconds after that, and an expiry exactly when it does so 900 seconds or more after. */
  lemma ApprovedWithinLifetimeExactlyWhen(calls: seq<Timed>, t: Timed, id: ActionId)
    ensures Added(After(calls), t) == [Event(id, ApprovedEvent)] <==>
            exists born :: 0 <= born < |calls| && Answers(calls, t, id, born) && t.now < calls[born].now + 900
    ensures Added(After(calls), t) == [Event(id, ExpiredEvent)] <==>
            exists born :: 0 <= born < |calls| && Answers(calls, t, id, born) && calls[born].now + 900 <= t.now
  {
    hide After, Added, Inserts;
    StepLogs(After(calls), t, id);
    if id in After(calls).actions {
      var j := EveryActionIsBorn(calls, id);
      forall born | 0 <= born < |calls| && Answers(calls, t, id, born) ensures born == j {
        InsertedOnce(calls, born, j, id);
      }
      assert After(calls).actions[id].status == Pending && t.call == CallApprove(id, calls[j].call.user) ==>
               Answers(calls, t, id, j);
    }
  }
}
