/** Which event one evaluation of a rule emits and what row it stores, by the stored row, and what a batch of
    evaluations adds to the audit. */
module AlertTransitions {
  import opened Common
  import opened Alerts

  /** Critical is worse than warning, and warning than healthy. */
  predicate Worse(a: Level, b: Level) {
    (a == Critical && b != Critical) || (a == Warning && b == Healthy)
  }

  predicate Unhealthy(row: Option<AlertRow>) {
    row.Some? && row.value.status != Healthy
  }

  /** No trigger lies within the cooldown. */
  predicate CooledDown(row: AlertRow, e: Evaluation, now: int) {
    row.lastTriggered == None || row.lastTriggered.value + e.cooldown <= now
  }

  /** The event is the one this row and this evaluation call for. */
  predicate CalledFor(row: Option<AlertRow>, e: Evaluation, now: int, event: Option<EventType>) {
    && (event == Some(Opened) <==> e.severity != Healthy && !Unhealthy(row))
    && (event == Some(Recovered) <==> e.severity == Healthy && Unhealthy(row))
    && (event == Some(Escalated) <==> Unhealthy(row) && Worse(e.severity, row.value.severity))
    && (event == Some(Suppressed) <==>
          Unhealthy(row) && e.severity != Healthy && !Worse(e.severity, row.value.severity) &&
          CooledDown(row.value, e, now))
    && (event == None <==>
          if e.severity == Healthy then !Unhealthy(row)
          else Unhealthy(row) && !Worse(e.severity, row.value.severity) && !CooledDown(row.value, e, now))
  }

  /** The stored row: the evaluation, the times moved by the event, and the suppressions counted. */
  predicate StoredFor(row: Option<AlertRow>, e: Evaluation, now: int, event: Option<EventType>, row': AlertRow) {
    && row'.status == row'.severity == e.severity
    && row'.evidence == e.evidence && row'.value == e.value && row'.sampleSize == e.sampleSize && row'.evaluatedAt == now
    && row'.lastTriggered == (if event in {Some(Opened), Some(Escalated), Some(Suppressed)} then Some(now)
                              else if row.Some? then row.value.lastTriggered else None)
    && row'.recoveredAt == (if event == Some(Recovered) then Some(now)
                            else if event in {Some(Opened), Some(Escalated)} || row == None then None
                            else row.value.recoveredAt)
    && row'.suppressedCount ==
       (if row.Some? then row.value.suppressedCount else 0) + (if event == Some(Suppressed) then 1 else 0)
  }

  /** One evaluation emits the event that is called for and stores the row that goes with it. */
  lemma TransitionExactlyWhen(row: Option<AlertRow>, e: Evaluation, now: int)
    ensures var (row', event) := Transition(row, e, now);
            CalledFor(row, e, now, event) && StoredFor(row, e, now, event, row')
  {
  }

  /** Those conditions leave no choice. */
  lemma TransitionIsDetermined(row: Option<AlertRow>, e: Evaluation, now: int, event: Option<EventType>, row': AlertRow)
    requires CalledFor(row, e, now, event) && StoredFor(row, e, now, event, row')
    ensures (row', event) == Transition(row, e, now)
  {
  }

  // ---- A batch

  /** The row of the evaluation's rule when its turn comes. */
  function Found(db: Db, ts: seq<Timed>, k: nat): Option<AlertRow>
    requires k < |ts|
  {
    Lookup(PersistAll(db, ts[..k]), ts[k].evaluation.rule)
  }

  function Emission(t: Timed, event: Option<EventType>): seq<Emitted> {
    if event.Some? then [Emitted(t.evaluation.rule, event.value, t.now)] else []
  }

  /** The events of a batch one after the other. */
  function Emissions(ts: seq<Timed>, events: seq<Option<EventType>>): seq<Emitted>
    requires |ts| == |events|
  {
    if ts == [] then []
    else Emissions(ts[..|ts| - 1], events[..|ts| - 1]) + Emission(ts[|ts| - 1], events[|ts| - 1])
  }

  /** The first evaluation of a rule finds the row from before the batch, a later one what the last before it stored. */
  ghost predicate FindsLast(db: Db, ts: seq<Timed>, rows: seq<AlertRow>, k: nat)
    requires k < |ts| == |rows|
  {
    && (forall j :: 0 <= j < k && ts[j].evaluation.rule == ts[k].evaluation.rule &&
                    (forall i :: j < i < k ==> ts[i].evaluation.rule != ts[k].evaluation.rule) ==>
                      Found(db, ts, k) == Some(rows[j]))
    && ((forall j :: 0 <= j < k ==> ts[j].evaluation.rule != ts[k].evaluation.rule) ==>
          Found(db, ts, k) == Lookup(db, ts[k].evaluation.rule))
  }

  ghost predicate BatchFor(db: Db, ts: seq<Timed>, events: seq<Option<EventType>>, rows: seq<AlertRow>) {
    && |events| == |rows| == |ts|
    && forall k :: 0 <= k < |ts| ==>
         && CalledFor(Found(db, ts, k), ts[k].evaluation, ts[k].now, events[k])
         && StoredFor(Found(db, ts, k), ts[k].evaluation, ts[k].now, events[k], rows[k])
         && FindsLast(db, ts, rows, k)
  }

  lemma {:induction false} RowUntouched(db: Db, ts: seq<Timed>, cut: nat, rule: Rule)
    requires cut <= |ts| && forall i :: cut <= i < |ts| ==> ts[i].evaluation.rule != rule
    ensures Lookup(PersistAll(db, ts), rule) == Lookup(PersistAll(db, ts[..cut]), rule)
  {
    hide Transition;
    if cut == |ts| {
      assert ts[..cut] == ts;
    } else {
      var front := ts[..|ts| - 1];
      assert front[..cut] == ts[..cut];
      RowUntouched(db, front, cut, rule);
    }
  }

  /** The row of a rule is what the last evaluation of it stored. */
  lemma RowAfter(db: Db, ts: seq<Timed>, j: nat)
    requires j < |ts| && forall i :: j < i < |ts| ==> ts[i].evaluation.rule != ts[j].evaluation.rule
    ensures Lookup(PersistAll(db, ts), ts[j].evaluation.rule) == Some(Stored(db, ts)[j])
  {
    hide Transition;
    RowUntouched(db, ts, j + 1, ts[j].evaluation.rule);
    StoredAt(db, ts, j);
    assert ts[..j + 1][..j] == ts[..j];
  }

  lemma {:induction false} StoredPrefix(db: Db, ts: seq<Timed>, k: nat)
    requires k <= |ts|
    ensures Stored(db, ts[..k]) == Stored(db, ts)[..k]
  {
    hide Transition, PersistAll;
    if k < |ts| {
      var front := ts[..|ts| - 1];
      StoredPrefix(db, front, k);
      assert front[..k] == ts[..k];
    } else {
      assert ts[..k] == ts;
    }
  }

  lemma RowFound(db: Db, ts: seq<Timed>, k: nat)
    requires k < |ts|
    ensures FindsLast(db, ts, Stored(db, ts), k)
  {
    hide Stored, PersistAll, Lookup;
    var before, rule := ts[..k], ts[k].evaluation.rule;
    StoredPrefix(db, ts, k);
    forall j | 0 <= j < k && ts[j].evaluation.rule == rule &&
               (forall i :: j < i < k ==> ts[i].evaluation.rule != rule)
      ensures Found(db, ts, k) == Some(Stored(db, ts)[j])
    {
      RowAfter(db, before, j);
    }
    if forall j :: 0 <= j < k ==> ts[j].evaluation.rule != rule {
      RowUntouched(db, before, 0, rule);
      NothingPersisted(db);
    }
  }

  lemma NothingPersisted(db: Db)
    ensures PersistAll(db, []) == db
  {
  }

  /** The events a batch emits. */
  function Events(db: Db, ts: seq<Timed>): (events: seq<Option<EventType>>)
    ensures |events| == |ts|
  {
    seq(|ts|, k requires 0 <= k < |ts| => Transition(Found(db, ts, k), ts[k].evaluation, ts[k].now).1)
  }

  lemma {:induction false} AuditOfBatch(db: Db, ts: seq<Timed>)
    ensures PersistAll(db, ts).audit == db.audit + Emissions(ts, Events(db, ts))
  {
    hide Transition;
    if ts != [] {
      var n := |ts| - 1;
      var front := ts[..n];
      AuditOfBatch(db, front);
      assert Events(db, ts)[..n] == Events(db, front) by {
        assert forall k :: 0 <= k < n ==> front[..k] == ts[..k];
      }
    }
  }

  lemma {:induction false} StoredAt(db: Db, ts: seq<Timed>, k: nat)
    requires k < |ts|
    ensures Stored(db, ts)[k] == Transition(Found(db, ts, k), ts[k].evaluation, ts[k].now).0
  {
    hide Transition;
    var front := ts[..|ts| - 1];
    if k < |front| {
      StoredAt(db, front, k);
      assert front[..k] == ts[..k];
    }
  }

  /** A batch appends to the audit, in order, the event each evaluation calls for on the row it finds, which is the one
      the last evaluation of its rule in the batch stored, and answers with the rows it stored. */
  lemma BatchExactly(db: Db, ts: seq<Timed>)
    ensures BatchFor(db, ts, Events(db, ts), Stored(db, ts))
    ensures PersistAll(db, ts).audit == db.audit + Emissions(ts, Events(db, ts))
  {
    hide CalledFor, StoredFor, FindsLast, Found, Stored;
    AuditOfBatch(db, ts);
    forall k | 0 <= k < |ts|
      ensures CalledFor(Found(db, ts, k), ts[k].evaluation, ts[k].now, Events(db, ts)[k])
      ensures StoredFor(Found(db, ts, k), ts[k].evaluation, ts[k].now, Events(db, ts)[k], Stored(db, ts)[k])
      ensures FindsLast(db, ts, Stored(db, ts), k)
    {
      TransitionExactlyWhen(Found(db, ts, k), ts[k].evaluation, ts[k].now);
      StoredAt(db, ts, k);
      RowFound(db, ts, k);
    }
  }
}
