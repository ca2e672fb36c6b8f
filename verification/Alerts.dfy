/** Runtime alerts: the transition of one rule's row, the transaction that persists a batch of
    evaluations, and the event language every rule leaves behind. */
module Alerts {
  import opened Common

  type Rule = string

  datatype Level = Healthy | Warning | Critical

  datatype EventType = Opened | Escalated | Suppressed | Recovered

  datatype Evaluation = Evaluation(
    rule: Rule, severity: Level, value: real, sampleSize: nat, evidence: string, cooldown: int)

  datatype AlertRow = AlertRow(
    status: Level, severity: Level, lastTriggered: Option<int>, recoveredAt: Option<int>,
    suppressedCount: nat, evidence: string, value: real, sampleSize: nat, evaluatedAt: int)

  /** An audit event of a rule and the moment it was emitted. */
  datatype Emitted = Emitted(rule: Rule, eventType: EventType, now: int)

  datatype Db = Db(rows: map<Rule, AlertRow>, audit: seq<Emitted>)

  datatype Timed = Timed(now: int, evaluation: Evaluation)

  function Order(level: Level): nat {
    match level
    case Healthy => 0
    case Warning => 1
    case Critical => 2
  }

  function SeverityForValue(value: real, minimumSampleSize: nat, sampleSize: nat, warning: real, critical: real): Level {
    if sampleSize < minimumSampleSize || value < warning then Healthy
    else if value >= critical then Critical
    else Warning
  }

  /** A worse value or a larger sample never lowers the severity, for thresholds in order. */
  lemma SeverityIsMonotone(value: real, value': real, minimum: nat, size: nat, size': nat, warning: real, critical: real)
    requires value <= value' && size <= size' && warning <= critical
    ensures Order(SeverityForValue(value, minimum, size, warning, critical)) <=
            Order(SeverityForValue(value', minimum, size', warning, critical))
  {
  }

  /** transition_alert: the row to store and the event to emit, if any. */
  function Transition(current: Option<AlertRow>, e: Evaluation, now: int): (AlertRow, Option<EventType>) {
    var row := if current.Some? then current.value
               else AlertRow(Healthy, Healthy, None, None, 0, "", 0.0, 0, now);
    var next := row.(status := e.severity, severity := e.severity, evidence := e.evidence,
                     value := e.value, sampleSize := e.sampleSize, evaluatedAt := now);
    if e.severity == Healthy then
      if row.status in {Warning, Critical} then (next.(recoveredAt := Some(now)), Some(Recovered))
      else (next, None)
    else if row.status == Healthy then
      (next.(lastTriggered := Some(now), recoveredAt := None), Some(Opened))
    else if Order(e.severity) > Order(row.severity) then
      (next.(lastTriggered := Some(now), recoveredAt := None), Some(Escalated))
    else if row.lastTriggered.None? || now - row.lastTriggered.value >= e.cooldown then
      (next.(lastTriggered := Some(now), suppressedCount := row.suppressedCount + 1), Some(Suppressed))
    else (next, None)
  }

  function Lookup(db: Db, rule: Rule): Option<AlertRow> {
    if rule in db.rows then Some(db.rows[rule]) else None
  }

  /** One evaluation under its row lock: upsert, and audit the event if there is one. */
  function Persist(db: Db, t: Timed): Db {
    var (row, event) := Transition(Lookup(db, t.evaluation.rule), t.evaluation, t.now);
    Db(db.rows[t.evaluation.rule := row],
       if event.Some? then db.audit + [Emitted(t.evaluation.rule, event.value, t.now)] else db.audit)
  }

  function PersistAll(db: Db, ts: seq<Timed>): Db {
    if ts == [] then db else Persist(PersistAll(db, ts[..|ts| - 1]), ts[|ts| - 1])
  }

  /** The row each evaluation of a batch stored. */
  function Stored(db: Db, ts: seq<Timed>): (rows: seq<AlertRow>)
    ensures |rows| == |ts|
  {
    if ts == [] then []
    else
      var front, t := ts[..|ts| - 1], ts[|ts| - 1];
      Stored(db, front) +
      [Transition(Lookup(PersistAll(db, front), t.evaluation.rule), t.evaluation, t.now).0]
  }

  class AlertTable {
    var rows: map<Rule, AlertRow>
    var audit: seq<Emitted>

    function State(): Db
      reads this
    {
      Db(rows, audit)
    }

    constructor ()
      ensures State() == Db(map[], [])
    {
      rows, audit := map[], [];
    }

    /** persist_runtime_alert_evaluations: the whole batch in one transaction, in order. */
    method PersistEvaluations(ts: seq<Timed>) returns (transitions: seq<AlertRow>)
      modifies this
      ensures State() == PersistAll(old(State()), ts)
      ensures transitions == Stored(old(State()), ts)
    {
      transitions := [];
      for i := 0 to |ts|
        invariant State() == PersistAll(old(State()), ts[..i])
        invariant transitions == Stored(old(State()), ts[..i])
      {
        assert ts[..i + 1][..i] == ts[..i];
        var e, now := ts[i].evaluation, ts[i].now;
        var current := if e.rule in rows then Some(rows[e.rule]) else None;
        var (row, event) := Transition(current, e, now);
        rows := rows[e.rule := row];
        if event.Some? {
          audit := audit + [Emitted(e.rule, event.value, now)];
        }
        transitions := transitions + [row];
      }
      assert ts[..|ts|] == ts;
    }
  }

  // ---- What a rule leaves behind

  const EMPTY_DB := Db(map[], [])

  /** One rule's events, with their times. */
  function Trail(audit: seq<Emitted>, rule: Rule): seq<Emitted> {
    if audit == [] then []
    else
      var front := Trail(audit[..|audit| - 1], rule);
      if audit[|audit| - 1].rule == rule then front + [audit[|audit| - 1]] else front
  }

  /** (opened (escalated|suppressed)* recovered)* with at most one open tail: an event is an opening
      exactly when it is the first or follows a recovery. */
  ghost predicate WellBracketed(trail: seq<Emitted>) {
    forall i :: 0 <= i < |trail| ==> BracketAt(trail, i)
  }

  predicate BracketAt(trail: seq<Emitted>, i: nat)
    requires i < |trail|
  {
    trail[i].eventType == Opened <==> i == 0 || trail[i - 1].eventType == Recovered
  }

  function Count(trail: seq<Emitted>, eventType: EventType): nat {
    if trail == [] then 0
    else Count(trail[..|trail| - 1], eventType) + if trail[|trail| - 1].eventType == eventType then 1 else 0
  }

  predicate OpenTail(trail: seq<Emitted>) {
    trail != [] && trail[|trail| - 1].eventType != Recovered
  }

  predicate Active(db: Db, rule: Rule) {
    rule in db.rows && db.rows[rule].status != Healthy
  }

  /** n cooldowns one after the other. */
  function Cooldowns(n: nat, cooldown: int): int {
    if n == 0 then 0 else Cooldowns(n - 1, cooldown) + cooldown
  }

  lemma OneMoreCooldown(n: nat, cooldown: int)
    ensures Cooldowns(n + 1, cooldown) == Cooldowns(n, cooldown) + cooldown
    ensures Cooldowns(0, cooldown) == 0
  {
  }

  lemma {:induction false} CooldownsMultiply(n: nat, cooldown: int)
    ensures Cooldowns(n, cooldown) == n * cooldown
  {
    if n > 0 {
      CooldownsMultiply(n - 1, cooldown);
    }
  }

  /** What ties a rule's row to its trail. */
  ghost predicate RuleOk(trail: seq<Emitted>, row: Option<AlertRow>, cooldown: int, now: int) {
    && WellBracketed(trail)
    && (row.None? ==> trail == [])
    && (row.Some? ==>
          && row.value.severity == row.value.status
          && (OpenTail(trail) <==> row.value.status != Healthy)
          && row.value.suppressedCount == Count(trail, Suppressed)
          && (trail == [] ==> row.value.lastTriggered == None)
          && (trail != [] ==>
                && row.value.lastTriggered.Some?
                && trail[0].now <= row.value.lastTriggered.value <= now
                && Cooldowns(row.value.suppressedCount, cooldown) <= row.value.lastTriggered.value - trail[0].now))
    && Count(trail, Opened) - Count(trail, Recovered) == (if OpenTail(trail) then 1 else 0)
  }

  lemma TrailExtends(audit: seq<Emitted>, e: Emitted, rule: Rule)
    ensures Trail(audit + [e], rule) == if e.rule == rule then Trail(audit, rule) + [e] else Trail(audit, rule)
  {
    assert (audit + [e])[..|audit|] == audit;
  }

  lemma CountExtends(trail: seq<Emitted>, e: Emitted, eventType: EventType)
    ensures Count(trail + [e], eventType) == Count(trail, eventType) + if e.eventType == eventType then 1 else 0
  {
    assert (trail + [e])[..|trail|] == trail;
  }

  lemma NoEvents()
    ensures WellBracketed([]) && Count([], Opened) == Count([], Recovered) == Count([], Suppressed) == 0
  {
  }

  lemma TransitionKeepsRule(trail: seq<Emitted>, row: Option<AlertRow>, cooldown: int, before: int, t: Timed)
    requires RuleOk(trail, row, cooldown, before) && before <= t.now && t.evaluation.cooldown == cooldown >= 0
    ensures var (row', event) := Transition(row, t.evaluation, t.now);
            RuleOk(if event.Some? then trail + [Emitted(t.evaluation.rule, event.value, t.now)] else trail,
                   Some(row'), cooldown, t.now)
  {
    hide Count, WellBracketed, Cooldowns;
    var (row', event) := Transition(row, t.evaluation, t.now);
    NoEvents();
    OneMoreCooldown(if row.Some? then row.value.suppressedCount else 0, cooldown);
    if event.Some? {
      EmittingKeepsRule(trail, row, row', cooldown, before, Emitted(t.evaluation.rule, event.value, t.now));
    }
  }

  /** The same, from what an emitting transition does to the row's fields. */
  lemma EmittingKeepsRule(trail: seq<Emitted>, row: Option<AlertRow>, row': AlertRow, cooldown: int, before: int,
                          e: Emitted)
    requires RuleOk(trail, row, cooldown, before) && before <= e.now && cooldown >= 0
    requires e.eventType == Opened <==> !OpenTail(trail)
    requires row'.severity == row'.status && (row'.status == Healthy <==> e.eventType == Recovered)
    requires row'.lastTriggered ==
             if e.eventType == Recovered && row.Some? then row.value.lastTriggered else Some(e.now)
    requires var n := if row.Some? then row.value.suppressedCount else 0;
             && row'.suppressedCount == n + (if e.eventType == Suppressed then 1 else 0)
             && (e.eventType == Suppressed ==> row.Some? && row.value.lastTriggered.Some? &&
                                               e.now - row.value.lastTriggered.value >= cooldown)
    ensures RuleOk(trail + [e], Some(row'), cooldown, e.now)
  {
    CountExtends(trail, e, Opened);
    CountExtends(trail, e, Recovered);
    CountExtends(trail, e, Suppressed);
    assert trail == [] ==> Count(trail, Suppressed) == 0;
    BracketExtends(trail, e);
    OneMoreCooldown(if row.Some? then row.value.suppressedCount else 0, cooldown);
    hide Count, WellBracketed, Cooldowns;
    var longer := trail + [e];
    assert longer[0] == if trail == [] then e else trail[0];
    assert longer[|longer| - 1] == e;
  }

  lemma BracketExtends(trail: seq<Emitted>, e: Emitted)
    requires WellBracketed(trail)
    requires e.eventType == Opened <==> !OpenTail(trail)
    ensures WellBracketed(trail + [e])
  {
    var longer := trail + [e];
    forall i | 0 <= i < |longer| ensures BracketAt(longer, i) {
      if i < |trail| {
        assert BracketAt(trail, i);
      }
    }
  }

  ghost predicate Clocked(ts: seq<Timed>) {
    forall i, j :: 0 <= i < j < |ts| ==> ts[i].now <= ts[j].now
  }

  /** For every sequence of evaluations of any rules on a non-decreasing clock, each rule's events are
      well bracketed, openings exceed recoveries by one exactly while the rule is active, the row counts
      the suppressions, and each of them took a full cooldown. */
  lemma {:induction false} RulesStayInOrder(ts: seq<Timed>, rule: Rule, cooldown: int)
    requires Clocked(ts) && ts != [] && cooldown >= 0
    requires forall i :: 0 <= i < |ts| && ts[i].evaluation.rule == rule ==> ts[i].evaluation.cooldown == cooldown
    ensures var db := PersistAll(EMPTY_DB, ts);
            RuleOk(Trail(db.audit, rule), Lookup(db, rule), cooldown, ts[|ts| - 1].now)
  {
    var front, t := ts[..|ts| - 1], ts[|ts| - 1];
    var db := PersistAll(EMPTY_DB, front);
    var before := if front == [] then t.now else front[|front| - 1].now;
    if front != [] {
      RulesStayInOrder(front, rule, cooldown);
    }
    var trail := Trail(db.audit, rule);
    assert RuleOk(trail, Lookup(db, rule), cooldown, before);
    var (row, event) := Transition(Lookup(db, t.evaluation.rule), t.evaluation, t.now);
    if event.Some? {
      TrailExtends(db.audit, Emitted(t.evaluation.rule, event.value, t.now), rule);
    }
    if t.evaluation.rule == rule {
      TransitionKeepsRule(trail, Lookup(db, rule), cooldown, before, t);
    }
  }

  lemma SuppressionsTakeCooldowns(ts: seq<Timed>, rule: Rule, cooldown: int)
    requires Clocked(ts) && cooldown >= 0
    requires forall i :: 0 <= i < |ts| && ts[i].evaluation.rule == rule ==> ts[i].evaluation.cooldown == cooldown
    requires rule in PersistAll(EMPTY_DB, ts).rows && Trail(PersistAll(EMPTY_DB, ts).audit, rule) != []
    ensures var db := PersistAll(EMPTY_DB, ts);
            var trail, row := Trail(db.audit, rule), db.rows[rule];
            && WellBracketed(trail)
            && Count(trail, Opened) - Count(trail, Recovered) == (if Active(db, rule) then 1 else 0)
            && row.suppressedCount == Count(trail, Suppressed)
            && row.lastTriggered.Some?
            && row.suppressedCount * cooldown <= row.lastTriggered.value - trail[0].now
  {
    RulesStayInOrder(ts, rule, cooldown);
    CooldownsMultiply(PersistAll(EMPTY_DB, ts).rows[rule].suppressedCount, cooldown);
  }
}
