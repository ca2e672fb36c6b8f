/** Batches of alert evaluations running concurrently. Each batch is one transaction; it reads a rule's row with a lock,
    which locks only a row that exists, works out the transition, and upserts the row. */
module AlertRaces {
  import opened Common
  import opened Alerts

  type BatchId = nat

  /** Where a batch stands with its next evaluation. A blind decision was made on a rule it found without a row. */
  datatype Pc = Ready | HasRead(read: Option<AlertRow>) | HasDecided(read: Option<AlertRow>, at: int)

  /** `rows` and `events` are what it has written and not committed. */
  datatype Batch = Batch(todo: seq<Evaluation>, pc: Pc, rows: map<Rule, AlertRow>, events: seq<Emitted>, over: bool)

  /** A rule's lock is held from the first locking read or write of its row until the batch ends. */
  datatype Sys = Sys(db: Db, now: int, locks: map<Rule, BatchId>, batches: map<BatchId, Batch>)

  datatype Step =
    | Begin(b: BatchId, todo: seq<Evaluation>)
    | Read(b: BatchId)
    | Decide(b: BatchId)
    | Write(b: BatchId)
    | Commit(b: BatchId)
    | Abort(b: BatchId)
    | Tick(seconds: nat)

  const START := Sys(EMPTY_DB, 0, map[], map[])

  predicate Free(s: Sys, rule: Rule, b: BatchId) {
    rule in s.locks ==> s.locks[rule] == b
  }

  /** A batch sees its own writes and what is committed. */
  function RowSeen(s: Sys, b: BatchId, rule: Rule): Option<AlertRow>
    requires b in s.batches
  {
    if rule in s.batches[b].rows then Some(s.batches[b].rows[rule]) else Lookup(s.db, rule)
  }

  predicate Working(s: Sys, b: BatchId) {
    b in s.batches && !s.batches[b].over
  }

  function Unlocked(locks: map<Rule, BatchId>, b: BatchId): map<Rule, BatchId> {
    map rule | rule in locks && locks[rule] != b :: locks[rule]
  }

  function Ended(batch: Batch): Batch {
    Batch([], Ready, map[], [], true)
  }

  function Extend(events: seq<Emitted>, rule: Rule, event: Option<EventType>, at: int): seq<Emitted> {
    if event.Some? then events + [Emitted(rule, event.value, at)] else events
  }

  /** The batch after its upsert. */
  function Written(batch: Batch): Batch
    requires batch.todo != [] && batch.pc.HasDecided?
  {
    var e := batch.todo[0];
    var (row, event) := Transition(batch.pc.read, e, batch.pc.at);
    batch.(todo := batch.todo[1..], pc := Ready, rows := batch.rows[e.rule := row],
           events := Extend(batch.events, e.rule, event, batch.pc.at))
  }

  predicate CanWrite(s: Sys, b: BatchId) {
    Working(s, b) && s.batches[b].todo != [] && s.batches[b].pc.HasDecided? && Free(s, s.batches[b].todo[0].rule, b)
  }

  /** A step the database would block, or that is not the batch's next one, changes nothing. */
  function Next(s: Sys, step: Step): Sys {
    match step
    case Begin(b, todo) =>
      if b in s.batches then s else s.(batches := s.batches[b := Batch(todo, Ready, map[], [], false)])
    case Read(b) =>
      if !Working(s, b) || s.batches[b].todo == [] || !s.batches[b].pc.Ready? then s
      else
        var rule := s.batches[b].todo[0].rule;
        var seen := RowSeen(s, b, rule);
        if seen.None? then s.(batches := s.batches[b := s.batches[b].(pc := HasRead(None))])
        else if !Free(s, rule, b) then s
        else s.(locks := s.locks[rule := b], batches := s.batches[b := s.batches[b].(pc := HasRead(seen))])
    case Decide(b) =>
      if !Working(s, b) || !s.batches[b].pc.HasRead? then s
      else s.(batches := s.batches[b := s.batches[b].(pc := HasDecided(s.batches[b].pc.read, s.now))])
    case Write(b) =>
      if !CanWrite(s, b) then s
      else s.(locks := s.locks[s.batches[b].todo[0].rule := b], batches := s.batches[b := Written(s.batches[b])])
    case Commit(b) =>
      if !Working(s, b) || s.batches[b].todo != [] then s
      else
        s.(db := Db(s.db.rows + s.batches[b].rows, s.db.audit + s.batches[b].events),
           locks := Unlocked(s.locks, b), batches := s.batches[b := Ended(s.batches[b])])
    case Abort(b) =>
      if !Working(s, b) then s
      else s.(locks := Unlocked(s.locks, b), batches := s.batches[b := Ended(s.batches[b])])
    case Tick(seconds) => s.(now := s.now + seconds)
  }

  function After(steps: seq<Step>): Sys {
    if steps == [] then START else Next(After(steps[..|steps| - 1]), steps[|steps| - 1])
  }

  // ---- What it means for a rule to be in order

  /** The event language alone: well bracketed, open exactly while the row is unhealthy, openings one ahead of
      recoveries exactly then. */
  ghost predicate BracketsOk(trail: seq<Emitted>, row: Option<AlertRow>) {
    && WellBracketed(trail)
    && (row.None? ==> trail == [])
    && (row.Some? ==> row.value.severity == row.value.status && (OpenTail(trail) <==> row.value.status != Healthy))
    && Count(trail, Opened) - Count(trail, Recovered) == (if OpenTail(trail) then 1 else 0)
  }

  /** `full` asks for the row's counters and times as well. */
  ghost predicate InOrder(full: bool, trail: seq<Emitted>, row: Option<AlertRow>, cooldown: int, now: int) {
    if full then RuleOk(trail, row, cooldown, now) else BracketsOk(trail, row)
  }

  function TrailFor(s: Sys, b: BatchId, rule: Rule): seq<Emitted>
    requires b in s.batches
  {
    Trail(s.db.audit, rule) + Trail(s.batches[b].events, rule)
  }

  ghost predicate Holds(s: Sys, b: BatchId, rule: Rule) {
    rule in s.locks && s.locks[rule] == b && b in s.batches
  }

  /** The rule is in order as the audit log and the alert rows have it committed. */
  ghost predicate CommittedInOrder(s: Sys, rule: Rule, full: bool, cooldown: int) {
    InOrder(full, Trail(s.db.audit, rule), Lookup(s.db, rule), cooldown, s.now)
  }

  /** The rule is in order as the batch sees it. */
  ghost predicate ViewInOrder(s: Sys, b: BatchId, rule: Rule, full: bool, cooldown: int)
    requires b in s.batches
  {
    InOrder(full, TrailFor(s, b, rule), RowSeen(s, b, rule), cooldown, s.now)
  }

  /** The rule is in order as committed, and as the batch holding its lock sees it. */
  ghost predicate RuleInOrder(s: Sys, rule: Rule, full: bool, cooldown: int) {
    && CommittedInOrder(s, rule, full, cooldown)
    && forall b :: Holds(s, b, rule) ==> ViewInOrder(s, b, rule, full, cooldown)
  }

  /** Writing a transition worked out without a row over this row and trail does no harm. */
  predicate Harmless(full: bool, trail: seq<Emitted>, row: Option<AlertRow>, e: Evaluation, at: int) {
    row.Some? ==>
      && row.value.status == Healthy
      && (full ==> trail == [] || (e.severity != Healthy && row.value.suppressedCount == 0 && trail[0].now <= at))
  }

  /** The step upserts the rule's row from a transition worked out when the rule had none, and does harm. */
  predicate Harms(s: Sys, step: Step, rule: Rule, full: bool) {
    && step.Write? && CanWrite(s, step.b)
    && var batch := s.batches[step.b];
       batch.todo[0].rule == rule && batch.pc.read.None? &&
       !Harmless(full, Trail(s.db.audit, rule), Lookup(s.db, rule), batch.todo[0], batch.pc.at)
  }

  // ---- What every run keeps

  /** What one batch may have of a rule, and what its decision rests on. */
  ghost predicate BatchOk(s: Sys, b: BatchId, rule: Rule)
    requires b in s.batches
  {
    var batch := s.batches[b];
    && (rule in batch.rows || Trail(batch.events, rule) != [] ==> Holds(s, b, rule))
    && (rule !in batch.rows ==> Trail(batch.events, rule) == [])
    && (batch.over ==> !Holds(s, b, rule))
    && (!batch.pc.Ready? ==> batch.todo != [])
    && (batch.pc.HasDecided? ==> batch.pc.at <= s.now)
    && (!batch.pc.Ready? && batch.todo[0].rule == rule ==>
          if batch.pc.read.None? then rule !in batch.rows
          else Holds(s, b, rule) && RowSeen(s, b, rule) == batch.pc.read)
  }

  ghost predicate Kept(s: Sys, rule: Rule) {
    && (forall b :: b in s.batches ==> BatchOk(s, b, rule))
    && (rule in s.locks ==> s.locks[rule] in s.batches)
  }

  /** A decision made on a locked row was made when the rule was in order. */
  ghost predicate DecisionOk(s: Sys, b: BatchId, rule: Rule, full: bool, cooldown: int)
    requires b in s.batches
  {
    var batch := s.batches[b];
    && (full ==> forall e :: e in batch.todo && e.rule == rule ==> e.cooldown == cooldown)
    && (batch.pc.HasDecided? && batch.todo != [] && batch.todo[0].rule == rule && batch.pc.read.Some? ==>
          InOrder(full, TrailFor(s, b, rule), RowSeen(s, b, rule), cooldown, batch.pc.at))
  }

  ghost predicate DecisionsOk(s: Sys, rule: Rule, full: bool, cooldown: int) {
    forall b :: b in s.batches ==> DecisionOk(s, b, rule, full, cooldown)
  }

  lemma {:induction false} TrailConcat(a: seq<Emitted>, b: seq<Emitted>, rule: Rule)
    ensures Trail(a + b, rule) == Trail(a, rule) + Trail(b, rule)
  {
    if b == [] {
      assert a + b == a;
    } else {
      TrailConcat(a, b[..|b| - 1], rule);
      assert (a + b)[..|a + b| - 1] == a + b[..|b| - 1];
    }
  }

  lemma TrailOne(events: seq<Emitted>, e: Emitted, rule: Rule)
    ensures Trail(events + [e], rule) == if e.rule == rule then Trail(events, rule) + [e] else Trail(events, rule)
  {
    TrailExtends(events, e, rule);
  }

  // ---- One transition

  lemma BracketsStep(trail: seq<Emitted>, row: Option<AlertRow>, e: Evaluation, at: int)
    requires BracketsOk(trail, row)
    ensures var (row', event) := Transition(row, e, at);
            BracketsOk(Extend(trail, e.rule, event, at), Some(row'))
  {
    NoEvents();
    hide WellBracketed, Count;
    var event := Transition(row, e, at).1;
    if event.Some? {
      var last := Emitted(e.rule, event.value, at);
      CountExtends(trail, last, Opened);
      CountExtends(trail, last, Recovered);
      BracketExtends(trail, last);
    }
  }

  /** A transition worked out on the rule's own row keeps the rule in order. */
  lemma OwnTransition(full: bool, trail: seq<Emitted>, row: Option<AlertRow>, e: Evaluation, cooldown: int, at: int)
    requires InOrder(full, trail, row, cooldown, at) && (full ==> e.cooldown == cooldown >= 0)
    ensures var (row', event) := Transition(row, e, at);
            InOrder(full, Extend(trail, e.rule, event, at), Some(row'), cooldown, at)
  {
    hide RuleOk, BracketsOk, Transition;
    if full {
      TransitionKeepsRule(trail, row, cooldown, at, Timed(at, e));
    } else {
      BracketsStep(trail, row, e, at);
    }
  }

  lemma LaterIsInOrder(full: bool, trail: seq<Emitted>, row: Option<AlertRow>, cooldown: int, now: int, later: int)
    requires InOrder(full, trail, row, cooldown, now) && now <= later
    ensures InOrder(full, trail, row, cooldown, later)
  {
    hide WellBracketed, Count, Cooldowns;
  }

  lemma NoCooldowns(cooldown: int)
    ensures Cooldowns(0, cooldown) == 0
  {
  }

  lemma BlindHealthy(full: bool, trail: seq<Emitted>, row: Option<AlertRow>, e: Evaluation, cooldown: int, at: int,
                     now: int)
    requires InOrder(full, trail, row, cooldown, now) && at <= now && e.severity == Healthy
    ensures InOrder(full, trail, Some(Transition(None, e, at).0), cooldown, now) <==> Harmless(full, trail, row, e, at)
    ensures Transition(None, e, at).1 == None
  {
    hide WellBracketed, Count;
    NoCooldowns(cooldown);
    NoEvents();
    hide Cooldowns;
  }

  lemma BlindUnhealthy(full: bool, trail: seq<Emitted>, row: Option<AlertRow>, e: Evaluation, cooldown: int, at: int,
                       now: int)
    requires InOrder(full, trail, row, cooldown, now) && at <= now && e.severity != Healthy
    ensures Transition(None, e, at).1 == Some(Opened)
    ensures InOrder(full, trail + [Emitted(e.rule, Opened, at)], Some(Transition(None, e, at).0), cooldown, now) <==>
            Harmless(full, trail, row, e, at)
  {
    var last := Emitted(e.rule, Opened, at);
    var longer := trail + [last];
    NoCooldowns(cooldown);
    NoEvents();
    CountExtends(trail, last, Opened);
    CountExtends(trail, last, Recovered);
    CountExtends(trail, last, Suppressed);
    assert longer[|longer| - 1] == last && longer[0] == if trail == [] then last else trail[0];
    if OpenTail(trail) {
      assert !BracketAt(longer, |trail|);
    } else {
      BracketExtends(trail, last);
    }
    hide Count, WellBracketed, Cooldowns;
  }

  /** A transition worked out without a row, written over whatever is there now, keeps the rule in order exactly when
      that does no harm. */
  lemma BlindTransitionExactlyWhen(full: bool, trail: seq<Emitted>, row: Option<AlertRow>, e: Evaluation, cooldown: int,
                                   at: int, now: int)
    requires InOrder(full, trail, row, cooldown, now) && at <= now
    ensures var (row', event) := Transition(None, e, at);
            InOrder(full, Extend(trail, e.rule, event, at), Some(row'), cooldown, now) <==>
            Harmless(full, trail, row, e, at)
  {
    hide InOrder, Harmless, Transition;
    if e.severity == Healthy {
      BlindHealthy(full, trail, row, e, cooldown, at, now);
    } else {
      BlindUnhealthy(full, trail, row, e, cooldown, at, now);
    }
  }

  // ---- One step of the machine

  lemma EventsOfOther(events: seq<Emitted>, other: Rule, event: Option<EventType>, at: int, rule: Rule)
    requires rule != other
    ensures Trail(Extend(events, other, event, at), rule) == Trail(events, rule)
  {
    if event.Some? {
      TrailOne(events, Emitted(other, event.value, at), rule);
    }
  }

  lemma EventsOfOwn(events: seq<Emitted>, rule: Rule, event: Option<EventType>, at: int)
    ensures Trail(Extend(events, rule, event, at), rule) == Extend(Trail(events, rule), rule, event, at)
  {
    if event.Some? {
      TrailOne(events, Emitted(rule, event.value, at), rule);
    }
  }

  lemma NoTrail(rule: Rule)
    ensures Trail([], rule) == []
  {
  }

  /** Facts about batch b survive a step that leaves it, its rule's lock, and what is committed of the rule alone. */
  lemma BystanderOk(s: Sys, t: Sys, b: BatchId, rule: Rule)
    requires b in s.batches && b in t.batches && t.batches[b] == s.batches[b] && BatchOk(s, b, rule)
    requires s.now <= t.now && (Holds(s, b, rule) ==> Holds(t, b, rule)) && (s.batches[b].over ==> !Holds(t, b, rule))
    requires Holds(s, b, rule) ==> Lookup(t.db, rule) == Lookup(s.db, rule)
    ensures BatchOk(t, b, rule)
  {
    hide Trail, Lookup;
  }

  lemma WrittenOk(s: Sys, b: BatchId, rule: Rule)
    requires Kept(s, rule) && CanWrite(s, b)
    ensures BatchOk(Next(s, Write(b)), b, rule)
  {
    hide Trail, Transition;
    var batch := s.batches[b];
    var e := batch.todo[0];
    assert BatchOk(s, b, rule);
    var (row, event) := Transition(batch.pc.read, e, batch.pc.at);
    if e.rule != rule {
      EventsOfOther(batch.events, e.rule, event, batch.pc.at, rule);
    }
  }

  lemma WriteKeeps(s: Sys, b: BatchId, rule: Rule)
    requires Kept(s, rule) && CanWrite(s, b)
    ensures Kept(Next(s, Write(b)), rule)
  {
    hide Transition, Written, Trail;
    var t := Next(s, Write(b));
    WrittenOk(s, b, rule);
    forall c | c in s.batches && c != b ensures BatchOk(t, c, rule) {
      assert BatchOk(s, c, rule) && BatchOk(s, b, rule);
      BystanderOk(s, t, c, rule);
    }
  }

  lemma EndKeeps(s: Sys, step: Step, rule: Rule)
    requires Kept(s, rule) && (step.Commit? || step.Abort?)
    ensures Kept(Next(s, step), rule)
  {
    var t := Next(s, step);
    NoTrail(rule);
    if Working(s, step.b) {
      forall c | c in s.batches && c != step.b ensures BatchOk(t, c, rule) {
        assert BatchOk(s, c, rule) && BatchOk(s, step.b, rule);
        hide Trail;
        BystanderOk(s, t, c, rule);
      }
    }
  }

  lemma ReadKeeps(s: Sys, step: Step, rule: Rule)
    requires Kept(s, rule) && (step.Read? || step.Decide?)
    ensures Kept(Next(s, step), rule)
  {
    hide Trail, Lookup;
    var t := Next(s, step);
    if t != s {
      forall c | c in s.batches && c != step.b ensures BatchOk(t, c, rule) {
        assert BatchOk(s, c, rule) && BatchOk(s, step.b, rule);
        BystanderOk(s, t, c, rule);
      }
      assert BatchOk(s, step.b, rule);
    }
  }

  lemma BeginKeeps(s: Sys, step: Step, rule: Rule)
    requires Kept(s, rule) && (step.Begin? || step.Tick?)
    ensures Kept(Next(s, step), rule)
  {
    NoTrail(rule);
    hide Trail, Lookup;
    var t := Next(s, step);
    forall c | c in s.batches ensures BatchOk(t, c, rule) {
      assert BatchOk(s, c, rule);
      BystanderOk(s, t, c, rule);
    }
  }

  lemma StepKeeps(s: Sys, step: Step, rule: Rule)
    requires Kept(s, rule)
    ensures Kept(Next(s, step), rule)
  {
    hide Kept, Next, CanWrite;
    match step
    case Begin(_, _) => BeginKeeps(s, step, rule);
    case Tick(_) => BeginKeeps(s, step, rule);
    case Read(_) => ReadKeeps(s, step, rule);
    case Decide(_) => ReadKeeps(s, step, rule);
    case Commit(_) => EndKeeps(s, step, rule);
    case Abort(_) => EndKeeps(s, step, rule);
    case Write(b) =>
      if CanWrite(s, b) {
        WriteKeeps(s, b, rule);
      } else {
        BlockedWrite(s, b);
      }
  }

  lemma BlockedWrite(s: Sys, b: BatchId)
    requires !CanWrite(s, b)
    ensures Next(s, Write(b)) == s
  {
  }

  // ---- Order, step by step

  /** What the writing batch sees of the rule afterwards. */
  lemma WrittenView(s: Sys, b: BatchId, rule: Rule)
    requires Kept(s, rule) && CanWrite(s, b) && s.batches[b].todo[0].rule == rule
    ensures var t, batch := Next(s, Write(b)), s.batches[b];
            var (row, event) := Transition(batch.pc.read, batch.todo[0], batch.pc.at);
            && Holds(t, b, rule) && RowSeen(t, b, rule) == Some(row) && t.now == s.now && t.db == s.db
            && TrailFor(t, b, rule) == Extend(TrailFor(s, b, rule), rule, event, batch.pc.at)
    ensures s.batches[b].pc.read.None? ==>
              RowSeen(s, b, rule) == Lookup(s.db, rule) && TrailFor(s, b, rule) == Trail(s.db.audit, rule)
  {
    hide Transition, Trail, Lookup;
    var batch := s.batches[b];
    assert BatchOk(s, b, rule);
    EventsOfOwn(batch.events, rule, Transition(batch.pc.read, batch.todo[0], batch.pc.at).1, batch.pc.at);
  }

  /** The writing batch's view stays in order exactly when the write does no harm. */
  lemma WriteViewExactlyWhen(s: Sys, b: BatchId, rule: Rule, full: bool, cooldown: int)
    requires Kept(s, rule) && CanWrite(s, b) && s.batches[b].todo[0].rule == rule && (full ==> cooldown >= 0)
    requires CommittedInOrder(s, rule, full, cooldown) && DecisionOk(s, b, rule, full, cooldown)
    ensures var t := Next(s, Write(b));
            b in t.batches &&
            (InOrder(full, TrailFor(t, b, rule), RowSeen(t, b, rule), cooldown, t.now) <==> !Harms(s, Write(b), rule, full))
  {
    hide InOrder, Harmless, Transition, Next, TrailFor, RowSeen, Trail, Lookup;
    var batch, t := s.batches[b], Next(s, Write(b));
    var e, at := batch.todo[0], batch.pc.at;
    WrittenView(s, b, rule);
    assert BatchOk(s, b, rule);
    if batch.pc.read.None? {
      BlindTransitionExactlyWhen(full, Trail(s.db.audit, rule), Lookup(s.db, rule), e, cooldown, at, s.now);
    } else {
      var (row, event) := Transition(batch.pc.read, e, at);
      OwnTransition(full, TrailFor(s, b, rule), batch.pc.read, e, cooldown, at);
      LaterIsInOrder(full, Extend(TrailFor(s, b, rule), rule, event, at), Some(row), cooldown, at, s.now);
    }
  }

  /** Writing another rule's row leaves this rule as the batch sees it. */
  lemma OtherWriteView(s: Sys, b: BatchId, rule: Rule)
    requires CanWrite(s, b) && s.batches[b].todo[0].rule != rule
    ensures var t := Next(s, Write(b));
            && t.db == s.db && t.now == s.now && b in t.batches
            && RowSeen(t, b, rule) == RowSeen(s, b, rule) && TrailFor(t, b, rule) == TrailFor(s, b, rule)
            && (forall c :: Holds(t, c, rule) <==> Holds(s, c, rule))
  {
    hide Transition, Trail;
    var batch := s.batches[b];
    EventsOfOther(batch.events, batch.todo[0].rule, Transition(batch.pc.read, batch.todo[0], batch.pc.at).1,
                  batch.pc.at, rule);
  }

  lemma WriteInOrderExactlyWhen(s: Sys, b: BatchId, rule: Rule, full: bool, cooldown: int)
    requires Kept(s, rule) && RuleInOrder(s, rule, full, cooldown) && DecisionsOk(s, rule, full, cooldown)
    requires CanWrite(s, b) && (full ==> cooldown >= 0)
    ensures RuleInOrder(Next(s, Write(b)), rule, full, cooldown) <==> !Harms(s, Write(b), rule, full)
  {
    hide InOrder, Harmless, Trail, Written;
    var t := Next(s, Write(b));
    if s.batches[b].todo[0].rule == rule {
      WriteViewExactlyWhen(s, b, rule, full, cooldown);
      assert Holds(t, b, rule);
    } else {
      OtherWriteView(s, b, rule);
    }
  }

  /** A commit publishes the holder's view; a commit of a batch that does not hold the rule leaves it alone. */
  lemma CommitView(s: Sys, b: BatchId, rule: Rule)
    requires Kept(s, rule) && Working(s, b) && s.batches[b].todo == []
    ensures var t := Next(s, Commit(b));
            && t.now == s.now && !Holds(t, b, rule)
            && Lookup(t.db, rule) == RowSeen(s, b, rule) && Trail(t.db.audit, rule) == TrailFor(s, b, rule)
            && (!Holds(s, b, rule) ==> RowSeen(s, b, rule) == Lookup(s.db, rule) &&
                                       TrailFor(s, b, rule) == Trail(s.db.audit, rule))
  {
    assert BatchOk(s, b, rule);
    TrailConcat(s.db.audit, s.batches[b].events, rule);
  }

  lemma CommitInOrder(s: Sys, b: BatchId, rule: Rule, full: bool, cooldown: int)
    requires Kept(s, rule) && RuleInOrder(s, rule, full, cooldown)
    ensures RuleInOrder(Next(s, Commit(b)), rule, full, cooldown)
  {
    hide InOrder, Trail, Lookup;
    var t := Next(s, Commit(b));
    if t != s {
      CommitView(s, b, rule);
      forall c | Holds(t, c, rule)
        ensures InOrder(full, TrailFor(t, c, rule), RowSeen(t, c, rule), cooldown, t.now)
      {
        assert Holds(s, c, rule) && c != b;
      }
    }
  }

  lemma QuietInOrder(s: Sys, step: Step, rule: Rule, full: bool, cooldown: int)
    requires Kept(s, rule) && RuleInOrder(s, rule, full, cooldown)
    requires step.Begin? || step.Read? || step.Decide? || step.Abort?
    ensures RuleInOrder(Next(s, step), rule, full, cooldown)
  {
    hide InOrder, Trail, Lookup;
    var t := Next(s, step);
    assert t.db == s.db && t.now == s.now;
    forall c | Holds(t, c, rule)
      ensures InOrder(full, TrailFor(t, c, rule), RowSeen(t, c, rule), cooldown, t.now)
    {
      assert c in s.batches;
      assert BatchOk(s, c, rule);
      assert TrailFor(t, c, rule) == TrailFor(s, c, rule) && RowSeen(t, c, rule) == RowSeen(s, c, rule);
      if !Holds(s, c, rule) {
        assert TrailFor(s, c, rule) == Trail(s.db.audit, rule);
      }
    }
  }

  lemma TickInOrder(s: Sys, step: Step, rule: Rule, full: bool, cooldown: int)
    requires RuleInOrder(s, rule, full, cooldown) && step.Tick?
    ensures RuleInOrder(Next(s, step), rule, full, cooldown)
  {
    hide InOrder, Trail, Lookup;
    var t := Next(s, step);
    LaterIsInOrder(full, Trail(s.db.audit, rule), Lookup(s.db, rule), cooldown, s.now, t.now);
    forall c | Holds(t, c, rule)
      ensures InOrder(full, TrailFor(t, c, rule), RowSeen(t, c, rule), cooldown, t.now)
    {
      assert Holds(s, c, rule);
      LaterIsInOrder(full, TrailFor(s, c, rule), RowSeen(s, c, rule), cooldown, s.now, t.now);
    }
  }

  /** From an orderly state, a step keeps the rule in order exactly when it does no harm. */
  lemma StepInOrderExactlyWhen(s: Sys, step: Step, rule: Rule, full: bool, cooldown: int)
    requires Kept(s, rule) && RuleInOrder(s, rule, full, cooldown) && DecisionsOk(s, rule, full, cooldown)
    requires full ==> cooldown >= 0
    ensures RuleInOrder(Next(s, step), rule, full, cooldown) <==> !Harms(s, step, rule, full)
  {
    hide Kept, RuleInOrder, DecisionsOk, Next, CanWrite;
    match step
    case Write(b) =>
      if CanWrite(s, b) {
        WriteInOrderExactlyWhen(s, b, rule, full, cooldown);
      } else {
        BlockedWrite(s, b);
      }
    case Commit(b) => CommitInOrder(s, b, rule, full, cooldown);
    case Tick(_) => TickInOrder(s, step, rule, full, cooldown);
    case _ => QuietInOrder(s, step, rule, full, cooldown);
  }

  // ---- Every run

  /** Evaluations of the rule bring its policy's cooldown. */
  predicate ByPolicy(step: Step, rule: Rule, full: bool, cooldown: int) {
    step.Begin? && full ==> forall e :: e in step.todo && e.rule == rule ==> e.cooldown == cooldown
  }

  lemma OwnDecision(s: Sys, step: Step, rule: Rule, full: bool, cooldown: int)
    requires Kept(s, rule) && !step.Tick? && step.b in s.batches && DecisionOk(s, step.b, rule, full, cooldown)
    requires Holds(s, step.b, rule) ==> ViewInOrder(s, step.b, rule, full, cooldown)
    ensures step.b in Next(s, step).batches && DecisionOk(Next(s, step), step.b, rule, full, cooldown)
  {
    hide InOrder, Trail, Lookup, Transition;
    assert BatchOk(s, step.b, rule);
  }

  /** A step of another batch leaves what a decision on a locked row rests on. */
  lemma OtherDecision(s: Sys, step: Step, c: BatchId, rule: Rule, full: bool, cooldown: int)
    requires Kept(s, rule) && c in s.batches && DecisionOk(s, c, rule, full, cooldown)
    requires step.Tick? || step.b != c
    ensures c in Next(s, step).batches && DecisionOk(Next(s, step), c, rule, full, cooldown)
  {
    hide InOrder, Transition;
    assert BatchOk(s, c, rule);
    if step.Commit? && Working(s, step.b) && s.batches[step.b].todo == [] && Holds(s, c, rule) {
      assert BatchOk(s, step.b, rule);
      CommitView(s, step.b, rule);
    }
    hide Trail, Lookup;
  }

  lemma DecisionsStayOk(s: Sys, step: Step, rule: Rule, full: bool, cooldown: int)
    requires Kept(s, rule) && RuleInOrder(s, rule, full, cooldown) && DecisionsOk(s, rule, full, cooldown)
    requires ByPolicy(step, rule, full, cooldown)
    ensures DecisionsOk(Next(s, step), rule, full, cooldown)
  {
    hide InOrder, Trail, Lookup, Transition;
    forall c | c in Next(s, step).batches ensures DecisionOk(Next(s, step), c, rule, full, cooldown) {
      if c !in s.batches {
        assert step == Begin(c, step.todo);
      } else if step.Tick? || step.b != c {
        OtherDecision(s, step, c, rule, full, cooldown);
      } else {
        OwnDecision(s, step, rule, full, cooldown);
      }
    }
  }

  lemma {:induction false} KeptAlways(steps: seq<Step>, rule: Rule)
    ensures Kept(After(steps), rule)
  {
    hide Next;
    if steps != [] {
      KeptAlways(steps[..|steps| - 1], rule);
      StepKeeps(After(steps[..|steps| - 1]), steps[|steps| - 1], rule);
    }
  }

  ghost predicate AlwaysInOrder(steps: seq<Step>, rule: Rule, full: bool, cooldown: int) {
    forall k :: 0 <= k <= |steps| ==> RuleInOrder(After(steps[..k]), rule, full, cooldown)
  }

  ghost predicate NeverHarmed(steps: seq<Step>, rule: Rule, full: bool) {
    forall k :: 0 <= k < |steps| ==> !Harms(After(steps[..k]), steps[k], rule, full)
  }

  ghost predicate AllByPolicy(steps: seq<Step>, rule: Rule, full: bool, cooldown: int) {
    forall k :: 0 <= k < |steps| ==> ByPolicy(steps[k], rule, full, cooldown)
  }

  lemma PrefixFacts(steps: seq<Step>, rule: Rule, full: bool, cooldown: int)
    requires steps != []
    ensures var front, last := steps[..|steps| - 1], steps[|steps| - 1];
            && (AlwaysInOrder(steps, rule, full, cooldown) <==>
                AlwaysInOrder(front, rule, full, cooldown) && RuleInOrder(After(steps), rule, full, cooldown))
            && (NeverHarmed(steps, rule, full) <==>
                NeverHarmed(front, rule, full) && !Harms(After(front), last, rule, full))
  {
    hide After, RuleInOrder, Harms;
    var front := steps[..|steps| - 1];
    assert steps[..|steps|] == steps && front[..|front|] == front;
    assert forall k :: 0 <= k <= |front| ==> front[..k] == steps[..k];
    assert forall k :: 0 <= k < |front| ==> front[k] == steps[k];
  }

  lemma StartsInOrder(rule: Rule, full: bool, cooldown: int)
    ensures RuleInOrder(After([]), rule, full, cooldown) && DecisionsOk(After([]), rule, full, cooldown)
  {
    NoEvents();
    NoCooldowns(cooldown);
    hide Count, WellBracketed, Cooldowns;
  }

  lemma {:induction false} InOrderWhileUnharmed(steps: seq<Step>, rule: Rule, full: bool, cooldown: int)
    requires AllByPolicy(steps, rule, full, cooldown) && (full ==> cooldown >= 0)
    ensures AlwaysInOrder(steps, rule, full, cooldown) <==> NeverHarmed(steps, rule, full)
    ensures AlwaysInOrder(steps, rule, full, cooldown) ==>
              RuleInOrder(After(steps), rule, full, cooldown) && DecisionsOk(After(steps), rule, full, cooldown)
  {
    hide Next, RuleInOrder, DecisionsOk, Harms, Kept, AlwaysInOrder, NeverHarmed;
    if steps == [] {
      StartsInOrder(rule, full, cooldown);
      EmptyRun(rule, full, cooldown);
    } else {
      var front, last := steps[..|steps| - 1], steps[|steps| - 1];
      InOrderWhileUnharmed(front, rule, full, cooldown);
      PrefixFacts(steps, rule, full, cooldown);
      KeptAlways(front, rule);
      if AlwaysInOrder(front, rule, full, cooldown) {
        StepInOrderExactlyWhen(After(front), last, rule, full, cooldown);
        DecisionsStayOk(After(front), last, rule, full, cooldown);
      }
    }
  }

  lemma EmptyRun(rule: Rule, full: bool, cooldown: int)
    requires RuleInOrder(After([]), rule, full, cooldown)
    ensures AlwaysInOrder([], rule, full, cooldown) && NeverHarmed([], rule, full)
  {
    hide RuleInOrder;
    var none: seq<Step> := [];
    assert none[..0] == none;
  }

  /** The step overwrites an unhealthy row of the rule with a transition worked out when the rule had no row. */
  predicate OverwritesUnhealthy(s: Sys, step: Step, rule: Rule) {
    && step.Write? && CanWrite(s, step.b)
    && s.batches[step.b].todo[0].rule == rule && s.batches[step.b].pc.read.None?
    && rule in s.db.rows && s.db.rows[rule].status != Healthy
  }

  /** In every interleaving of batches a rule's events stay well bracketed, and open exactly while its row is unhealthy,
      both as committed and as the holder of its lock sees them, exactly when no batch overwrites an unhealthy row of
      the rule that it had read as absent. */
  lemma BracketsStayExactlyWhen(steps: seq<Step>, rule: Rule)
    ensures AlwaysInOrder(steps, rule, false, 0) <==>
            forall k :: 0 <= k < |steps| ==> !OverwritesUnhealthy(After(steps[..k]), steps[k], rule)
  {
    hide After, AlwaysInOrder, CanWrite;
    InOrderWhileUnharmed(steps, rule, false, 0);
    forall k | 0 <= k < |steps|
      ensures Harms(After(steps[..k]), steps[k], rule, false) <==> OverwritesUnhealthy(After(steps[..k]), steps[k], rule)
    {
    }
  }

  /** In the same two views the rule's counters and times stay right too exactly when no batch writes over a row it had
      read as absent that is unhealthy, or whose rule already has events, unless it opens a rule whose suppressions are
      still none and whose first event is no later. */
  lemma RulesStayInOrderExactlyWhen(steps: seq<Step>, rule: Rule, cooldown: int)
    requires AllByPolicy(steps, rule, true, cooldown) && cooldown >= 0
    ensures AlwaysInOrder(steps, rule, true, cooldown) <==> NeverHarmed(steps, rule, true)
  {
    InOrderWhileUnharmed(steps, rule, true, cooldown);
  }

  // ---- Two batches racing for a rule's first row

  function Both(db: Db, now: int, locks: map<Rule, BatchId>, x: Batch, y: Batch): Sys {
    Sys(db, now, locks, map[0 := x, 1 := y])
  }

  function Deciding(e: Evaluation, at: int): Batch {
    Batch([e], HasDecided(None, at), map[], [], false)
  }

  /** Both batches read the rule before either writes it. */
  function BothDecided(a: Evaluation, b: Evaluation, wait: nat): Sys {
    var begun := Next(Next(START, Begin(0, [a])), Begin(1, [b]));
    var read := Next(Next(begun, Read(0)), Read(1));
    Next(Next(Next(read, Decide(0)), Tick(wait)), Decide(1))
  }

  /** Then the first writes and commits, and the second, which waited for its lock, writes and commits. */
  function Raced(a: Evaluation, b: Evaluation, wait: nat): Sys {
    var first := Next(Next(BothDecided(a, b, wait), Write(0)), Commit(0));
    Next(Next(first, Write(1)), Commit(1))
  }

  lemma BothBegin(a: Evaluation, b: Evaluation)
    ensures Next(Next(START, Begin(0, [a])), Begin(1, [b])) ==
            Both(EMPTY_DB, 0, map[], Batch([a], Ready, map[], [], false), Batch([b], Ready, map[], [], false))
  {
    hide Transition;
  }

  lemma BothRead(a: Evaluation, b: Evaluation)
    ensures var x, y := Batch([a], Ready, map[], [], false), Batch([b], Ready, map[], [], false);
            Next(Next(Both(EMPTY_DB, 0, map[], x, y), Read(0)), Read(1)) ==
            Both(EMPTY_DB, 0, map[], x.(pc := HasRead(None)), y.(pc := HasRead(None)))
  {
    hide Transition;
    var x, y := Batch([a], Ready, map[], [], false), Batch([b], Ready, map[], [], false);
    assert Next(Both(EMPTY_DB, 0, map[], x, y), Read(0)) == Both(EMPTY_DB, 0, map[], x.(pc := HasRead(None)), y);
  }

  lemma BothDecide(a: Evaluation, b: Evaluation, wait: nat)
    ensures BothDecided(a, b, wait) == Both(EMPTY_DB, wait, map[], Deciding(a, 0), Deciding(b, wait))
  {
    hide Transition;
    BothBegin(a, b);
    BothRead(a, b);
    var x, y := Batch([a], HasRead(None), map[], [], false), Batch([b], HasRead(None), map[], [], false);
    assert Next(Next(Both(EMPTY_DB, 0, map[], x, y), Decide(0)), Tick(wait)) ==
      Both(EMPTY_DB, wait, map[], Deciding(a, 0), y);
  }

  function Done(e: Evaluation, at: int): Batch {
    var (row, event) := Transition(None, e, at);
    Batch([], Ready, map[e.rule := row], Extend([], e.rule, event, at), false)
  }

  lemma WritesOne(e: Evaluation, at: int)
    ensures Written(Deciding(e, at)) == Done(e, at)
  {
    hide Transition;
    assert [e][1..] == [];
  }

  lemma WriteAlone(db: Db, now: int, me: BatchId, e: Evaluation, at: int, others: map<BatchId, Batch>)
    ensures Next(Sys(db, now, map[], others[me := Deciding(e, at)]), Write(me)) ==
            Sys(db, now, map[e.rule := me], others[me := Done(e, at)])
  {
    hide Transition, Written, Done;
    WritesOne(e, at);
    assert others[me := Deciding(e, at)][me := Done(e, at)] == others[me := Done(e, at)];
  }

  lemma CommitAlone(db: Db, now: int, me: BatchId, e: Evaluation, at: int, others: map<BatchId, Batch>)
    ensures var (row, event) := Transition(None, e, at);
            Next(Sys(db, now, map[e.rule := me], others[me := Done(e, at)]), Commit(me)) ==
            Sys(Db(db.rows[e.rule := row], Extend(db.audit, e.rule, event, at)), now, map[],
                others[me := Ended(Deciding(e, at))])
  {
    var (row, event) := Transition(None, e, at);
    hide Transition;
    assert db.rows + map[e.rule := row] == db.rows[e.rule := row];
    assert db.audit + Extend([], e.rule, event, at) == Extend(db.audit, e.rule, event, at);
    assert Unlocked(map[e.rule := me], me) == map[];
    assert others[me := Done(e, at)][me := Ended(Done(e, at))] == others[me := Ended(Deciding(e, at))];
  }

  /** A batch with a free lock writes its one decision and commits it. */
  lemma WriteAndCommit(db: Db, now: int, me: BatchId, e: Evaluation, at: int, others: map<BatchId, Batch>)
    ensures var (row, event) := Transition(None, e, at);
            Next(Next(Sys(db, now, map[], others[me := Deciding(e, at)]), Write(me)), Commit(me)) ==
            Sys(Db(db.rows[e.rule := row], Extend(db.audit, e.rule, event, at)), now, map[],
                others[me := Ended(Deciding(e, at))])
  {
    hide Next, Transition, Done;
    WriteAlone(db, now, me, e, at, others);
    CommitAlone(db, now, me, e, at, others);
  }

  lemma RacedDb(a: Evaluation, b: Evaluation, wait: nat)
    requires a.rule == b.rule
    ensures var first, second := Transition(None, a, 0), Transition(None, b, wait);
            Raced(a, b, wait).now == wait &&
            Raced(a, b, wait).db == Db(map[a.rule := second.0],
                                       Extend(Extend([], a.rule, first.1, 0), a.rule, second.1, wait))
  {
    hide Transition, Next, Extend;
    var first, second := Transition(None, a, 0), Transition(None, b, wait);
    BothDecide(a, b, wait);
    WriteAndCommit(EMPTY_DB, wait, 0, a, 0, map[1 := Deciding(b, wait)]);
    var db := Db(map[a.rule := first.0], Extend([], a.rule, first.1, 0));
    assert EMPTY_DB.rows[a.rule := first.0] == db.rows;
    WriteAndCommit(db, wait, 1, b, wait, map[0 := Ended(Deciding(a, 0))]);
    var x, y := Ended(Deciding(a, 0)), Deciding(b, wait);
    assert map[1 := y][0 := x] == map[0 := x][1 := y];
    assert map[1 := y][0 := Deciding(a, 0)] == map[0 := Deciding(a, 0), 1 := y];
    assert db.rows[b.rule := second.0] == map[a.rule := second.0];
  }

  /** Two batches that both found a rule without a row, written one after the other, leave the rule in order exactly
      when the first one written found it healthy. */
  lemma FirstRowRaceExactlyWhen(a: Evaluation, b: Evaluation, wait: nat, cooldown: int)
    requires a.rule == b.rule && cooldown >= 0
    ensures var s := Raced(a, b, wait);
            RuleOk(Trail(s.db.audit, a.rule), Lookup(s.db, a.rule), cooldown, s.now) <==> a.severity == Healthy
  {
    hide Raced, RuleOk;
    var (rowA, eventA) := Transition(None, a, 0);
    var (rowB, eventB) := Transition(None, b, wait);
    var trail := Extend([], a.rule, eventA, 0);
    RacedDb(a, b, wait);
    NoTrail(a.rule);
    EventsOfOwn([], a.rule, eventA, 0);
    EventsOfOwn(trail, a.rule, eventB, wait);
    assert InOrder(true, [], None, cooldown, wait) by { NothingInOrder(cooldown, wait); }
    BlindTransitionExactlyWhen(true, [], None, a, cooldown, 0, wait);
    BlindTransitionExactlyWhen(true, trail, Some(rowA), b, cooldown, wait, wait);
  }

  lemma NothingInOrder(cooldown: int, now: int)
    ensures InOrder(true, [], None, cooldown, now)
  {
    NoEvents();
    hide Count, WellBracketed, Cooldowns;
  }
}
