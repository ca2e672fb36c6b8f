/** What concurrent alert batches leave in the audit log and the alert rows: a harmful write counts exactly when the
    batch that made it commits. */
module AlertCommits {
  import opened Common
  import opened Alerts
  import AlertRules
  import opened AlertRaces

  /** The step commits its batch. */
  predicate Commits(s: Sys, step: Step) {
    step.Commit? && Working(s, step.b) && s.batches[step.b].todo == []
  }

  /** A batch names the rule at most once, as a batch made from the deployed rules does. */
  predicate NamesOnce(todo: seq<Evaluation>, rule: Rule) {
    forall i, j :: 0 <= i < j < |todo| ==> todo[i].rule != rule || todo[j].rule != rule
  }

  predicate NotNamed(todo: seq<Evaluation>, rule: Rule) {
    forall i :: 0 <= i < |todo| ==> todo[i].rule != rule
  }

  predicate Once(step: Step, rule: Rule, full: bool) {
    step.Begin? && full ==> NamesOnce(step.todo, rule)
  }

  /** The batches that have made a harmful write. */
  function Harmed(steps: seq<Step>, rule: Rule, full: bool): set<BatchId> {
    if steps == [] then {}
    else
      var front, last := steps[..|steps| - 1], steps[|steps| - 1];
      Harmed(front, rule, full) + if Harms(After(front), last, rule, full) then {last.b} else {}
  }

  lemma {:induction false} HarmedMeans(steps: seq<Step>, rule: Rule, full: bool, b: BatchId)
    ensures b in Harmed(steps, rule, full) <==>
            exists k :: 0 <= k < |steps| && Harms(After(steps[..k]), steps[k], rule, full) && steps[k].b == b
  {
    hide After, Harms;
    if steps != [] {
      var front, last := steps[..|steps| - 1], steps[|steps| - 1];
      HarmedMeans(front, rule, full, b);
      assert forall k :: 0 <= k < |front| ==> front[k] == steps[k] && front[..k] == steps[..k];
    }
  }

  // ---- A view that no further write of its batch sets right

  /** For the event language: the trail is already ill bracketed, or the row is healthy over an open tail. For the whole
      row: out of order now and at any later time. */
  ghost predicate Ruined(full: bool, trail: seq<Emitted>, row: Option<AlertRow>, cooldown: int, now: int) {
    if full then forall later :: now <= later ==> !RuleOk(trail, row, cooldown, later)
    else
      || !WellBracketed(trail)
      || (row.Some? && row.value.status == Healthy && row.value.severity == Healthy && OpenTail(trail))
  }

  lemma RuinedIsOutOfOrder(full: bool, trail: seq<Emitted>, row: Option<AlertRow>, cooldown: int, now: int)
    requires Ruined(full, trail, row, cooldown, now)
    ensures !InOrder(full, trail, row, cooldown, now)
  {
    hide RuleOk, WellBracketed, Count;
  }

  lemma RuinedLater(full: bool, trail: seq<Emitted>, row: Option<AlertRow>, cooldown: int, now: int, later: int)
    requires Ruined(full, trail, row, cooldown, now) && now <= later
    ensures Ruined(full, trail, row, cooldown, later)
  {
    hide RuleOk, WellBracketed;
  }

  lemma BracketsNeverHeal(trail: seq<Emitted>, e: Emitted)
    requires !WellBracketed(trail) || (OpenTail(trail) && e.eventType == Opened)
    ensures !WellBracketed(trail + [e])
  {
    var longer := trail + [e];
    if !WellBracketed(trail) {
      var i :| 0 <= i < |trail| && !BracketAt(trail, i);
      assert !BracketAt(longer, i);
    } else {
      assert !BracketAt(longer, |trail|);
    }
  }

  /** The batch's own next transition leaves ruined brackets ruined. */
  lemma OwnTransitionStaysRuined(trail: seq<Emitted>, row: AlertRow, e: Evaluation, cooldown: int, at: int, now: int)
    requires Ruined(false, trail, Some(row), cooldown, now)
    ensures var (row', event) := Transition(Some(row), e, at);
            Ruined(false, Extend(trail, e.rule, event, at), Some(row'), cooldown, now)
  {
    hide WellBracketed;
    var event := Transition(Some(row), e, at).1;
    if event.Some? && (!WellBracketed(trail) || event.value == Opened) {
      BracketsNeverHeal(trail, Emitted(e.rule, event.value, at));
    }
  }

  lemma BlindRuinsBrackets(trail: seq<Emitted>, row: Option<AlertRow>, e: Evaluation, cooldown: int, at: int, now: int)
    requires BracketsOk(trail, row) && !Harmless(false, trail, row, e, at)
    ensures var (row', event) := Transition(None, e, at);
            Ruined(false, Extend(trail, e.rule, event, at), Some(row'), cooldown, now)
  {
    hide WellBracketed, Count;
    if e.severity != Healthy {
      BracketsNeverHeal(trail, Emitted(e.rule, Opened, at));
    }
  }

  lemma BlindRuinsRow(trail: seq<Emitted>, row: Option<AlertRow>, e: Evaluation, cooldown: int, at: int, now: int)
    requires InOrder(true, trail, row, cooldown, now) && at <= now && !Harmless(true, trail, row, e, at)
    ensures var (row', event) := Transition(None, e, at);
            Ruined(true, Extend(trail, e.rule, event, at), Some(row'), cooldown, now)
  {
    var (row', event) := Transition(None, e, at);
    hide RuleOk, Harmless, Transition;
    forall later | now <= later ensures !RuleOk(Extend(trail, e.rule, event, at), Some(row'), cooldown, later) {
      LaterIsInOrder(true, trail, row, cooldown, now, later);
      BlindTransitionExactlyWhen(true, trail, row, e, cooldown, at, later);
    }
  }

  lemma HarmRuins(
      full: bool, trail: seq<Emitted>, row: Option<AlertRow>, e: Evaluation, cooldown: int, at: int, now: int)
    requires InOrder(full, trail, row, cooldown, now) && at <= now && !Harmless(full, trail, row, e, at)
    ensures var (row', event) := Transition(None, e, at);
            Ruined(full, Extend(trail, e.rule, event, at), Some(row'), cooldown, now)
  {
    hide RuleOk, BracketsOk, Harmless, Ruined, Transition;
    if full {
      BlindRuinsRow(trail, row, e, cooldown, at, now);
    } else {
      BlindRuinsBrackets(trail, row, e, cooldown, at, now);
    }
  }

  // ---- What holds while the committed rule is in order

  ghost predicate ViewRuined(s: Sys, b: BatchId, rule: Rule, full: bool, cooldown: int)
    requires b in s.batches
  {
    Ruined(full, TrailFor(s, b, rule), RowSeen(s, b, rule), cooldown, s.now)
  }

  /** One batch: harmed, it sees a ruined rule until it ends; unharmed, it sees an orderly one and decides on it. */
  ghost predicate BatchSound(s: Sys, b: BatchId, harmed: bool, rule: Rule, full: bool, cooldown: int)
    requires b in s.batches
  {
    && (full ==> NamesOnce(s.batches[b].todo, rule))
    && (harmed && !s.batches[b].over ==>
          && rule in s.batches[b].rows && ViewRuined(s, b, rule, full, cooldown)
          && (full ==> NotNamed(s.batches[b].todo, rule)))
    && (!harmed ==>
          && DecisionOk(s, b, rule, full, cooldown)
          && (Holds(s, b, rule) ==> ViewInOrder(s, b, rule, full, cooldown)))
  }

  ghost predicate Sound(s: Sys, harmed: set<BatchId>, rule: Rule, full: bool, cooldown: int) {
    && CommittedInOrder(s, rule, full, cooldown)
    && forall b :: b in s.batches ==> BatchSound(s, b, b in harmed, rule, full, cooldown)
  }

  lemma TailNames(todo: seq<Evaluation>, rule: Rule)
    requires todo != []
    ensures NamesOnce(todo, rule) ==> NamesOnce(todo[1..], rule)
    ensures NotNamed(todo, rule) ==> NotNamed(todo[1..], rule)
    ensures NamesOnce(todo, rule) && todo[0].rule == rule ==> NotNamed(todo[1..], rule)
  {
  }

  /** What b sees of the rule after any step is what it saw, unless it wrote the rule or the commit was its own. */
  lemma OtherView(s: Sys, step: Step, b: BatchId, rule: Rule)
    requires Kept(s, rule) && b in s.batches && Holds(s, b, rule)
    requires step.Tick? || step.b != b
    ensures var t := Next(s, step);
            && b in t.batches && t.batches[b] == s.batches[b] && Holds(t, b, rule)
            && TrailFor(t, b, rule) == TrailFor(s, b, rule) && RowSeen(t, b, rule) == RowSeen(s, b, rule)
  {
    hide Transition;
    assert BatchOk(s, b, rule);
    if Commits(s, step) {
      assert BatchOk(s, step.b, rule);
      CommitView(s, step.b, rule);
    }
    hide Trail, Lookup;
  }

  lemma NoNewHolder(s: Sys, step: Step, b: BatchId, rule: Rule)
    requires b in s.batches && !Holds(s, b, rule) && (step.Tick? || step.b != b)
    ensures b in Next(s, step).batches && !Holds(Next(s, step), b, rule)
    ensures Next(s, step).batches[b] == s.batches[b]
  {
    hide Transition, Trail, Lookup;
  }

  lemma ClockOnlyTicks(s: Sys, step: Step)
    ensures s.now <= Next(s, step).now
  {
    hide Transition, Written;
  }

  /** A batch the step is not about stays sound. */
  lemma BystanderSound(s: Sys, step: Step, b: BatchId, harmed: bool, rule: Rule, full: bool, cooldown: int)
    requires Kept(s, rule) && b in s.batches && BatchSound(s, b, harmed, rule, full, cooldown)
    requires step.Tick? || step.b != b
    ensures b in Next(s, step).batches && BatchSound(Next(s, step), b, harmed, rule, full, cooldown)
  {
    hide InOrder, Ruined, Trail, Lookup, Next, NamesOnce, NotNamed, TrailFor, RowSeen;
    var t := Next(s, step);
    assert BatchOk(s, b, rule);
    ClockOnlyTicks(s, step);
    if Holds(s, b, rule) {
      OtherView(s, step, b, rule);
      if harmed {
        RuinedLater(full, TrailFor(s, b, rule), RowSeen(s, b, rule), cooldown, s.now, t.now);
      } else {
        LaterIsInOrder(full, TrailFor(s, b, rule), RowSeen(s, b, rule), cooldown, s.now, t.now);
      }
    } else {
      NoNewHolder(s, step, b, rule);
    }
    if !harmed {
      OtherDecision(s, step, b, rule, full, cooldown);
    }
  }

  // ---- One step

  lemma OwnWriteOther(s: Sys, b: BatchId, harmed: bool, rule: Rule, full: bool, cooldown: int)
    requires Kept(s, rule) && CanWrite(s, b) && s.batches[b].todo[0].rule != rule
    requires BatchSound(s, b, harmed, rule, full, cooldown)
    ensures b in Next(s, Write(b)).batches && BatchSound(Next(s, Write(b)), b, harmed, rule, full, cooldown)
  {
    hide InOrder, Ruined, Trail, Lookup, Transition, NamesOnce, NotNamed;
    OtherWriteView(s, b, rule);
    TailNames(s.batches[b].todo, rule);
    if !harmed {
      OwnDecision(s, Write(b), rule, full, cooldown);
    }
  }

  lemma OwnWriteUnharmed(s: Sys, b: BatchId, rule: Rule, full: bool, cooldown: int)
    requires Kept(s, rule) && CanWrite(s, b) && s.batches[b].todo[0].rule == rule && (full ==> cooldown >= 0)
    requires CommittedInOrder(s, rule, full, cooldown) && BatchSound(s, b, false, rule, full, cooldown)
    requires !Harms(s, Write(b), rule, full)
    ensures b in Next(s, Write(b)).batches && BatchSound(Next(s, Write(b)), b, false, rule, full, cooldown)
  {
    hide InOrder, Ruined, Trail, Lookup, Transition, NamesOnce, NotNamed, Harmless;
    WriteViewExactlyWhen(s, b, rule, full, cooldown);
    TailNames(s.batches[b].todo, rule);
    OwnDecision(s, Write(b), rule, full, cooldown);
  }

  lemma OwnWriteHarms(s: Sys, b: BatchId, rule: Rule, full: bool, cooldown: int)
    requires Kept(s, rule) && CommittedInOrder(s, rule, full, cooldown) && Harms(s, Write(b), rule, full)
    requires full ==> NamesOnce(s.batches[b].todo, rule)
    ensures b in Next(s, Write(b)).batches && BatchSound(Next(s, Write(b)), b, true, rule, full, cooldown)
  {
    hide InOrder, Ruined, Trail, Lookup, Transition, NamesOnce, NotNamed, Harmless, TrailFor, RowSeen;
    var batch := s.batches[b];
    WrittenView(s, b, rule);
    assert BatchOk(s, b, rule);
    HarmRuins(full, Trail(s.db.audit, rule), Lookup(s.db, rule), batch.todo[0], cooldown, batch.pc.at, s.now);
    TailNames(batch.todo, rule);
  }

  lemma OwnWriteHarmed(s: Sys, b: BatchId, rule: Rule, full: bool, cooldown: int)
    requires Kept(s, rule) && CanWrite(s, b) && s.batches[b].todo[0].rule == rule
    requires BatchSound(s, b, true, rule, full, cooldown)
    ensures b in Next(s, Write(b)).batches && BatchSound(Next(s, Write(b)), b, true, rule, full, cooldown)
  {
    hide InOrder, Ruined, Trail, Lookup, Transition, NamesOnce, TrailFor;
    var batch := s.batches[b];
    assert BatchOk(s, b, rule);
    assert !full;
    WrittenView(s, b, rule);
    OwnTransitionStaysRuined(TrailFor(s, b, rule), batch.pc.read.value, batch.todo[0], cooldown, batch.pc.at, s.now);
  }

  lemma OwnWriteSound(s: Sys, b: BatchId, harmed: bool, rule: Rule, full: bool, cooldown: int)
    requires Kept(s, rule) && CanWrite(s, b) && (full ==> cooldown >= 0)
    requires CommittedInOrder(s, rule, full, cooldown) && BatchSound(s, b, harmed, rule, full, cooldown)
    ensures var now := harmed || Harms(s, Write(b), rule, full);
            b in Next(s, Write(b)).batches && BatchSound(Next(s, Write(b)), b, now, rule, full, cooldown)
  {
    if s.batches[b].todo[0].rule != rule {
      OwnWriteOther(s, b, harmed, rule, full, cooldown);
    } else if harmed {
      OwnWriteHarmed(s, b, rule, full, cooldown);
    } else if Harms(s, Write(b), rule, full) {
      OwnWriteHarms(s, b, rule, full, cooldown);
    } else {
      OwnWriteUnharmed(s, b, rule, full, cooldown);
    }
  }

  /** The batch's own steps other than its write keep it sound. */
  lemma OwnStepSound(s: Sys, step: Step, harmed: bool, rule: Rule, full: bool, cooldown: int)
    requires Kept(s, rule) && !step.Tick? && !step.Write? && step.b in s.batches
    requires CommittedInOrder(s, rule, full, cooldown) && BatchSound(s, step.b, harmed, rule, full, cooldown)
    ensures var t := Next(s, step);
            step.b in t.batches && BatchSound(t, step.b, harmed, rule, full, cooldown)
  {
    hide InOrder, Ruined, Trail, Lookup, Transition, NotNamed;
    assert BatchOk(s, step.b, rule);
    OwnStepView(s, step, rule);
    if !harmed {
      OwnDecision(s, step, rule, full, cooldown);
    }
  }

  /** Reading, deciding or blocking leaves the batch's view; a lock newly taken shows it the committed rule. */
  lemma OwnStepView(s: Sys, step: Step, rule: Rule)
    requires Kept(s, rule) && !step.Tick? && !step.Write? && step.b in s.batches
    ensures var t, b := Next(s, step), step.b;
            && b in t.batches && t.now == s.now
            && (t.batches[b].over || (t.db == s.db && t.batches[b].rows == s.batches[b].rows &&
                                      t.batches[b].todo == s.batches[b].todo &&
                                      TrailFor(t, b, rule) == TrailFor(s, b, rule)))
            && (t.batches[b].over ==> t.batches[b].todo == s.batches[b].todo || t.batches[b].todo == [])
            && (t.batches[b].over ==> !Holds(t, b, rule))
            && (Holds(t, b, rule) && !Holds(s, b, rule) ==>
                  TrailFor(t, b, rule) == Trail(t.db.audit, rule) && RowSeen(t, b, rule) == Lookup(t.db, rule))
  {
    assert BatchOk(s, step.b, rule);
    hide Trail, Lookup, Transition;
  }

  lemma ArrivalSound(s: Sys, step: Step, rule: Rule, full: bool, cooldown: int)
    requires Kept(s, rule) && step.Begin? && step.b !in s.batches
    requires ByPolicy(step, rule, full, cooldown) && Once(step, rule, full)
    ensures var t := Next(s, step);
            step.b in t.batches && BatchSound(t, step.b, false, rule, full, cooldown)
  {
    hide InOrder, Ruined, Trail, Lookup, Transition;
  }

  /** Only a commit changes what is committed. */
  lemma CommittedStays(s: Sys, step: Step, rule: Rule, full: bool, cooldown: int)
    requires CommittedInOrder(s, rule, full, cooldown) && !Commits(s, step)
    ensures CommittedInOrder(Next(s, step), rule, full, cooldown)
  {
    hide InOrder, Trail, Lookup, Transition;
    ClockOnlyTicks(s, step);
    LaterIsInOrder(full, Trail(s.db.audit, rule), Lookup(s.db, rule), cooldown, s.now, Next(s, step).now);
  }

  /** A commit leaves the rule in order exactly when its batch was not harmed. */
  lemma CommitExactlyWhen(s: Sys, step: Step, harmed: bool, rule: Rule, full: bool, cooldown: int)
    requires Kept(s, rule) && Commits(s, step) && CommittedInOrder(s, rule, full, cooldown)
    requires BatchSound(s, step.b, harmed, rule, full, cooldown)
    ensures CommittedInOrder(Next(s, step), rule, full, cooldown) <==> !harmed
  {
    hide InOrder, Ruined, Trail, Lookup, Next, TrailFor, RowSeen;
    CommitView(s, step.b, rule);
    assert BatchOk(s, step.b, rule);
    if harmed {
      RuinedIsOutOfOrder(full, TrailFor(s, step.b, rule), RowSeen(s, step.b, rule), cooldown, s.now);
    }
  }

  lemma BatchesStay(s: Sys, step: Step, b: BatchId)
    ensures b in Next(s, step).batches <==> b in s.batches || (step.Begin? && step.b == b)
  {
    hide Transition, Written;
  }

  /** Every batch stays sound, the writing one harmed from now on if its write does harm. */
  lemma BatchesStaySound(s: Sys, harmed: set<BatchId>, step: Step, b: BatchId, rule: Rule, full: bool, cooldown: int)
    requires Kept(s, rule) && Sound(s, harmed, rule, full, cooldown) && (full ==> cooldown >= 0)
    requires harmed <= s.batches.Keys && ByPolicy(step, rule, full, cooldown) && Once(step, rule, full)
    requires b in Next(s, step).batches
    ensures var after := harmed + if Harms(s, step, rule, full) then {step.b} else {};
            BatchSound(Next(s, step), b, b in after, rule, full, cooldown)
  {
    hide BatchSound, Kept, Next, CommittedInOrder, Once, ByPolicy;
    BatchesStay(s, step, b);
    if b !in s.batches {
      ArrivalSound(s, step, rule, full, cooldown);
    } else if step.Tick? || step.b != b {
      BystanderSound(s, step, b, b in harmed, rule, full, cooldown);
    } else if step.Write? {
      if CanWrite(s, b) {
        OwnWriteSound(s, b, b in harmed, rule, full, cooldown);
      } else {
        BlockedWrite(s, b);
      }
    } else {
      OwnStepSound(s, step, b in harmed, rule, full, cooldown);
    }
  }

  lemma StepSound(s: Sys, harmed: set<BatchId>, step: Step, rule: Rule, full: bool, cooldown: int)
    requires Kept(s, rule) && Sound(s, harmed, rule, full, cooldown) && (full ==> cooldown >= 0)
    requires harmed <= s.batches.Keys && ByPolicy(step, rule, full, cooldown) && Once(step, rule, full)
    ensures var t := Next(s, step);
            var after := harmed + if Harms(s, step, rule, full) then {step.b} else {};
            && after <= t.batches.Keys
            && (CommittedInOrder(t, rule, full, cooldown) <==> !(Commits(s, step) && step.b in harmed))
            && (CommittedInOrder(t, rule, full, cooldown) ==> Sound(t, after, rule, full, cooldown))
  {
    hide BatchSound, Kept, Next, CommittedInOrder, Once, ByPolicy;
    var t := Next(s, step);
    forall b | b in t.batches
      ensures var after := harmed + if Harms(s, step, rule, full) then {step.b} else {};
              BatchSound(t, b, b in after, rule, full, cooldown)
    {
      BatchesStaySound(s, harmed, step, b, rule, full, cooldown);
    }
    forall b | b in s.batches ensures b in t.batches {
      BatchesStay(s, step, b);
    }
    if Commits(s, step) {
      CommitExactlyWhen(s, step, step.b in harmed, rule, full, cooldown);
    } else {
      CommittedStays(s, step, rule, full, cooldown);
    }
  }

  // ---- Every run

  ghost predicate CommittedAlwaysInOrder(steps: seq<Step>, rule: Rule, full: bool, cooldown: int) {
    forall k :: 0 <= k <= |steps| ==> CommittedInOrder(After(steps[..k]), rule, full, cooldown)
  }

  /** No batch commits after a harmful write of its own. */
  predicate NoHarmCommits(steps: seq<Step>, rule: Rule, full: bool) {
    forall k :: 0 <= k < |steps| && Commits(After(steps[..k]), steps[k]) ==>
                  steps[k].b !in Harmed(steps[..k], rule, full)
  }

  predicate AllOnce(steps: seq<Step>, rule: Rule, full: bool) {
    forall k :: 0 <= k < |steps| ==> Once(steps[k], rule, full)
  }

  lemma PrefixesAgree(steps: seq<Step>, rule: Rule, full: bool, cooldown: int)
    requires steps != []
    ensures var front, last := steps[..|steps| - 1], steps[|steps| - 1];
            && (CommittedAlwaysInOrder(steps, rule, full, cooldown) <==>
                CommittedAlwaysInOrder(front, rule, full, cooldown) &&
                CommittedInOrder(After(steps), rule, full, cooldown))
            && (NoHarmCommits(steps, rule, full) <==>
                NoHarmCommits(front, rule, full) &&
                !(Commits(After(front), last) && last.b in Harmed(front, rule, full)))
  {
    hide After, CommittedInOrder, Commits, Harmed;
    var front := steps[..|steps| - 1];
    assert steps[..|steps|] == steps && front[..|front|] == front;
    assert forall k :: 0 <= k <= |front| ==> front[..k] == steps[..k];
    assert forall k :: 0 <= k < |front| ==> front[k] == steps[k];
  }

  lemma NothingYet(rule: Rule, full: bool, cooldown: int)
    ensures Sound(After([]), {}, rule, full, cooldown)
    ensures CommittedAlwaysInOrder([], rule, full, cooldown) && NoHarmCommits([], rule, full)
  {
    StartsInOrder(rule, full, cooldown);
    hide InOrder;
    var none: seq<Step> := [];
    assert none[..0] == none;
  }

  lemma {:induction false} CommittedExactlyWhen(steps: seq<Step>, rule: Rule, full: bool, cooldown: int)
    requires AllByPolicy(steps, rule, full, cooldown) && AllOnce(steps, rule, full) && (full ==> cooldown >= 0)
    ensures CommittedAlwaysInOrder(steps, rule, full, cooldown) <==> NoHarmCommits(steps, rule, full)
    ensures CommittedAlwaysInOrder(steps, rule, full, cooldown) ==>
              && Harmed(steps, rule, full) <= After(steps).batches.Keys
              && Sound(After(steps), Harmed(steps, rule, full), rule, full, cooldown)
  {
    hide Next, Sound, Harms, Kept, CommittedInOrder, CommittedAlwaysInOrder, NoHarmCommits, Commits, Once, ByPolicy;
    if steps == [] {
      NothingYet(rule, full, cooldown);
    } else {
      var front, last := steps[..|steps| - 1], steps[|steps| - 1];
      CommittedExactlyWhen(front, rule, full, cooldown);
      PrefixesAgree(steps, rule, full, cooldown);
      KeptAlways(front, rule);
      if CommittedAlwaysInOrder(front, rule, full, cooldown) {
        StepSound(After(front), Harmed(front, rule, full), last, rule, full, cooldown);
      }
    }
  }

  /** Some batch makes a harmful write at one step and commits at a later one. */
  ghost predicate HarmThenCommit(steps: seq<Step>, j: nat, k: nat, rule: Rule, full: bool)
    requires j < k < |steps|
  {
    && Harms(After(steps[..j]), steps[j], rule, full) && Commits(After(steps[..k]), steps[k])
    && steps[j].b == steps[k].b
  }

  lemma HarmedBefore(steps: seq<Step>, k: nat, rule: Rule, full: bool)
    requires k < |steps| && Commits(After(steps[..k]), steps[k])
    ensures steps[k].b in Harmed(steps[..k], rule, full) <==>
            exists j :: 0 <= j < k && HarmThenCommit(steps, j, k, rule, full)
  {
    hide After, CanWrite, Harmless, Working, Harmed;
    var before := steps[..k];
    HarmedMeans(before, rule, full, steps[k].b);
    if j :| 0 <= j < k && HarmThenCommit(steps, j, k, rule, full) {
      assert before[..j] == steps[..j] && before[j] == steps[j];
    }
    if j :| 0 <= j < k && Harms(After(before[..j]), before[j], rule, full) && before[j].b == steps[k].b {
      assert before[..j] == steps[..j];
      assert HarmThenCommit(steps, j, k, rule, full);
    }
  }

  lemma NoHarmCommitsMeans(steps: seq<Step>, rule: Rule, full: bool)
    ensures NoHarmCommits(steps, rule, full) <==>
            forall j, k :: 0 <= j < k < |steps| ==> !HarmThenCommit(steps, j, k, rule, full)
  {
    hide After, Harms, Working, Harmed;
    forall k | 0 <= k < |steps| && Commits(After(steps[..k]), steps[k])
      ensures steps[k].b in Harmed(steps[..k], rule, full) <==>
              exists j :: 0 <= j < k && HarmThenCommit(steps, j, k, rule, full)
    {
      HarmedBefore(steps, k, rule, full);
    }
  }

  /** The rule's committed events after the first `k` steps are well bracketed, and open exactly while its committed row
      is unhealthy. */
  ghost predicate BracketsCommitted(steps: seq<Step>, k: nat, rule: Rule)
    requires k <= |steps|
  {
    BracketsOk(Trail(After(steps[..k]).db.audit, rule), Lookup(After(steps[..k]).db, rule))
  }

  /** A batch overwrites an unhealthy row of the rule that it had read as absent at one step, and commits at a later
      one. */
  predicate OverwriteThenCommit(steps: seq<Step>, j: nat, k: nat, rule: Rule)
    requires j < k < |steps|
  {
    && OverwritesUnhealthy(After(steps[..j]), steps[j], rule) && Commits(After(steps[..k]), steps[k])
    && steps[j].b == steps[k].b
  }

  /** In every interleaving of batches, committing, aborting and waiting for each other's row locks, a rule's committed
      events stay well bracketed, and open exactly while its committed row is unhealthy, exactly when no batch that
      overwrote an unhealthy row of the rule it had read as absent ever commits. */
  lemma BracketsCommittedExactlyWhen(steps: seq<Step>, rule: Rule)
    ensures (forall k :: 0 <= k <= |steps| ==> BracketsCommitted(steps, k, rule)) <==>
            (forall j, k :: 0 <= j < k < |steps| ==> !OverwriteThenCommit(steps, j, k, rule))
  {
    hide After, Working, Trail, Lookup, BracketsOk, CanWrite, NoHarmCommits;
    CommittedExactlyWhen(steps, rule, false, 0);
    NoHarmCommitsMeans(steps, rule, false);
    assert forall k :: 0 <= k <= |steps| ==>
             (CommittedInOrder(After(steps[..k]), rule, false, 0) <==> BracketsCommitted(steps, k, rule));
    forall j, k | 0 <= j < k < |steps|
      ensures HarmThenCommit(steps, j, k, rule, false) <==> OverwriteThenCommit(steps, j, k, rule)
    {
      UnhealthyIsHarm(After(steps[..j]), steps[j], rule);
    }
  }

  lemma UnhealthyIsHarm(s: Sys, step: Step, rule: Rule)
    ensures Harms(s, step, rule, false) <==> OverwritesUnhealthy(s, step, rule)
  {
    hide Trail;
  }

  /** When batches name the rule at most once, its committed row, counters and times included, stays right exactly when
      no batch that made a write harmful to them ever commits. */
  lemma RowsCommittedExactlyWhen(steps: seq<Step>, rule: Rule, cooldown: int)
    requires AllByPolicy(steps, rule, true, cooldown) && AllOnce(steps, rule, true) && cooldown >= 0
    ensures (forall k :: 0 <= k <= |steps| ==>
               var s := After(steps[..k]); RuleOk(Trail(s.db.audit, rule), Lookup(s.db, rule), cooldown, s.now)) <==>
            (forall j, k :: 0 <= j < k < |steps| ==> !HarmThenCommit(steps, j, k, rule, true))
  {
    hide After, Commits, Trail, Lookup, RuleOk, NoHarmCommits, HarmThenCommit;
    CommittedExactlyWhen(steps, rule, true, cooldown);
    NoHarmCommitsMeans(steps, rule, true);
  }

  /** The batches the service makes name each rule at most once. */
  lemma DeployedRulesAreNamedOnce(r: AlertRules.Round, evidence: (Rule, AlertRules.Round) -> string, rule: Rule)
    ensures NamesOnce(AlertRules.EvaluateAll(AlertRules.RULES, r, evidence), rule)
  {
  }
}
