/** How a run that has ended can change how it ended: finish_run rewrites the status of any row, so a chat request that
    lost track of its own success fails the run again, and a recovery that had already claimed it succeeds it again. */
module RunOutcomes {
  import opened Common
  import opened RunStages
  import opened MessageHistory
  import opened RunTables
  import opened RunProtocol
  import opened RunStageOrder
  import opened RunStageExamples

  /** A chat request's failing finish of the run commits. */
  predicate FailsRun(s: Sys, a: Action, run: RunId) {
    && a.ChatActs? && a.h in s.chats && s.chats[a.h].run == run
    && s.chats[a.h].pc == FinishingFailed && !a.fault.RolledBack?
  }

  /** A recovery's finish of the run commits. */
  predicate RecoversRun(s: Sys, a: Action, run: RunId) {
    && a.ResumeActs? && a.h in s.resumes && s.resumes[a.h].run == run
    && s.resumes[a.h].pc == Concluding && !a.fault.RolledBack?
  }

  /** A chat request's own succeeding finish of the run commits. */
  predicate CompletesRun(s: Sys, a: Action, run: RunId) {
    && a.ChatActs? && a.h in s.chats && s.chats[a.h].run == run
    && s.chats[a.h].pc == FinishingOk && !a.fault.RolledBack?
  }

  /** A step decides a run's status exactly when it commits one of the three finishes. */
  function Decided(s: Sys, a: Action, run: RunId): Option<Status> {
    if FailsRun(s, a, run) then Some(FailedRun)
    else if RecoversRun(s, a, run) || CompletesRun(s, a, run) then Some(Succeeded)
    else None
  }

  lemma ChatStepDecides(db: Db, c: Chat, now: int, fault: Fault, model: Option<seq<Json>>, run: RunId)
    requires run in db.runs
    ensures var after := ChatStep(db, c, now, fault, model).0;
            run in after.runs &&
            after.runs[run].status ==
            if c.run != run || fault.RolledBack? then db.runs[run].status
            else if c.pc == FinishingFailed then FailedRun
            else if c.pc == FinishingOk then Succeeded
            else db.runs[run].status
  {
  }

  lemma ResumeStepDecides(db: Db, r: Resume, now: int, fault: Fault, run: RunId)
    requires run in db.runs
    ensures var after := ResumeStep(db, r, now, fault).0;
            run in after.runs &&
            after.runs[run].status ==
            if r.run == run && r.pc == Concluding && !fault.RolledBack? then Succeeded else db.runs[run].status
  {
  }

  lemma StepDecides(s: Sys, a: Action, run: RunId)
    requires run in s.db.runs
    ensures run in Next(s, a).db.runs
    ensures Next(s, a).db.runs[run].status ==
            if Decided(s, a, run).Some? then Decided(s, a, run).value else s.db.runs[run].status
  {
    hide ChatStep, ResumeStep;
    if a.ChatActs? && a.h in s.chats {
      ChatStepDecides(s.db, s.chats[a.h], s.now, a.fault, a.model, run);
    } else if a.ResumeActs? && a.h in s.resumes {
      ResumeStepDecides(s.db, s.resumes[a.h], s.now, a.fault, run);
    }
  }

  /** From any state, a step turns a succeeded run into a failed one exactly when it is a chat request on that run
      committing its failing finish. */
  lemma SuccessIsUndoneExactlyWhen(s: Sys, a: Action, run: RunId)
    requires run in s.db.runs && s.db.runs[run].status == Succeeded
    ensures run in Next(s, a).db.runs
    ensures Next(s, a).db.runs[run].status == FailedRun <==> FailsRun(s, a, run)
  {
    StepDecides(s, a, run);
  }

  /** The status the last committed finish of a run since some point gave it. */
  function LastDecided(actions: seq<Action>, cut: nat, run: RunId): Option<Status> {
    if |actions| <= cut then None
    else
      var front := actions[..|actions| - 1];
      var d := Decided(After(front), actions[|actions| - 1], run);
      if d.Some? then d else LastDecided(front, cut, run)
  }

  lemma {:induction false} StatusIsTheLastDecided(actions: seq<Action>, cut: nat, run: RunId)
    requires cut <= |actions| && run in After(actions[..cut]).db.runs
    ensures run in After(actions).db.runs
    ensures After(actions).db.runs[run].status ==
            if LastDecided(actions, cut, run).Some? then LastDecided(actions, cut, run).value
            else After(actions[..cut]).db.runs[run].status
  {
    hide Next, Decided;
    if cut == |actions| {
      assert actions[..cut] == actions;
    } else {
      var front := actions[..|actions| - 1];
      assert front[..cut] == actions[..cut];
      StatusIsTheLastDecided(front, cut, run);
      StepDecides(After(front), actions[|actions| - 1], run);
    }
  }

  /** The run has this status after the first `cut` actions. */
  predicate HasStatus(actions: seq<Action>, cut: nat, run: RunId, status: Status) {
    cut <= |actions| && run in After(actions[..cut]).db.runs && After(actions[..cut]).db.runs[run].status == status
  }

  /** In every interleaving a succeeded run is still succeeded later exactly when the last finish of it to commit since
      then, if any, was not a chat request's failing one. */
  lemma SuccessLastsExactlyWhen(actions: seq<Action>, cut: nat, run: RunId)
    requires HasStatus(actions, cut, run, Succeeded)
    ensures run in After(actions).db.runs
    ensures After(actions).db.runs[run].status == Succeeded <==> LastDecided(actions, cut, run) != Some(FailedRun)
  {
    hide After, Decided, LastDecided;
    StatusIsTheLastDecided(actions, cut, run);
    DecidedEnds(actions, cut, run);
  }

  lemma {:induction false} DecidedEnds(actions: seq<Action>, cut: nat, run: RunId)
    ensures LastDecided(actions, cut, run) != Some(Running)
  {
    if |actions| > cut {
      DecidedEnds(actions[..|actions| - 1], cut, run);
    }
  }

  // ---- A failure comes at most once

  /** No chat request can still finish the run: the one that created it is past its failing finish, or gone. */
  ghost predicate Spent(s: Sys, run: RunId) {
    run in s.db.runs &&
    forall h :: h in s.chats && Live(s.chats[h]) && s.chats[h].run == run ==> s.chats[h].pc == SavingFailed
  }

  lemma RunsStay(s: Sys, a: Action, run: RunId)
    requires run in s.db.runs
    ensures run in Next(s, a).db.runs
  {
    StepDecides(s, a, run);
  }

  lemma ChatStaysSpent(db: Db, c: Chat, now: int, fault: Fault, model: Option<seq<Json>>)
    requires c.run in db.runs && (Live(c) ==> c.pc == SavingFailed)
    ensures var next := ChatStep(db, c, now, fault, model).1; next.run == c.run && !Live(next)
  {
  }

  lemma ChatKeepsRun(db: Db, c: Chat, now: int, fault: Fault, model: Option<seq<Json>>)
    ensures ChatStep(db, c, now, fault, model).1.run == c.run
  {
  }

  lemma SpentStays(s: Sys, a: Action, run: RunId)
    requires Spent(s, run)
    ensures Spent(Next(s, a), run)
  {
    hide ChatStep, ResumeStep;
    RunsStay(s, a, run);
    if a.ChatActs? && a.h in s.chats {
      var c := s.chats[a.h];
      ChatKeepsRun(s.db, c, s.now, a.fault, a.model);
      if c.run == run {
        ChatStaysSpent(s.db, c, s.now, a.fault, a.model);
      }
    }
  }

  lemma FailingSpends(s: Sys, a: Action, run: RunId)
    requires Inv(s) && FailsRun(s, a, run)
    ensures Spent(Next(s, a), run)
  {
    var c := s.chats[a.h];
    assert ChatOk(s.db, s.log, c) && Live(c);
    RunsStay(s, a, run);
  }

  lemma {:induction false} FailedRunsAreSpent(actions: seq<Action>, run: RunId)
    requires run in After(actions).db.runs && After(actions).db.runs[run].status == FailedRun
    ensures Spent(After(actions), run)
  {
    hide Next, Spent, Inv;
    var front, last := actions[..|actions| - 1], actions[|actions| - 1];
    InvAlways(front);
    if FailsRun(After(front), last, run) {
      FailingSpends(After(front), last, run);
    } else if run in After(front).db.runs {
      StepDecides(After(front), last, run);
      FailedRunsAreSpent(front, run);
      SpentStays(After(front), last, run);
    } else {
      NewRunsRun(After(front), last, run);
    }
  }

  lemma NewRunsRun(s: Sys, a: Action, run: RunId)
    requires run !in s.db.runs && run in Next(s, a).db.runs
    ensures Next(s, a).db.runs[run].status == Running
  {
  }

  lemma SpentDecides(s: Sys, a: Action, run: RunId)
    requires Spent(s, run)
    ensures Decided(s, a, run) == if RecoversRun(s, a, run) then Some(Succeeded) else None
  {
  }

  /** A recovery's finish of the run commits at some step from `cut` on. */
  ghost predicate Recovered(actions: seq<Action>, cut: nat, run: RunId) {
    exists i :: cut <= i < |actions| && RecoversRun(After(actions[..i]), actions[i], run)
  }

  lemma RecoveredNext(actions: seq<Action>, cut: nat, run: RunId)
    requires cut < |actions|
    ensures var front, last := actions[..|actions| - 1], actions[|actions| - 1];
            Recovered(actions, cut, run) <==> Recovered(front, cut, run) || RecoversRun(After(front), last, run)
  {
    hide After, RecoversRun;
    var front := actions[..|actions| - 1];
    if Recovered(front, cut, run) {
      var i :| cut <= i < |front| && RecoversRun(After(front[..i]), front[i], run);
      assert front[..i] == actions[..i];
      assert RecoversRun(After(actions[..i]), actions[i], run);
    }
    if Recovered(actions, cut, run) {
      var i :| cut <= i < |actions| && RecoversRun(After(actions[..i]), actions[i], run);
      if i < |front| {
        assert front[..i] == actions[..i];
      }
    }
  }

  lemma {:induction false} SpentRunsFollowRecovery(actions: seq<Action>, cut: nat, run: RunId)
    requires cut <= |actions| && Spent(After(actions[..cut]), run)
    ensures Spent(After(actions), run)
    ensures After(actions).db.runs[run].status ==
            if Recovered(actions, cut, run) then Succeeded else After(actions[..cut]).db.runs[run].status
  {
    hide Next, Decided, RecoversRun, Spent, Inv;
    assert run in After(actions[..cut]).db.runs by { SpentExists(After(actions[..cut]), run); }
    if cut == |actions| {
      assert actions[..cut] == actions;
    } else {
      var front, last := actions[..|actions| - 1], actions[|actions| - 1];
      assert front[..cut] == actions[..cut];
      SpentRunsFollowRecovery(front, cut, run);
      SpentExists(After(front), run);
      StepDecides(After(front), last, run);
      SpentDecides(After(front), last, run);
      SpentStays(After(front), last, run);
      RecoveredNext(actions, cut, run);
    }
  }

  lemma SpentExists(s: Sys, run: RunId)
    requires Spent(s, run)
    ensures run in s.db.runs
  {
  }

  /** A failed run stays failed exactly until a recovery commits its finish, and is then never failed again. */
  lemma FailureLastsExactlyWhen(actions: seq<Action>, cut: nat, run: RunId)
    requires HasStatus(actions, cut, run, FailedRun)
    ensures run in After(actions).db.runs
    ensures After(actions).db.runs[run].status == if Recovered(actions, cut, run) then Succeeded else FailedRun
  {
    hide After, Recovered, Spent;
    FailedRunsAreSpent(actions[..cut], run);
    SpentRunsFollowRecovery(actions, cut, run);
    SpentExists(After(actions), run);
  }

  /** While no handler writes after another has claimed its run, failure is final. */
  lemma FencedFailureIsFinal(actions: seq<Action>, a: Action, run: RunId)
    requires AllFenced(actions) && Fenced(After(actions), a)
    requires run in After(actions).db.runs && After(actions).db.runs[run].status == FailedRun
    ensures run in Next(After(actions), a).db.runs && Next(After(actions), a).db.runs[run].status == FailedRun
  {
    hide After, Next, Inv;
    var s := After(actions);
    FencedInvAlways(actions);
    FailedRunsAreSpent(actions, run);
    StepDecides(s, a, run);
    SpentDecides(s, a, run);
  }

  // ---- Both flips happen

  const DOUBT := ChatActs(0, ReplyLost, None)

  /** The finish committed as a success, its reply was lost, and the request is about to fail the run. */
  const UNSURE := Sys(
    Tables(RunRow("s", Succeeded, ResponsePersisted, Resolved, None, None, 1, 1, None), FOUR, LOG),
    0, LOG, Request(FinishingFailed, ResponsePersisted, false, BATCH), map[])

  lemma UnsureReached()
    ensures Reached(UNSURE)
  {
    hide Reached, Table, OfRun;
    MarkingReached();
    Move(MARKING, ACT);
    var s1 := Next(MARKING, ACT);
    assert s1 == Sys(Tables(Worked(ResponsePersisted), FOUR, LOG), 0, LOG,
                     Request(FinishingOk, ResponsePersisted, false, BATCH), map[]);
    Move(s1, DOUBT);
    assert Next(s1, DOUBT) == UNSURE;
  }

  /** One chat request alone, with one lost reply, turns its succeeded run into a failed one. */
  lemma LostReplyFailsASucceededRun()
    ensures Reached(UNSURE) && Fenced(UNSURE, ACT)
    ensures UNSURE.db.runs["r"].status == Succeeded
    ensures "r" in Next(UNSURE, ACT).db.runs && Next(UNSURE, ACT).db.runs["r"].status == FailedRun
  {
    hide Reached, Table, OfRun;
    UnsureReached();
  }

  /** Some execution, fenced or not, ends in this state. */
  ghost predicate Visited(s: Sys) {
    exists actions :: After(actions) == s
  }

  lemma Go(s: Sys, a: Action)
    requires Visited(s)
    ensures Visited(Next(s, a))
  {
    var actions :| After(actions) == s;
    AfterExtended(actions, a);
  }

  lemma ReachedIsVisited(s: Sys)
    requires Reached(s)
    ensures Visited(s)
  {
  }

  /** A recovery is about to conclude the run its late chat request has just failed. */
  const FAILED_LATE := Sys(
    Tables(RunRow("s", FailedRun, ResponsePersisted, Resolved, None, None, 2, 2, Some("FAILED")),
           FOUR + [Saved(ResponsePersisted)], LOG),
    120, LOG, Request(SavingFailed, ResponsePersisted, false, BATCH), Recovering(Concluding, "s", ResponseReady, 2))

  const CONCLUDING := Sys(Tables(Retaken(ResponsePersisted), FOUR, LOG), 120, LOG, READ.chats,
                          Recovering(Concluding, "s", ResponseReady, 2))

  lemma ConcludingReached()
    ensures Reached(CONCLUDING)
  {
    hide Reached, Table, OfRun;
    ReadReached();
    Move(READ, RESUME);
    var s1 := Next(READ, RESUME);
    assert s1 == Sys(Tables(Retaken(ResponseReady), THREE, LOG), 120, LOG, READ.chats,
                     Recovering(Counting, "s", ResponseReady, 2));
    CountingFindsTheMessage(s1, "s", 2);
    Move(s1, RESUME);
    var s2 := s1.(resumes := Recovering(MarkingPersisted, "s", ResponseReady, 2));
    Move(s2, RESUME);
    assert Next(s2, RESUME) == CONCLUDING;
  }

  /** The late request has marked its answer persisted and could not finish the run. */
  const FAILING_LATE := Sys(
    Tables(Retaken(ResponsePersisted), FOUR + [Saved(ResponsePersisted)], LOG), 120, LOG,
    Request(FinishingFailed, ResponsePersisted, false, BATCH), Recovering(Concluding, "s", ResponseReady, 2))

  lemma FailingLateVisited()
    ensures Visited(FAILING_LATE)
  {
    hide Reached, Visited, Table, OfRun;
    ConcludingReached();
    ReachedIsVisited(CONCLUDING);
    Go(CONCLUDING, ACT);
    var s1 := Next(CONCLUDING, ACT);
    assert s1 == FAILING_LATE.(chats := Request(FinishingOk, ResponsePersisted, false, BATCH));
    Go(s1, LOSE);
    assert Next(s1, LOSE) == FAILING_LATE;
  }

  lemma FailedLateVisited()
    ensures Visited(FAILED_LATE)
  {
    hide Visited, Table, OfRun;
    FailingLateVisited();
    Go(FAILING_LATE, ACT);
    assert Next(FAILING_LATE, ACT) == FAILED_LATE;
  }

  /** A recovery turns the failed run into a succeeded one. */
  lemma RecoverySucceedsAFailedRun()
    ensures Visited(FAILED_LATE) && RecoversRun(FAILED_LATE, RESUME, "r")
    ensures FAILED_LATE.db.runs["r"].status == FailedRun
    ensures "r" in Next(FAILED_LATE, RESUME).db.runs && Next(FAILED_LATE, RESUME).db.runs["r"].status == Succeeded
  {
    hide Visited, Table, OfRun;
    FailedLateVisited();
  }
}
