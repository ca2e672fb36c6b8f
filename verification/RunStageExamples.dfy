/** Executions in which the stage column moves backwards or a failed stage is written over, one of them by an unfenced
    step: neither condition of StageNeverMovesBack can be dropped. */
module RunStageExamples {
  import opened Common
  import opened RunStages
  import opened MessageHistory
  import opened RunTables
  import opened RunProtocol
  import opened RunStageOrder

  /** Some fenced execution ends in this state. */
  ghost predicate Reached(s: Sys) {
    exists actions :: AllFenced(actions) && After(actions) == s
  }

  lemma AfterExtended(actions: seq<Action>, a: Action)
    ensures After(actions + [a]) == Next(After(actions), a)
  {
    assert (actions + [a])[..|actions|] == actions;
  }

  lemma FencedExtended(actions: seq<Action>, a: Action)
    requires AllFenced(actions) && Fenced(After(actions), a)
    ensures AllFenced(actions + [a])
  {
    var longer := actions + [a];
    forall i | 0 <= i < |longer| ensures Fenced(After(longer[..i]), longer[i]) {
      if i < |actions| {
        assert longer[..i] == actions[..i] && longer[i] == actions[i];
        assert Fenced(After(actions[..i]), actions[i]);
      } else {
        assert longer[..i] == actions && longer[i] == a;
      }
    }
  }

  lemma Move(s: Sys, a: Action)
    requires Reached(s) && Fenced(s, a)
    ensures Reached(Next(s, a))
  {
    var actions :| AllFenced(actions) && After(actions) == s;
    AfterExtended(actions, a);
    FencedExtended(actions, a);
    assert AllFenced(actions + [a]) && After(actions + [a]) == Next(s, a);
  }

  lemma StartReached()
    ensures Reached(START)
  {
    assert AllFenced([]) && After([]) == START;
  }

  const BATCH := ["m"]
  const LOG := [Append("s", "r", BATCH)]

  function Request(pc: ChatPc, stage: RunStage, heartbeat: bool, batch: seq<Json>): map<nat, Chat> {
    map[0 := Chat(pc, "r", "s", "w", stage, heartbeat, batch)]
  }

  function Saved(stage: RunStage): Checkpoint {
    Checkpoint("s", "r", stage)
  }

  function Tables(row: RunRow, saved: seq<Checkpoint>, log: seq<Append>): Db {
    Db({"s"}, map["r" := row], Table(log), saved)
  }

  function Worked(stage: RunStage): RunRow {
    RunRow("s", Running, stage, Active, Some("w"), Some(120), 1, 1, None)
  }

  const ACT := ChatActs(0, NoFault, None)

  const CREATED := Sys(Tables(Worked(Created), [], []), 0, [], Request(SavingContext, Created, false, []), map[])
  const MODELLING := Sys(Tables(Worked(ModelRunning), [Saved(ContextLoaded), Saved(ModelRunning)], []),
                         0, [], Request(Modelling, ModelRunning, true, []), map[])
  const THREE := [Saved(ContextLoaded), Saved(ModelRunning), Saved(ResponseReady)]
  const MARKING := Sys(Tables(Worked(ResponseReady), THREE, LOG),
                       0, LOG, Request(SavingPersisted, ResponseReady, false, BATCH), map[])

  lemma CreatedReached()
    ensures Reached(CREATED)
  {
    hide Reached;
    StartReached();
    Move(START, ChatArrives(0, "r", "s", "w"));
    var s0 := Next(START, ChatArrives(0, "r", "s", "w"));
    assert s0 == Sys(EMPTY_DB, 0, [], Request(EnsuringSession, Created, false, []), map[]);
    Move(s0, ACT);
    var s1 := Next(s0, ACT);
    assert s1 == Sys(Db({"s"}, map[], [], []), 0, [], Request(LoadingHistory, Created, false, []), map[]);
    Move(s1, ACT);
    var s2 := Next(s1, ACT);
    assert s2 == Sys(Db({"s"}, map[], [], []), 0, [], Request(Creating, Created, false, []), map[]);
    Move(s2, ACT);
    assert Next(s2, ACT) == CREATED;
  }

  lemma ModellingReached()
    ensures Reached(MODELLING)
  {
    hide Reached;
    CreatedReached();
    Move(CREATED, ACT);
    var s4 := Next(CREATED, ACT);
    assert s4 == Sys(Tables(Worked(ContextLoaded), [Saved(ContextLoaded)], []), 0, [],
                     Request(SavingModel, ContextLoaded, true, []), map[]);
    Move(s4, ACT);
    assert Next(s4, ACT) == MODELLING;
  }

  /** A request that has appended its message and is about to mark it persisted. */
  lemma MarkingReached()
    ensures Reached(MARKING)
  {
    hide Reached;
    ModellingReached();
    var answer := ChatActs(0, NoFault, Some(BATCH));
    Move(MODELLING, answer);
    var s6 := Next(MODELLING, answer);
    Move(s6, ACT);
    var s7 := Next(s6, ACT);
    assert s7 == Sys(Tables(Worked(ResponseReady), THREE, []), 0, [],
                     Request(Appending, ResponseReady, false, BATCH), map[]);
    Move(s7, ACT);
    assert LOG[..0] == [];
    assert Next(s7, ACT) == MARKING;
  }

  const RESUME := ResumeActs(0, NoFault)

  /** The stage column of the one run, if it exists yet. */
  function StageOf(s: Sys): Option<RunStage> {
    if "r" in s.db.runs then Some(s.db.runs["r"].stage) else None
  }

  function Recovering(pc: RecoveryPc, session: SessionId, stage: RunStage, attempt: nat): map<nat, Resume> {
    map[0 := Resume(pc, "r", session, "w:recovery", stage, attempt)]
  }

  function Lost(stage: RunStage): RunRow {
    RunRow("s", Running, stage, Orphaned, None, None, 1, 1, Some("WORKER_LOST"))
  }

  function Retaken(stage: RunStage): RunRow {
    RunRow("s", Running, stage, Active, Some("w:recovery"), Some(240), 2, 2, Some("WORKER_LOST"))
  }

  /** The lease ran out, and a recovery read response_ready but has not claimed yet. */
  const READ := Sys(Tables(Lost(ResponseReady), THREE, LOG), 120, LOG,
                    Request(SavingPersisted, ResponseReady, false, BATCH),
                    Recovering(Claiming, "", ResponseReady, 0))

  lemma ReadReached()
    ensures Reached(READ)
  {
    hide Reached;
    MarkingReached();
    Move(MARKING, Tick(120));
    var s1 := Next(MARKING, Tick(120));
    var arrive := ResumeArrives(0, "r", "w:recovery");
    Move(s1, arrive);
    var s2 := Next(s1, arrive);
    assert s2.resumes == Recovering(Sweeping, "", Created, 0);
    Move(s2, RESUME);
    var s3 := Next(s2, RESUME);
    assert s3.db.runs == map["r" := Lost(ResponseReady)];
    assert s3 == Sys(Tables(Lost(ResponseReady), THREE, LOG), 120, LOG, MARKING.chats,
                     Recovering(Reading, "", Created, 0));
    Move(s3, RESUME);
    assert Next(s3, RESUME) == READ;
  }

  lemma OneMessage(db: Db)
    requires db.messages == Table(LOG)
    ensures MessageCount(db, "r") == 1
  {
    hide OfRun, Table;
    OnceLoggedHasItsBatch(LOG, 0);
    assert |Bodies(OfRun(Table(LOG), "r"))| == 1;
  }

  /** The recovery counts one stored message and goes on to mark the run persisted. */
  lemma CountingFindsTheMessage(s: Sys, session: SessionId, attempt: nat)
    requires s.db.messages == Table(LOG) && s.resumes == Recovering(Counting, session, ResponseReady, attempt)
    ensures Next(s, RESUME) == s.(resumes := Recovering(MarkingPersisted, session, ResponseReady, attempt))
  {
    hide Table, MessageCount;
    OneMessage(s.db);
  }

  const LOSE := ChatActs(0, RolledBack, None)

  /** The request could not finish the run either way, but its failed checkpoint went through. */
  const GAVE_UP := Sys(Tables(Lost(Failed), THREE + [Saved(Failed)], LOG), 120, LOG,
                       Request(Gone, Failed, false, BATCH), READ.resumes)

  const GIVING_UP := READ.(chats := Request(FinishingFailed, ResponsePersisted, false, BATCH))

  lemma GivingUpReached()
    ensures Reached(GIVING_UP)
  {
    hide Reached, Table, OfRun;
    ReadReached();
    Move(READ, LOSE);
    var s1 := Next(READ, LOSE);
    assert s1 == READ.(chats := Request(FinishingOk, ResponsePersisted, false, BATCH));
    Move(s1, LOSE);
    assert Next(s1, LOSE) == GIVING_UP;
  }

  lemma GaveUpReached()
    ensures Reached(GAVE_UP)
  {
    hide Reached, Table, OfRun;
    GivingUpReached();
    Move(GIVING_UP, LOSE);
    var s3 := Next(GIVING_UP, LOSE);
    assert s3 == READ.(chats := Request(SavingFailed, ResponsePersisted, false, BATCH));
    Move(s3, ACT);
    assert Next(s3, ACT) == GAVE_UP;
  }

  const OVERWRITING := Sys(Tables(Retaken(Failed), THREE + [Saved(Failed)], LOG), 120, LOG, GAVE_UP.chats,
                           Recovering(MarkingPersisted, "s", ResponseReady, 2))

  lemma OverwritingReached()
    ensures Reached(OVERWRITING)
  {
    hide Reached, Table, OfRun;
    GaveUpReached();
    Move(GAVE_UP, RESUME);
    var s1 := Next(GAVE_UP, RESUME);
    assert s1.db.runs == map["r" := Retaken(Failed)];
    assert s1 == Sys(Tables(Retaken(Failed), THREE + [Saved(Failed)], LOG), 120, LOG, GAVE_UP.chats,
                     Recovering(Counting, "s", ResponseReady, 2));
    CountingFindsTheMessage(s1, "s", 2);
    Move(s1, RESUME);
  }

  /** Every step was fenced, and the next one, fenced too, takes failed back to response_persisted. */
  lemma FencedStageCanMoveBack()
    ensures Reached(OVERWRITING) && Fenced(OVERWRITING, RESUME)
    ensures StageOf(OVERWRITING) == Some(Failed)
    ensures StageOf(Next(OVERWRITING, RESUME)) == Some(ResponsePersisted)
    ensures Rank(ResponsePersisted) < Rank(Failed)
  {
    hide Reached, Table, OfRun;
    OverwritingReached();
  }

  const FOUR := THREE + [Saved(ResponsePersisted)]

  /** The recovery completed the run while the first request was still about to mark it persisted. */
  const RECOVERED := Sys(
    Tables(RunRow("s", Succeeded, Completed, Resolved, None, None, 2, 2, None), FOUR + [Saved(Completed)], LOG),
    120, LOG, READ.chats, Recovering(Left, "s", ResponseReady, 2))

  lemma RecoveredReached()
    ensures Reached(RECOVERED)
  {
    hide Reached, Table, OfRun;
    ReadReached();
    Move(READ, RESUME);
    var s1 := Next(READ, RESUME);
    assert s1 == Sys(Tables(Retaken(ResponseReady), THREE, LOG), 120, LOG, READ.chats,
                     Recovering(Counting, "s", ResponseReady, 2));
    CountingFindsTheMessage(s1, "s", 2);
    Move(s1, RESUME);
    RecoveryConcludes(s1.(resumes := Recovering(MarkingPersisted, "s", ResponseReady, 2)));
  }

  lemma RecoveryConcludes(s2: Sys)
    requires Reached(s2)
    requires s2 == Sys(Tables(Retaken(ResponseReady), THREE, LOG), 120, LOG, READ.chats,
                       Recovering(MarkingPersisted, "s", ResponseReady, 2))
    ensures Reached(RECOVERED)
  {
    hide Reached, Table, OfRun;
    Move(s2, RESUME);
    var s3 := Next(s2, RESUME);
    assert s3 == Sys(Tables(Retaken(ResponsePersisted), FOUR, LOG), 120, LOG, READ.chats,
                     Recovering(Concluding, "s", ResponseReady, 2));
    Move(s3, RESUME);
    var s4 := Next(s3, RESUME);
    assert s4.db.runs == map["r" := RunRow("s", Succeeded, ResponsePersisted, Resolved, None, None, 2, 2, None)];
    Move(s4, RESUME);
    assert Next(s4, RESUME) == RECOVERED;
  }

  /** Without the fence the late request takes completed back to response_persisted. */
  lemma UnfencedStageCanMoveBack()
    ensures Reached(RECOVERED) && !Fenced(RECOVERED, ACT)
    ensures StageOf(RECOVERED) == Some(Completed)
    ensures StageOf(Next(RECOVERED, ACT)) == Some(ResponsePersisted)
    ensures Rank(ResponsePersisted) < Rank(Completed)
  {
    hide Reached, Table, OfRun;
    RecoveredReached();
  }

  // ---- Other ways to write over a failed stage

  /** The request's answer is stored and marked, the lease ran out, and a recovery read the mark. */
  const READ_MARKED := Sys(Tables(Lost(ResponsePersisted), FOUR, LOG), 120, LOG,
                           Request(FinishingOk, ResponsePersisted, false, BATCH),
                           Recovering(Claiming, "", ResponsePersisted, 0))

  lemma ReadMarkedReached()
    ensures Reached(READ_MARKED)
  {
    hide Reached, Table, OfRun;
    MarkingReached();
    Move(MARKING, ACT);
    var s1 := Next(MARKING, ACT);
    Move(s1, Tick(120));
    var s2 := Next(s1, Tick(120));
    assert s2 == Sys(Tables(Worked(ResponsePersisted), FOUR, LOG), 120, LOG, READ_MARKED.chats, map[]);
    var arrive := ResumeArrives(0, "r", "w:recovery");
    Move(s2, arrive);
    var s3 := Next(s2, arrive);
    assert s3 == s2.(resumes := Recovering(Sweeping, "", Created, 0));
    Move(s3, RESUME);
    var s4 := Next(s3, RESUME);
    assert s4.db.runs == map["r" := Lost(ResponsePersisted)];
    Move(s4, RESUME);
    assert Next(s4, RESUME) == READ_MARKED;
  }

  /** Both finishes of the request were rolled back, its failed checkpoint was not. */
  const GAVE_UP_MARKED := Sys(Tables(Lost(Failed), FOUR + [Saved(Failed)], LOG), 120, LOG,
                              Request(Gone, Failed, false, BATCH), READ_MARKED.resumes)

  lemma GaveUpMarkedReached()
    ensures Reached(GAVE_UP_MARKED)
  {
    hide Reached, Table, OfRun;
    ReadMarkedReached();
    Move(READ_MARKED, LOSE);
    var s1 := Next(READ_MARKED, LOSE);
    assert s1 == READ_MARKED.(chats := Request(FinishingFailed, ResponsePersisted, false, BATCH));
    Move(s1, LOSE);
    var s2 := Next(s1, LOSE);
    assert s2 == READ_MARKED.(chats := Request(SavingFailed, ResponsePersisted, false, BATCH));
    Move(s2, ACT);
    assert Next(s2, ACT) == GAVE_UP_MARKED;
  }

  /** The recovery has concluded the run and is about to mark it completed. */
  const COMPLETING := Sys(
    Tables(RunRow("s", Succeeded, Failed, Resolved, None, None, 2, 2, None), FOUR + [Saved(Failed)], LOG), 120, LOG,
    GAVE_UP_MARKED.chats, Recovering(MarkingCompleted, "s", ResponsePersisted, 2))

  const RETAKEN_MARKED := Sys(Tables(Retaken(Failed), FOUR + [Saved(Failed)], LOG), 120, LOG, GAVE_UP_MARKED.chats,
                              Recovering(Counting, "s", ResponsePersisted, 2))

  lemma RetakenMarkedReached()
    ensures Reached(RETAKEN_MARKED)
  {
    hide Reached, Table, OfRun;
    GaveUpMarkedReached();
    Move(GAVE_UP_MARKED, RESUME);
    assert Next(GAVE_UP_MARKED, RESUME) == RETAKEN_MARKED;
  }

  const CONCLUDING_MARKED := RETAKEN_MARKED.(resumes := Recovering(Concluding, "s", ResponsePersisted, 2))

  lemma ConcludingMarkedReached()
    ensures Reached(CONCLUDING_MARKED)
  {
    hide Reached, Table, OfRun;
    RetakenMarkedReached();
    Move(RETAKEN_MARKED, RESUME);
    assert Next(RETAKEN_MARKED, RESUME) == CONCLUDING_MARKED;
  }

  lemma CompletingReached()
    ensures Reached(COMPLETING)
  {
    hide Reached, Table, OfRun;
    ConcludingMarkedReached();
    Move(CONCLUDING_MARKED, RESUME);
    assert Next(CONCLUDING_MARKED, RESUME) == COMPLETING;
  }

  /** Every step was fenced, and the next one, fenced too, takes failed to completed. */
  lemma FencedFailedCanBecomeCompleted()
    ensures Reached(COMPLETING) && Fenced(COMPLETING, RESUME)
    ensures StageOf(COMPLETING) == Some(Failed) && StageOf(Next(COMPLETING, RESUME)) == Some(Completed)
  {
    hide Reached, Table, OfRun;
    CompletingReached();
  }

  /** The append committed with its reply lost, so the request is about to fail a run whose answer is stored. */
  const UNSURE_OF_ANSWER := Sys(Tables(Worked(ResponseReady), THREE, LOG), 0, LOG,
                                Request(FinishingFailed, ResponseReady, false, BATCH), map[])

  lemma UnsureOfAnswerReached()
    ensures Reached(UNSURE_OF_ANSWER)
  {
    hide Reached;
    ModellingReached();
    var answer := ChatActs(0, NoFault, Some(BATCH));
    Move(MODELLING, answer);
    var s1 := Next(MODELLING, answer);
    Move(s1, ACT);
    var s2 := Next(s1, ACT);
    assert s2 == Sys(Tables(Worked(ResponseReady), THREE, []), 0, [],
                     Request(Appending, ResponseReady, false, BATCH), map[]);
    var doubt := ChatActs(0, ReplyLost, None);
    Move(s2, doubt);
    assert LOG[..0] == [];
    assert Next(s2, doubt) == UNSURE_OF_ANSWER;
  }

  const ARRIVE := ResumeArrives(0, "r", "w:recovery")

  const READ_UNSURE := READ.(chats := Request(FinishingFailed, ResponseReady, false, BATCH))

  lemma UnsureIsRead()
    ensures var s2 := Next(Next(UNSURE_OF_ANSWER, Tick(120)), ARRIVE);
            && Fenced(s2, RESUME) && Fenced(Next(s2, RESUME), RESUME)
            && Next(Next(s2, RESUME), RESUME) == READ_UNSURE
  {
    hide Table, OfRun;
    var s2 := Next(Next(UNSURE_OF_ANSWER, Tick(120)), ARRIVE);
    assert s2 == Sys(UNSURE_OF_ANSWER.db, 120, LOG, UNSURE_OF_ANSWER.chats, Recovering(Sweeping, "", Created, 0));
    assert Next(s2, RESUME).db.runs == map["r" := Lost(ResponseReady)];
  }

  lemma ReadUnsureGivesUp()
    ensures Fenced(READ_UNSURE, LOSE) && Fenced(Next(READ_UNSURE, LOSE), ACT)
    ensures Next(Next(READ_UNSURE, LOSE), ACT) == GAVE_UP
  {
    hide Table, OfRun;
    assert Next(READ_UNSURE, LOSE) == READ.(chats := Request(SavingFailed, ResponseReady, false, BATCH));
  }

  /** From there the failing finish alone has to be rolled back for the failed checkpoint to land on a running row: a
      second route, fenced at every step, to the state from which the recovery writes over it. */
  lemma LostAppendReplyLeadsThereToo()
    ensures Reached(UNSURE_OF_ANSWER)
    ensures var arrived := Next(Next(UNSURE_OF_ANSWER, Tick(120)), ARRIVE);
            var read := Next(Next(arrived, RESUME), RESUME);
            && Fenced(UNSURE_OF_ANSWER, Tick(120)) && Fenced(Next(UNSURE_OF_ANSWER, Tick(120)), ARRIVE)
            && Fenced(arrived, RESUME) && Fenced(Next(arrived, RESUME), RESUME)
            && Fenced(read, LOSE) && Fenced(Next(read, LOSE), ACT)
            && Next(Next(read, LOSE), ACT) == GAVE_UP
  {
    hide Reached, Table, OfRun, Next;
    UnsureOfAnswerReached();
    UnsureIsRead();
    ReadUnsureGivesUp();
  }
}
