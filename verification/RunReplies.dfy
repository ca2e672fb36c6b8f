/** What the recovery route answers, by the stored row, and what a request leaves in the tables when nothing fails. */
module RunReplies {
  import opened Common
  import opened RunStages
  import opened MessageHistory
  import opened RunTables
  import opened RunProtocol
  import opened RunHandlers

  // ---- The recovery route's answer

  /** The row is orphaned already, or the sweep at the start of the request orphans it. */
  predicate Deserted(row: RunRow, now: int) {
    && row.status == Running
    && (row.recovery == Orphaned ||
        (row.recovery == Active && row.leaseExpires.Some? && row.leaseExpires.value <= now))
  }

  /** A lease left on an orphaned row that is still in force. */
  predicate LeaseHolds(row: RunRow, now: int) {
    row.recovery == Orphaned && row.leaseExpires.Some? && row.leaseExpires.value > now
  }

  predicate HasMessage(db: Db, run: RunId) {
    exists i :: 0 <= i < |db.messages| && db.messages[i].run == run
  }

  lemma {:induction false} OfRunFinds(rows: seq<MessageRow>, run: RunId)
    ensures OfRun(rows, run) != [] <==> exists i :: 0 <= i < |rows| && rows[i].run == run
  {
    if rows != [] {
      var front := rows[..|rows| - 1];
      OfRunFinds(front, run);
      assert forall i :: 0 <= i < |front| ==> front[i] == rows[i];
    }
  }

  /** Each answer for a run whose row goes on to be claimed: its stage is response_ready or response_persisted. */
  lemma TailRepliesExactlyWhen(db: Db, now: int, run: RunId, worker: Worker)
    requires run in db.runs && Deserted(db.runs[run], now)
    requires db.runs[run].stage in {ResponseReady, ResponsePersisted}
    ensures var row, reply := db.runs[run], ReplyFor(db, now, run, worker);
            && (reply == Unhandled <==> worker == "")
            && (reply == ClaimFailed <==> worker != "" && LeaseHolds(row, now))
            && (reply == NotPersisted <==>
                  worker != "" && !LeaseHolds(row, now) && row.stage == ResponseReady && !HasMessage(db, run))
            && (reply == Recovered <==>
                  worker != "" && !LeaseHolds(row, now) && (row.stage == ResponseReady ==> HasMessage(db, run)))
  {
    hide OfRun;
    OfRunFinds(db.messages, run);
  }

  /** Every other answer, by what is stored: an ended run, one that is held, and a deserted one by its stage. */
  lemma RepliesExactlyWhen(db: Db, now: int, run: RunId, worker: Worker)
    ensures var reply := ReplyFor(db, now, run, worker);
            && (reply == NotFound <==> run !in db.runs)
            && (run in db.runs ==>
                  var row := db.runs[run];
                  && (reply == AlreadyCompleted <==> row.status == Succeeded)
                  && (reply == TerminalFailure <==> row.status == FailedRun)
                  && (reply == LeaseActive <==> row.status == Running && !Deserted(row, now))
                  && (reply == NewRunRequired <==> Deserted(row, now) && row.stage in {Created, ContextLoaded})
                  && (reply == NeedsReview <==> Deserted(row, now) && row.stage == ModelRunning)
                  && (reply == NothingToDo <==> Deserted(row, now) && row.stage in {Completed, Failed})
                  && (reply in {Unhandled, ClaimFailed, NotPersisted, Recovered} <==>
                        Deserted(row, now) && row.stage in {ResponseReady, ResponsePersisted}))
  {
    hide OfRun;
  }

  /** Under any faults the answer is the fault-free one, a failed load, an unhandled error of the claim or a failed
      recovery, and each failure is reported exactly when one of its storage calls fails. */
  lemma FaultsAreReportedExactlyWhen(db: Db, now: int, run: RunId, worker: Worker, faults: seq<Fault>)
    requires |faults| == 8
    ensures var reply, meant := ReplyUnder(db, now, run, worker, faults), ReplyFor(db, now, run, worker);
            && (reply == LoadFailed <==> faults[0] != NoFault || faults[1] != NoFault)
            && (reply == Unhandled && meant != Unhandled <==>
                  faults[0] == faults[1] == NoFault && faults[2] != NoFault &&
                  meant in {ClaimFailed, NotPersisted, Recovered})
            && (reply == RecoveryFailed <==>
                  && faults[0] == faults[1] == faults[2] == NoFault
                  && ((meant == NotPersisted && !(faults[3] == faults[4] == NoFault)) ||
                      (meant == Recovered && !(faults[3] == faults[4] == faults[5] == NoFault)) ||
                      (meant == Recovered && db.runs[run].stage == ResponseReady && faults[6] != NoFault)))
            && reply in {meant, LoadFailed, Unhandled, RecoveryFailed}
  {
    hide ReplyForRow, OfRun, Claimable;
    NoEarlyFault(db, now, run, worker);
  }

  lemma NoEarlyFault(db: Db, now: int, run: RunId, worker: Worker)
    ensures ReplyFor(db, now, run, worker) !in {LoadFailed, RecoveryFailed}
    ensures ReplyFor(db, now, run, worker) == Recovered ==> run in db.runs
  {
    hide OfRun;
  }

  // ---- Where a failed call leads

  /** Before its run exists, a chat request whose call fails, or whose run id is taken, is over; a failed checkpoint
      does not stop it; a failed append or succeeding finish makes it fail the run, and whether that works or not it
      goes on to checkpoint the failure. */
  lemma ChatFaultsLead(db: Db, c: Chat, now: int, fault: Fault, model: Option<seq<Json>>)
    requires c.pc != Gone
    ensures var next, clean := ChatStep(db, c, now, fault, model).1, ChatStep(db, c, now, NoFault, model).1;
            && (c.pc in {EnsuringSession, LoadingHistory} ==> (next.pc == Gone <==> fault != NoFault))
            && (c.pc == Creating ==> (next.pc == Gone <==> fault != NoFault || c.run in db.runs))
            && (Attempted(c.pc).Some? || c.pc == Modelling ==> next == clean)
            && (c.pc in {Appending, FinishingOk} ==> (next.pc == FinishingFailed <==> fault != NoFault))
            && (c.pc == FinishingFailed ==> next.pc == SavingFailed)
            && (c.pc in {SavingCompleted, SavingFailed} ==> next.pc == Gone)
  {
  }

  /** A recovery whose sweep, read or claim fails is over; one whose later call fails backs out, once, whatever comes of
      that. */
  lemma RecoveryFaultsLead(db: Db, r: Resume, now: int, fault: Fault)
    requires fault != NoFault
    ensures var next := ResumeStep(db, r, now, fault).1;
            && (r.pc in {Sweeping, Reading, Claiming, BackingOut} ==> next.pc == Left)
            && (r.pc in {Counting, GivingBack, MarkingPersisted, Concluding, MarkingCompleted} ==> next.pc == BackingOut)
            && next == r.(pc := next.pc)
  {
  }

  // ---- What a fault-free recovery leaves

  /** Orphaned rows of the sweep, the others as they were. */
  function SweptRuns(db: Db, now: int): map<RunId, RunRow> {
    map run | run in db.runs ::
      if db.runs[run].recovery == Active && Deserted(db.runs[run], now) then
        db.runs[run].(recovery := Orphaned, errorCode := Some("WORKER_LOST"), worker := None, leaseExpires := None)
      else db.runs[run]
  }

  /** The row after a claim that was given back. */
  function GivenBack(row: RunRow): RunRow {
    RunRow(row.session, Running, row.stage, Orphaned, None, None, row.leaseVersion + 1, row.attemptCount + 1,
           Some("RECOVERY_REQUIRES_NEW_RUN"))
  }

  /** The row after a claim and a finished tail. */
  function Finished(row: RunRow): RunRow {
    RunRow(row.session, Succeeded, Completed, Resolved, None, None, row.leaseVersion + 1, row.attemptCount + 1, None)
  }

  function TailMarks(row: RunRow, run: RunId): seq<Checkpoint> {
    (if row.stage == ResponseReady then [Checkpoint(row.session, run, ResponsePersisted)] else []) +
    [Checkpoint(row.session, run, Completed)]
  }

  /** The tables a fault-free recovery leaves, by its answer. */
  function Recovery(db: Db, now: int, run: RunId, worker: Worker): Db {
    var runs, reply := SweptRuns(db, now), ReplyFor(db, now, run, worker);
    if run in db.runs && reply == NotPersisted then db.(runs := runs[run := GivenBack(db.runs[run])])
    else if run in db.runs && reply == Recovered then
      db.(runs := runs[run := Finished(db.runs[run])], checkpoints := db.checkpoints + TailMarks(db.runs[run], run))
    else db.(runs := runs)
  }

  lemma TailUnfolds(db: Db, r: Resume, now: int, faults: seq<Fault>, n: nat)
    requires n + 2 <= |faults| && NoFaults(faults) && r.pc == Concluding && r.run in db.runs
    ensures ResumeAlone(db, r, now, faults[n..]).0 ==
            db.(runs := db.runs[r.run := db.runs[r.run].(status := Succeeded, stage := Completed, errorCode := None,
                                                         worker := None, leaseExpires := None, recovery := Resolved)],
                checkpoints := db.checkpoints + [Checkpoint(r.session, r.run, Completed)])
  {
    hide ResumeAlone;
    ResumeAloneNext(db, r, now, faults, n);
    var (d1, r1) := ResumeStep(db, r, now, NoFault);
    ResumeAloneNext(d1, r1, now, faults, n + 1);
    var (d2, r2) := ResumeStep(d1, r1, now, NoFault);
    ResumeIsOver(d2, r2, now, faults[n + 2..]);
  }

  /** From a claimed run on. */
  lemma CountedUnfolds(db: Db, r: Resume, now: int, faults: seq<Fault>)
    requires |faults| == 8 && NoFaults(faults) && r.pc == Counting && r.run in db.runs
    requires r.stage == db.runs[r.run].stage && r.session == db.runs[r.run].session
    requires db.runs[r.run].status == Running && db.runs[r.run].worker == Some(r.worker)
    ensures var row, after := db.runs[r.run], ResumeAlone(db, r, now, faults[3..]).0;
            after ==
            if row.stage == ResponseReady && MessageCount(db, r.run) == 0 then
              db.(runs := db.runs[r.run := row.(recovery := Orphaned, errorCode := Some("RECOVERY_REQUIRES_NEW_RUN"),
                                                worker := None, leaseExpires := None)])
            else
              db.(runs := db.runs[r.run := row.(status := Succeeded, stage := Completed, errorCode := None,
                                                worker := None, leaseExpires := None, recovery := Resolved)],
                  checkpoints := db.checkpoints + TailMarks(row, r.run))
  {
    hide ResumeAlone, MessageCount;
    ResumeAloneNext(db, r, now, faults, 3);
    var (d1, r1) := ResumeStep(db, r, now, NoFault);
    if r1.pc == Concluding {
      TailUnfolds(d1, r1, now, faults, 4);
    } else {
      ResumeAloneNext(d1, r1, now, faults, 4);
      var (d2, r2) := ResumeStep(d1, r1, now, NoFault);
      if r1.pc == GivingBack {
        ResumeIsOver(d2, r2, now, faults[5..]);
      } else {
        TailUnfolds(d2, r2, now, faults, 5);
        assert d2.checkpoints + [Checkpoint(r.session, r.run, Completed)] ==
               db.checkpoints + TailMarks(db.runs[r.run], r.run);
      }
    }
  }

  /** A fault-free recovery sweeps, and beyond that changes its run only when it answers recovered or not persisted. */
  lemma RecoveryLeaves(db: Db, now: int, run: RunId, worker: Worker, faults: seq<Fault>)
    requires |faults| == 8 && NoFaults(faults)
    ensures ResumeAlone(db, Resume(Sweeping, run, "", worker, Created, 0), now, faults).0 ==
            Recovery(db, now, run, worker)
  {
    hide ResumeAlone, MessageCount, Finished, GivenBack, TailMarks;
    var r := Resume(Sweeping, run, "", worker, Created, 0);
    assert faults[0..] == faults;
    ResumeAloneNext(db, r, now, faults, 0);
    var swept := MarkOrphaned(db, now).0;
    assert swept.runs == SweptRuns(db, now);
    ResumeAloneNext(swept, r.(pc := Reading), now, faults, 1);
    var r2 := ResumeStep(swept, r.(pc := Reading), now, NoFault).1;
    if r2.pc == Left {
      ResumeIsOver(swept, r2, now, faults[2..]);
      hide ReplyForRow;
      RepliesExactlyWhen(db, now, run, worker);
    } else {
      ClaimLeaves(db, swept, r2, now, faults);
    }
  }

  lemma ReplyToTail(db: Db, now: int, run: RunId, worker: Worker)
    requires run in db.runs && Resumable(Swept(db.runs[run], now))
    ensures var row := Swept(db.runs[run], now);
            ReplyFor(db, now, run, worker) ==
            if worker == "" then Unhandled
            else if !Claimable(row, now) then ClaimFailed
            else if row.stage == ResponseReady && MessageCount(db, run) == 0 then NotPersisted
            else Recovered
  {
    hide OfRun;
  }

  lemma ClaimLeaves(db: Db, swept: Db, r: Resume, now: int, faults: seq<Fault>)
    requires |faults| == 8 && NoFaults(faults) && swept == MarkOrphaned(db, now).0 && r.run in db.runs
    requires r == Resume(Claiming, r.run, "", r.worker, db.runs[r.run].stage, 0) && Resumable(swept.runs[r.run])
    requires swept.runs == SweptRuns(db, now)
    ensures ResumeAlone(swept, r, now, faults[2..]).0 == Recovery(db, now, r.run, r.worker)
  {
    hide ResumeAlone, MessageCount, SweptRuns, ReplyFor, ReplyForRow;
    ReplyToTail(db, now, r.run, r.worker);
    ResumeAloneNext(swept, r, now, faults, 2);
    var (d1, r1) := ResumeStep(swept, r, now, NoFault);
    SameMessages(d1, db, r.run);
    if r1.pc == Left {
      ResumeIsOver(d1, r1, now, faults[3..]);
    } else {
      CountedUnfolds(d1, r1, now, faults);
    }
  }

  lemma SameMessages(a: Db, b: Db, run: RunId)
    requires a.messages == b.messages
    ensures MessageCount(a, run) == MessageCount(b, run)
  {
  }

  // ---- What a fault-free chat request leaves

  function Marks(session: SessionId, run: RunId, stages: seq<RunStage>): seq<Checkpoint> {
    seq(|stages|, i requires 0 <= i < |stages| => Checkpoint(session, run, stages[i]))
  }

  /** The tables after a new run whose model answered with a batch, or failed. */
  function Answered(db: Db, run: RunId, session: SessionId, model: Option<seq<Json>>): Db {
    Db(db.sessions + {session},
       db.runs[run := RunRow(session, if model.Some? then Succeeded else FailedRun,
                             if model.Some? then Completed else Failed, Resolved, None, None, 1, 1,
                             if model.Some? then None else Some("FAILED"))],
       if model.Some? then AppendRows(db.messages, Append(session, run, model.value)) else db.messages,
       db.checkpoints +
       Marks(session, run, if model.Some? then HAPPY_PATH[1..] else [ContextLoaded, ModelRunning, Failed]))
  }

  /** One fault-free step of a request that has not ended. */
  lemma Step(db: Db, c: Chat, now: int, faults: seq<Fault>, n: nat, model: Option<seq<Json>>, after: Db, next: Chat)
    requires n < |faults| && NoFaults(faults) && c.pc != Gone && ChatStep(db, c, now, NoFault, model) == (after, next)
    ensures ChatAlone(db, c, now, faults[n..], model) == ChatAlone(after, next, now, faults[n + 1..], model)
  {
    ChatAloneNext(db, c, now, faults, n, model);
  }

  function Marked(db: Db, run: RunId, session: SessionId, stage: RunStage): Db
    requires run in db.runs
  {
    db.(checkpoints := db.checkpoints + [Checkpoint(session, run, stage)],
        runs := db.runs[run := db.runs[run].(stage := stage)])
  }

  function Ended(db: Db, run: RunId, status: Status, errorCode: Option<string>): Db
    requires run in db.runs
  {
    db.(runs := db.runs[run := db.runs[run].(status := status, errorCode := errorCode, worker := None,
                                             leaseExpires := None, recovery := Resolved)])
  }

  lemma AnswerUnfolds(db: Db, c: Chat, now: int, faults: seq<Fault>, model: Option<seq<Json>>)
    requires |faults| == 12 && NoFaults(faults) && c.pc == SavingReady && c.stage == ModelRunning && c.run in db.runs
    ensures ChatAlone(db, c, now, faults[6..], model).0 ==
            var d1 := Marked(db, c.run, c.session, ResponseReady);
            var d2 := d1.(messages := AppendRows(d1.messages, Append(c.session, c.run, c.batch)));
            var d3 := Ended(Marked(d2, c.run, c.session, ResponsePersisted), c.run, Succeeded, None);
            Marked(d3, c.run, c.session, Completed)
  {
    hide ChatAlone, AppendRows;
    var d1 := Marked(db, c.run, c.session, ResponseReady);
    var c1 := c.(stage := ResponseReady, pc := Appending);
    Step(db, c, now, faults, 6, model, d1, c1);
    var d2 := d1.(messages := AppendRows(d1.messages, Append(c.session, c.run, c.batch)));
    Step(d1, c1, now, faults, 7, model, d2, c1.(pc := SavingPersisted));
    ConclusionUnfolds(d2, c1.(pc := SavingPersisted), now, faults, model);
  }

  lemma ConclusionUnfolds(db: Db, c: Chat, now: int, faults: seq<Fault>, model: Option<seq<Json>>)
    requires |faults| == 12 && NoFaults(faults) && c.pc == SavingPersisted && c.stage == ResponseReady
    requires c.run in db.runs
    ensures ChatAlone(db, c, now, faults[8..], model).0 ==
            var d1 := Ended(Marked(db, c.run, c.session, ResponsePersisted), c.run, Succeeded, None);
            Marked(d1, c.run, c.session, Completed)
  {
    hide ChatAlone;
    var d1, c1 := Marked(db, c.run, c.session, ResponsePersisted), c.(stage := ResponsePersisted, pc := FinishingOk);
    Step(db, c, now, faults, 8, model, d1, c1);
    var d2 := Ended(d1, c.run, Succeeded, None);
    Step(d1, c1, now, faults, 9, model, d2, c1.(pc := SavingCompleted));
    var d3, c3 := Marked(d2, c.run, c.session, Completed), c1.(stage := Completed, pc := Gone);
    Step(d2, c1.(pc := SavingCompleted), now, faults, 10, model, d3, c3);
    ChatIsOver(d3, c3, now, faults[11..], model);
  }

  lemma FailureUnfolds(db: Db, c: Chat, now: int, faults: seq<Fault>, model: Option<seq<Json>>)
    requires |faults| == 12 && NoFaults(faults) && c.pc == FinishingFailed && c.stage == ModelRunning && c.run in db.runs
    ensures ChatAlone(db, c, now, faults[6..], model).0 ==
            Marked(Ended(db, c.run, FailedRun, Some("FAILED")), c.run, c.session, Failed)
  {
    hide ChatAlone;
    var d1 := Ended(db, c.run, FailedRun, Some("FAILED"));
    Step(db, c, now, faults, 6, model, d1, c.(pc := SavingFailed));
    var d2 := Marked(d1, c.run, c.session, Failed);
    Step(d1, c.(pc := SavingFailed), now, faults, 7, model, d2, c.(stage := Failed, pc := Gone));
    ChatIsOver(d2, c.(stage := Failed, pc := Gone), now, faults[8..], model);
  }

  lemma NewRunUnfolds(db: Db, run: RunId, session: SessionId, worker: Worker, now: int, faults: seq<Fault>,
                      model: Option<seq<Json>>)
    requires |faults| == 12 && NoFaults(faults) && run !in db.runs
    ensures var c := Chat(EnsuringSession, run, session, worker, Created, false, []);
            var d := db.(sessions := db.sessions + {session},
                         runs := db.runs[run := RunRow(session, Running, ModelRunning, Active, Some(worker),
                                                       Some(now + 120), 1, 1, None)],
                         checkpoints := db.checkpoints + Marks(session, run, [ContextLoaded, ModelRunning]));
            ChatAlone(db, c, now, faults, model) ==
            ChatAlone(d, c.(pc := Modelling, stage := ModelRunning, heartbeat := true), now, faults[5..], model)
  {
    hide ChatAlone;
    var c := Chat(EnsuringSession, run, session, worker, Created, false, []);
    assert faults[0..] == faults;
    var d1 := db.(sessions := db.sessions + {session});
    Step(db, c, now, faults, 0, model, d1, c.(pc := LoadingHistory));
    Step(d1, c.(pc := LoadingHistory), now, faults, 1, model, d1, c.(pc := Creating));
    var d2 := d1.(runs := db.runs[run := RunRow(session, Running, Created, Active, Some(worker), Some(now + 120), 1, 1,
                                                None)]);
    Step(d1, c.(pc := Creating), now, faults, 2, model, d2, c.(pc := SavingContext));
    var d3 := Marked(d2, run, session, ContextLoaded);
    var c3 := c.(pc := SavingModel, stage := ContextLoaded, heartbeat := true);
    Step(d2, c.(pc := SavingContext), now, faults, 3, model, d3, c3);
    var d4 := Marked(d3, run, session, ModelRunning);
    Step(d3, c3, now, faults, 4, model, d4, c3.(pc := Modelling, stage := ModelRunning));
    assert d4.checkpoints == db.checkpoints + Marks(session, run, [ContextLoaded, ModelRunning]);
    assert d4.runs == db.runs[run := RunRow(session, Running, ModelRunning, Active, Some(worker), Some(now + 120), 1, 1,
                                            None)];
  }

  /** A fault-free request for a new run stores its session, run, answer and the five checkpoints of the happy path;
      when the model fails, a failed run with three checkpoints and no message. */
  lemma RequestLeaves(db: Db, run: RunId, session: SessionId, worker: Worker, now: int, faults: seq<Fault>,
                      model: Option<seq<Json>>)
    requires |faults| == 12 && NoFaults(faults) && run !in db.runs
    ensures ChatAlone(db, Chat(EnsuringSession, run, session, worker, Created, false, []), now, faults, model).0 ==
            Answered(db, run, session, model)
  {
    hide ChatAlone, AppendRows;
    NewRunUnfolds(db, run, session, worker, now, faults, model);
    var c := Chat(Modelling, run, session, worker, ModelRunning, true, []);
    var d := db.(sessions := db.sessions + {session},
                 runs := db.runs[run := RunRow(session, Running, ModelRunning, Active, Some(worker),
                                               Some(now + 120), 1, 1, None)],
                 checkpoints := db.checkpoints + Marks(session, run, [ContextLoaded, ModelRunning]));
    if model.Some? {
      var c1 := c.(pc := SavingReady, heartbeat := false, batch := model.value);
      Step(d, c, now, faults, 5, model, d, c1);
      AnswerUnfolds(d, c1, now, faults, model);
    } else {
      var c1 := c.(pc := FinishingFailed, heartbeat := false);
      Step(d, c, now, faults, 5, model, d, c1);
      FailureUnfolds(d, c1, now, faults, model);
    }
  }

  // ---- Deaths

  lemma StepStaysDead(s: Sys, a: Action, h: nat)
    ensures h in s.chats && s.chats[h].pc == Gone ==> h in Next(s, a).chats && Next(s, a).chats[h].pc == Gone
    ensures h in s.resumes && s.resumes[h].pc == Left ==>
              h in Next(s, a).resumes && Next(s, a).resumes[h].pc == Left
  {
  }

  /** A request whose process died has ended and never takes another step. */
  lemma {:induction false} DeadStayDead(actions: seq<Action>, cut: nat, h: nat)
    requires cut < |actions|
    ensures actions[cut] == ChatDies(h) && h in After(actions[..cut]).chats ==>
              h in After(actions).chats && After(actions).chats[h].pc == Gone
    ensures actions[cut] == ResumeDies(h) && h in After(actions[..cut]).resumes ==>
              h in After(actions).resumes && After(actions).resumes[h].pc == Left
  {
    hide ChatStep, ResumeStep, Beat;
    var front, last := actions[..|actions| - 1], actions[|actions| - 1];
    if cut == |front| {
      assert actions[..cut] == front;
    } else {
      assert front[..cut] == actions[..cut] && front[cut] == actions[cut];
      hide Next;
      DeadStayDead(front, cut, h);
      StepStaysDead(After(front), last, h);
    }
  }
}
