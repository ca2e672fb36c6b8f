/** The chat and recovery handlers as they run in place on the store, when nothing interleaves: each is shown
    to do exactly what its program counter does step by step. */
module RunHandlers {
  import opened Common
  import opened RunStages
  import opened MessageHistory
  import opened RunTables
  import opened RunProtocol

  /** A chat request run to its end, one fault per storage call. */
  function ChatAlone(db: Db, c: Chat, now: int, faults: seq<Fault>, model: Option<seq<Json>>): (Db, Chat)
    decreases |faults|
  {
    if c.pc == Gone || faults == [] then (db, c)
    else
      var (after, next) := ChatStep(db, c, now, faults[0], model);
      ChatAlone(after, next, now, faults[1..], model)
  }

  lemma ChatAloneNext(db: Db, c: Chat, now: int, faults: seq<Fault>, n: nat, model: Option<seq<Json>>)
    requires n < |faults| && c.pc != Gone
    ensures var (after, next) := ChatStep(db, c, now, faults[n], model);
            ChatAlone(db, c, now, faults[n..], model) == ChatAlone(after, next, now, faults[n + 1..], model)
  {
    assert faults[n..][1..] == faults[n + 1..];
  }

  lemma ChatIsOver(db: Db, c: Chat, now: int, faults: seq<Fault>, model: Option<seq<Json>>)
    requires c.pc == Gone
    ensures ChatAlone(db, c, now, faults, model) == (db, c)
  {
  }

  predicate NoFaults(faults: seq<Fault>) { forall k :: 0 <= k < |faults| ==> faults[k] == NoFault }

  /** The storage calls `from` up to `to` all succeed. */
  predicate Clean(faults: seq<Fault>, from: nat, to: nat)
    requires from <= to <= |faults|
  {
    forall k :: from <= k < to ==> faults[k] == NoFault
  }

  /** save_checkpoint: an illegal move or a storage error is only logged. */
  method SaveStage(store: RunStore, state: RunState, session: SessionId, run: RunId, next: RunStage, fault: Fault)
    modifies store, state
    ensures var db, legal := old(store.State()), Legal(old(state.stage), next);
            && state.stage == (if legal then next else old(state.stage))
            && store.State() == if legal then Settle(db, RecordCheckpoint(db, session, run, next), fault) else db
    ensures store.runs.Keys == old(store.runs.Keys)
  {
    var ok := state.Transition(next);
    if ok && fault != RolledBack {
      store.SaveCheckpoint(session, run, state.stage);
    }
  }

  method Conclude(store: RunStore, run: RunId, succeeded: bool, errorCode: Option<string>, fault: Fault)
    modifies store
    ensures store.State() ==
            Settle(old(store.State()), FinishRun(old(store.State()), run, succeeded, errorCode), fault)
  {
    if fault != RolledBack {
      store.Finish(run, succeeded, errorCode);
    }
  }

  /** The failure branches: mark the run failed, then checkpoint the failure. */
  method Fail(store: RunStore, state: RunState, ghost c: Chat, run: RunId, session: SessionId, ghost now: int,
              faults: seq<Fault>, n: nat, ghost model: Option<seq<Json>>)
    requires n + 1 < |faults| && c.pc == FinishingFailed
    requires c.run == run && c.session == session && c.stage == state.stage
    modifies store, state
    ensures store.State() == ChatAlone(old(store.State()), c, now, faults[n..], model).0
  {
    hide FinishRun, RecordCheckpoint, ChatAlone;
    ChatAloneNext(store.State(), c, now, faults, n, model);
    Conclude(store, run, false, Some("FAILED"), faults[n]);
    ghost var c1 := c.(pc := SavingFailed);
    ghost var db := store.State();
    ChatAloneNext(db, c1, now, faults, n + 1, model);
    SaveStage(store, state, session, run, Failed, faults[n + 1]);
    ghost var (after, c2) := ChatStep(db, c1, now, faults[n + 1], model);
    ChatIsOver(after, c2, now, faults[n + 2..], model);
  }

  method StoreAnswer(store: RunStore, run: RunId, session: SessionId, batch: seq<Json>, fault: Fault)
    modifies store
    ensures store.State() == Settle(old(store.State()), AppendMessages(old(store.State()), session, run, batch), fault)
    ensures store.runs == old(store.runs)
  {
    if fault != RolledBack {
      var count := store.AppendNewMessages(session, run, batch);
    }
  }

  /** After the model answered: checkpoint, append, checkpoint, finish, checkpoint. */
  method PersistAnswer(store: RunStore, state: RunState, ghost c: Chat, run: RunId, session: SessionId, batch: seq<Json>,
                       ghost now: int, faults: seq<Fault>, ghost model: Option<seq<Json>>) returns (ok: bool)
    requires |faults| == 12 && c.run == run && c.session == session && c.batch == batch
    requires c.pc == SavingReady && c.stage == state.stage == ModelRunning && run in store.runs
    modifies store, state
    ensures store.State() == ChatAlone(old(store.State()), c, now, faults[6..], model).0
    ensures ok ==> run in store.runs && store.runs[run].status == Succeeded
    ensures ok <==> faults[7] == faults[9] == NoFault
  {
    hide AppendMessages, ChatAlone, RecordCheckpoint;
    ChatAloneNext(store.State(), c, now, faults, 6, model);
    SaveStage(store, state, session, run, ResponseReady, faults[6]);
    ghost var c1 := c.(pc := Appending, stage := ResponseReady);
    ChatAloneNext(store.State(), c1, now, faults, 7, model);
    StoreAnswer(store, run, session, batch, faults[7]);
    if faults[7] != NoFault {
      Fail(store, state, c1.(pc := FinishingFailed), run, session, now, faults, 8, model);
      return false;
    }
    ok := FinishAnswered(store, state, c1.(pc := SavingPersisted), run, session, now, faults, model);
  }

  method FinishAnswered(store: RunStore, state: RunState, ghost c: Chat, run: RunId, session: SessionId,
                        ghost now: int, faults: seq<Fault>, ghost model: Option<seq<Json>>) returns (ok: bool)
    requires |faults| == 12 && c.run == run && c.session == session
    requires c.pc == SavingPersisted && c.stage == state.stage == ResponseReady && run in store.runs
    modifies store, state
    ensures store.State() == ChatAlone(old(store.State()), c, now, faults[8..], model).0
    ensures ok ==> run in store.runs && store.runs[run].status == Succeeded
    ensures ok <==> faults[9] == NoFault
  {
    hide ChatAlone, RecordCheckpoint, FinishRun;
    ChatAloneNext(store.State(), c, now, faults, 8, model);
    SaveStage(store, state, session, run, ResponsePersisted, faults[8]);
    ok := ConcludeAnswered(store, state, c.(pc := FinishingOk, stage := ResponsePersisted), run, session, now, faults,
                           model);
  }

  method ConcludeAnswered(store: RunStore, state: RunState, ghost c: Chat, run: RunId, session: SessionId,
                          ghost now: int, faults: seq<Fault>, ghost model: Option<seq<Json>>) returns (ok: bool)
    requires |faults| == 12 && c.run == run && c.session == session
    requires c.pc == FinishingOk && c.stage == state.stage == ResponsePersisted && run in store.runs
    modifies store, state
    ensures store.State() == ChatAlone(old(store.State()), c, now, faults[9..], model).0
    ensures ok ==> run in store.runs && store.runs[run].status == Succeeded
    ensures ok <==> faults[9] == NoFault
  {
    hide ChatAlone;
    ChatAloneNext(store.State(), c, now, faults, 9, model);
    Conclude(store, run, true, None, faults[9]);
    if faults[9] != NoFault {
      Fail(store, state, c.(pc := FinishingFailed), run, session, now, faults, 10, model);
      return false;
    }
    ghost var c1, db := c.(pc := SavingCompleted), store.State();
    ChatAloneNext(db, c1, now, faults, 10, model);
    SaveStage(store, state, session, run, Completed, faults[10]);
    ghost var (after, c2) := ChatStep(db, c1, now, faults[10], model);
    ChatIsOver(after, c2, now, faults[11..], model);
    ok := true;
  }

  /** chat_message: set up the run, run the model, persist the answer. */
  method ChatMessage(store: RunStore, run: RunId, session: SessionId, worker: Worker, now: int, faults: seq<Fault>,
                     model: Option<seq<Json>>) returns (ok: bool)
    requires |faults| == 12
    modifies store
    ensures var c := Chat(EnsuringSession, run, session, worker, Created, false, []);
            store.State() == ChatAlone(old(store.State()), c, now, faults, model).0
    ensures ok ==> run in store.runs && store.runs[run].status == Succeeded
    ensures ok <==> run !in old(store.runs) && model.Some? && Clean(faults, 0, 3) && faults[7] == faults[9] == NoFault
  {
    hide ChatAlone;
    ghost var c := Chat(EnsuringSession, run, session, worker, Created, false, []);
    assert faults[0..] == faults;
    ChatAloneNext(store.State(), c, now, faults, 0, model);
    if faults[0] != RolledBack {
      store.EnsureSessionRow(session);
    }
    if faults[0] != NoFault {
      ChatIsOver(store.State(), c.(pc := Gone), now, faults[1..], model);
      return false;
    }
    ghost var c1 := c.(pc := LoadingHistory);
    ChatAloneNext(store.State(), c1, now, faults, 1, model);
    if faults[1] != NoFault {
      ChatIsOver(store.State(), c1.(pc := Gone), now, faults[2..], model);
      return false;
    }
    ok := StartRun(store, c1.(pc := Creating), run, session, worker, now, faults, model);
  }

  method StartRun(store: RunStore, ghost c: Chat, run: RunId, session: SessionId, worker: Worker, now: int,
                  faults: seq<Fault>, model: Option<seq<Json>>) returns (ok: bool)
    requires |faults| == 12 && c == Chat(Creating, run, session, worker, Created, false, [])
    modifies store
    ensures store.State() == ChatAlone(old(store.State()), c, now, faults[2..], model).0
    ensures ok ==> run in store.runs && store.runs[run].status == Succeeded
    ensures ok <==> run !in old(store.runs) && model.Some? && faults[2] == faults[7] == faults[9] == NoFault
  {
    hide ChatAlone;
    ghost var before := store.State();
    ChatAloneNext(before, c, now, faults, 2, model);
    var created := false;
    if faults[2] != RolledBack {
      var reply := store.Create(now, run, session, Some(worker), DEFAULT_LEASE);
      created := faults[2] == NoFault && reply.Value?;
    }
    if !created {
      ChatIsOver(store.State(), c.(pc := Gone), now, faults[3..], model);
      return false;
    }
    ok := RunModel(store, c.(pc := SavingContext), run, session, now, faults, model);
  }

  method RunModel(store: RunStore, ghost c: Chat, run: RunId, session: SessionId, ghost now: int,
                  faults: seq<Fault>, model: Option<seq<Json>>) returns (ok: bool)
    requires |faults| == 12 && c.run == run && c.session == session && c.pc == SavingContext && c.stage == Created
    requires run in store.runs
    modifies store
    ensures store.State() == ChatAlone(old(store.State()), c, now, faults[3..], model).0
    ensures ok ==> run in store.runs && store.runs[run].status == Succeeded
    ensures ok <==> model.Some? && faults[7] == faults[9] == NoFault
  {
    hide ChatAlone, RecordCheckpoint;
    var state := new RunState();
    ChatAloneNext(store.State(), c, now, faults, 3, model);
    SaveStage(store, state, session, run, ContextLoaded, faults[3]);
    ghost var c1 := c.(pc := SavingModel, stage := ContextLoaded, heartbeat := true);
    ChatAloneNext(store.State(), c1, now, faults, 4, model);
    SaveStage(store, state, session, run, ModelRunning, faults[4]);
    ghost var c2 := c1.(pc := Modelling, stage := ModelRunning);
    ChatAloneNext(store.State(), c2, now, faults, 5, model);
    if model.None? {
      Fail(store, state, c2.(pc := FinishingFailed, heartbeat := false), run, session, now, faults, 6, model);
      return false;
    }
    ok := PersistAnswer(store, state, c2.(pc := SavingReady, heartbeat := false, batch := model.value), run, session,
                        model.value, now, faults, model);
  }

  // ---- Recovery

  function ResumeAlone(db: Db, r: Resume, now: int, faults: seq<Fault>): (Db, Resume)
    decreases |faults|
  {
    if r.pc == Left || faults == [] then (db, r)
    else
      var (after, next) := ResumeStep(db, r, now, faults[0]);
      ResumeAlone(after, next, now, faults[1..])
  }

  lemma ResumeAloneNext(db: Db, r: Resume, now: int, faults: seq<Fault>, n: nat)
    requires n < |faults| && r.pc != Left
    ensures var (after, next) := ResumeStep(db, r, now, faults[n]);
            ResumeAlone(db, r, now, faults[n..]) == ResumeAlone(after, next, now, faults[n + 1..])
  {
    assert faults[n..][1..] == faults[n + 1..];
  }

  lemma ResumeIsOver(db: Db, r: Resume, now: int, faults: seq<Fault>)
    requires r.pc == Left
    ensures ResumeAlone(db, r, now, faults) == (db, r)
  {
  }

  /** The except branch: give the run back, errors swallowed. */
  method BackOut(store: RunStore, ghost r: Resume, run: RunId, worker: Worker, ghost now: int, faults: seq<Fault>,
                 n: nat)
    requires n < |faults| && r.pc == BackingOut && r.run == run && r.worker == worker
    modifies store
    ensures store.State() == ResumeAlone(old(store.State()), r, now, faults[n..]).0
  {
    hide ResumeAlone, ReleaseOrphaned;
    ResumeAloneNext(store.State(), r, now, faults, n);
    if faults[n] != RolledBack {
      var released := store.Release(run, worker);
    }
    ResumeIsOver(store.State(), r.(pc := Left), now, faults[n + 1..]);
  }

  /** The orphan sweep's effect on one row. */
  function Swept(row: RunRow, now: int): RunRow { if Lapsed(row, now) then Orphan(row) else row }

  /** A run recovery can complete: orphaned once swept, its answer stored. */
  predicate Recoverable(db: Db, now: int, run: RunId) {
    run in db.runs &&
    var row := Swept(db.runs[run], now);
    Resumable(row) && Claimable(row, now) && (row.stage == ResponseReady ==> MessageCount(db, run) > 0)
  }

  /** What the recovery route answers. */
  datatype ResumeReply =
    | LoadFailed | NotFound | AlreadyCompleted | TerminalFailure | LeaseActive
    | NewRunRequired | NeedsReview | NothingToDo
    | ClaimFailed | Unhandled | NotPersisted | RecoveryFailed | Recovered

  /** The answer for a row as the sweep leaves it, before the claim; None goes on to claim. */
  function ReplyForRow(row: RunRow): Option<ResumeReply> {
    if row.status == Succeeded then Some(AlreadyCompleted)
    else if row.status == FailedRun then Some(TerminalFailure)
    else if row.recovery != Orphaned then Some(LeaseActive)
    else
      match ActionFor(row.stage)
      case RetryNewRun => Some(NewRunRequired)
      case ManualReview => Some(NeedsReview)
      case NoOp => Some(NothingToDo)
      case CompletePersistedTail => None
  }

  /** The answer when nothing interleaves and no storage call fails. */
  function ReplyFor(db: Db, now: int, run: RunId, worker: Worker): ResumeReply {
    if run !in db.runs then NotFound
    else
      var row := Swept(db.runs[run], now);
      if ReplyForRow(row).Some? then ReplyForRow(row).value
      else if worker == "" then Unhandled
      else if !Claimable(row, now) then ClaimFailed
      else if row.stage == ResponseReady && MessageCount(db, run) == 0 then NotPersisted
      else Recovered
  }

  /** The answer under any faults: a failed load or claim is reported as such, and a failure later on as a failed
      recovery. */
  function ReplyUnder(db: Db, now: int, run: RunId, worker: Worker, faults: seq<Fault>): ResumeReply
    requires |faults| == 8
  {
    var meant := ReplyFor(db, now, run, worker);
    if !Clean(faults, 0, 2) then LoadFailed
    else if meant !in {ClaimFailed, NotPersisted, Recovered} then meant
    else if faults[2] != NoFault then Unhandled
    else if meant == ClaimFailed then ClaimFailed
    else if Clean(faults, 3, 3 + TailCalls(db, run, meant)) then meant
    else RecoveryFailed
  }

  /** The storage calls after the claim: the count and the release, or the count, the marks and the finish. */
  function TailCalls(db: Db, run: RunId, meant: ResumeReply): nat {
    if meant == NotPersisted then 2 else if run in db.runs && db.runs[run].stage == ResponseReady then 4 else 3
  }

  /** A run is recovered exactly when it is orphaned once swept, claimable, and its answer is stored. */
  lemma RecoveredExactlyWhen(db: Db, now: int, run: RunId, worker: Worker)
    ensures ReplyFor(db, now, run, worker) == Recovered <==> worker != "" && Recoverable(db, now, run)
  {
  }

  lemma SomeReplyUnlessResumable(row: RunRow)
    ensures ReplyForRow(row).None? <==> Resumable(row)
  {
  }

  lemma NoLoadReply(db: Db, now: int, run: RunId, worker: Worker, faults: seq<Fault>)
    requires |faults| == 8
    ensures !Clean(faults, 0, 2) ==> ReplyUnder(db, now, run, worker, faults) == LoadFailed
    ensures Clean(faults, 0, 2) && run !in db.runs ==> ReplyUnder(db, now, run, worker, faults) == NotFound
  {
    hide ReplyForRow, OfRun;
  }

  lemma EarlyReply(db: Db, now: int, run: RunId, worker: Worker, faults: seq<Fault>)
    requires |faults| == 8 && Clean(faults, 0, 2) && run in db.runs
    requires ReplyForRow(Swept(db.runs[run], now)).Some?
    ensures ReplyUnder(db, now, run, worker, faults) == ReplyForRow(Swept(db.runs[run], now)).value != Recovered
  {
    hide OfRun;
  }

  lemma TailReply(db: Db, now: int, run: RunId, worker: Worker, faults: seq<Fault>)
    requires |faults| == 8 && Clean(faults, 0, 2) && run in db.runs && Resumable(Swept(db.runs[run], now))
    ensures var row := Swept(db.runs[run], now);
            ReplyUnder(db, now, run, worker, faults) ==
            if worker == "" || faults[2] != NoFault then Unhandled
            else if !Claimable(row, now) then ClaimFailed
            else if row.stage == ResponseReady && MessageCount(db, run) == 0 then
              if Clean(faults, 3, 5) then NotPersisted else RecoveryFailed
            else if Clean(faults, 3, if row.stage == ResponseReady then 7 else 6) then Recovered
            else RecoveryFailed
  {
    hide OfRun;
  }

  /** run_resume_route: sweep, read, claim, then finish the tail of a run whose answer is already stored. */
  method ResumeRun(store: RunStore, run: RunId, worker: Worker, now: int, faults: seq<Fault>)
    returns (reply: ResumeReply)
    requires |faults| == 8
    modifies store
    ensures store.State() ==
            ResumeAlone(old(store.State()), Resume(Sweeping, run, "", worker, Created, 0), now, faults).0
    ensures reply == Recovered ==> run in store.runs && store.runs[run].status == Succeeded
    ensures reply == ReplyUnder(old(store.State()), now, run, worker, faults)
  {
    hide ResumeAlone, Claimable, ReplyForRow, OfRun, ReplyUnder, Resumable;
    ghost var before := store.State();
    NoLoadReply(before, now, run, worker, faults);
    ghost var r := Resume(Sweeping, run, "", worker, Created, 0);
    assert faults[0..] == faults;
    ResumeAloneNext(store.State(), r, now, faults, 0);
    if faults[0] != RolledBack {
      var marked := store.MarkLapsed(now);
    }
    if faults[0] != NoFault {
      ResumeIsOver(store.State(), r.(pc := Left), now, faults[1..]);
      return LoadFailed;
    }
    ghost var r1 := r.(pc := Reading);
    ResumeAloneNext(store.State(), r1, now, faults, 1);
    if faults[1] != NoFault || run !in store.runs {
      ResumeIsOver(store.State(), r1.(pc := Left), now, faults[2..]);
      return if faults[1] != NoFault then LoadFailed else NotFound;
    }
    var stage, early := store.runs[run].stage, ReplyForRow(store.runs[run]);
    assert store.runs[run] == Swept(before.runs[run], now);
    SomeReplyUnlessResumable(store.runs[run]);
    if early.Some? {
      ResumeIsOver(store.State(), r1.(pc := Left), now, faults[2..]);
      EarlyReply(before, now, run, worker, faults);
      return early.value;
    }
    TailReply(before, now, run, worker, faults);
    TailStage(store.runs[run]);
    reply := ClaimAndFinish(store, r1.(pc := Claiming, stage := stage), run, worker, stage, now, faults);
  }

  lemma TailStage(row: RunRow)
    requires Resumable(row)
    ensures row.stage in {ResponseReady, ResponsePersisted}
  {
  }

  method ClaimAndFinish(store: RunStore, ghost r: Resume, run: RunId, worker: Worker, stage: RunStage, now: int,
                        faults: seq<Fault>) returns (reply: ResumeReply)
    requires |faults| == 8 && r == Resume(Claiming, run, "", worker, stage, 0)
    requires run in store.runs && stage in {ResponseReady, ResponsePersisted}
    modifies store
    ensures store.State() == ResumeAlone(old(store.State()), r, now, faults[2..]).0
    ensures reply == Recovered ==> run in store.runs && store.runs[run].status == Succeeded
    ensures reply == if worker == "" || faults[2] != NoFault then Unhandled
                     else if !Claimable(old(store.runs[run]), now) then ClaimFailed
                     else if stage == ResponseReady && MessageCount(old(store.State()), run) == 0 then
                       if Clean(faults, 3, 5) then NotPersisted else RecoveryFailed
                     else if Clean(faults, 3, if stage == ResponseReady then 7 else 6) then Recovered
                     else RecoveryFailed
  {
    hide ResumeAlone, Claimable;
    ResumeAloneNext(store.State(), r, now, faults, 2);
    var claimed: Reply<Option<Claimed>> := StorageError;
    if faults[2] != RolledBack {
      claimed := store.Claim(now, run, worker, DEFAULT_LEASE);
    }
    if faults[2] != NoFault || !claimed.Value? || claimed.value.None? {
      ResumeIsOver(store.State(), r.(pc := Left), now, faults[3..]);
      return if faults[2] == NoFault && claimed.Value? then ClaimFailed else Unhandled;
    }
    var row := claimed.value.value;
    reply := CountAndFinish(store, r.(pc := Counting, session := row.session, attempt := row.attempt), run, worker,
                            row.session, stage, now, faults);
  }

  method CountAndFinish(store: RunStore, ghost r: Resume, run: RunId, worker: Worker, session: SessionId,
                        stage: RunStage, ghost now: int, faults: seq<Fault>) returns (reply: ResumeReply)
    requires |faults| == 8 && r == Resume(Counting, run, session, worker, stage, r.attempt)
    requires run in store.runs && stage in {ResponseReady, ResponsePersisted}
    modifies store
    ensures store.State() == ResumeAlone(old(store.State()), r, now, faults[3..]).0
    ensures reply == Recovered ==> run in store.runs && store.runs[run].status == Succeeded
    ensures reply == if stage == ResponseReady && MessageCount(old(store.State()), run) == 0 then
                       if Clean(faults, 3, 5) then NotPersisted else RecoveryFailed
                     else if Clean(faults, 3, if stage == ResponseReady then 7 else 6) then Recovered
                     else RecoveryFailed
  {
    hide ResumeAlone, ReleaseOrphaned, MessageCount;
    ResumeAloneNext(store.State(), r, now, faults, 3);
    if faults[3] != NoFault {
      BackOut(store, r.(pc := BackingOut), run, worker, now, faults, 4);
      return RecoveryFailed;
    }
    var count := MessageCount(store.State(), run);
    if stage == ResponseReady && count == 0 {
      reply := GiveBack(store, r.(pc := GivingBack), run, worker, now, faults);
      return;
    }
    if stage == ResponseReady {
      reply := MarkAndFinish(store, r.(pc := MarkingPersisted), run, worker, session, now, faults);
    } else {
      reply := FinishTail(store, r.(pc := Concluding), run, worker, session, now, faults, 4);
    }
  }

  method MarkAndFinish(store: RunStore, ghost r: Resume, run: RunId, worker: Worker, session: SessionId,
                       ghost now: int, faults: seq<Fault>) returns (reply: ResumeReply)
    requires |faults| == 8 && r == Resume(MarkingPersisted, run, session, worker, r.stage, r.attempt)
    requires run in store.runs
    modifies store
    ensures store.State() == ResumeAlone(old(store.State()), r, now, faults[4..]).0
    ensures reply == Recovered ==> run in store.runs && store.runs[run].status == Succeeded
    ensures reply == if Clean(faults, 4, 7) then Recovered else RecoveryFailed
  {
    hide ResumeAlone, ReleaseOrphaned;
    ResumeAloneNext(store.State(), r, now, faults, 4);
    if faults[4] != RolledBack {
      store.SaveCheckpoint(session, run, ResponsePersisted);
    }
    if faults[4] != NoFault {
      BackOut(store, r.(pc := BackingOut), run, worker, now, faults, 5);
      return RecoveryFailed;
    }
    reply := FinishTail(store, r.(pc := Concluding), run, worker, session, now, faults, 5);
  }

  method GiveBack(store: RunStore, ghost r: Resume, run: RunId, worker: Worker, ghost now: int, faults: seq<Fault>)
    returns (reply: ResumeReply)
    requires |faults| == 8 && r.pc == GivingBack && r.run == run && r.worker == worker
    modifies store
    ensures store.State() == ResumeAlone(old(store.State()), r, now, faults[4..]).0
    ensures reply == if faults[4] == NoFault then NotPersisted else RecoveryFailed
  {
    hide ResumeAlone, ReleaseOrphaned;
    ResumeAloneNext(store.State(), r, now, faults, 4);
    if faults[4] != RolledBack {
      var released := store.Release(run, worker);
    }
    if faults[4] != NoFault {
      BackOut(store, r.(pc := BackingOut), run, worker, now, faults, 5);
      return RecoveryFailed;
    }
    ResumeIsOver(store.State(), r.(pc := Left), now, faults[5..]);
    reply := NotPersisted;
  }

  method FinishTail(store: RunStore, ghost r: Resume, run: RunId, worker: Worker, session: SessionId, ghost now: int,
                    faults: seq<Fault>, n: nat) returns (reply: ResumeReply)
    requires n <= 5 && |faults| == 8 && r == Resume(Concluding, run, session, worker, r.stage, r.attempt)
    requires run in store.runs
    modifies store
    ensures store.State() == ResumeAlone(old(store.State()), r, now, faults[n..]).0
    ensures reply == Recovered ==> run in store.runs && store.runs[run].status == Succeeded
    ensures reply == if faults[n] == faults[n + 1] == NoFault then Recovered else RecoveryFailed
  {
    hide ResumeAlone;
    ResumeAloneNext(store.State(), r, now, faults, n);
    Conclude(store, run, true, None, faults[n]);
    if faults[n] != NoFault {
      BackOut(store, r.(pc := BackingOut), run, worker, now, faults, n + 1);
      return RecoveryFailed;
    }
    ghost var r1 := r.(pc := MarkingCompleted);
    ResumeAloneNext(store.State(), r1, now, faults, n + 1);
    if faults[n + 1] != RolledBack {
      store.SaveCheckpoint(session, run, Completed);
    }
    if faults[n + 1] != NoFault {
      BackOut(store, r1.(pc := BackingOut), run, worker, now, faults, n + 2);
      return RecoveryFailed;
    }
    ResumeIsOver(store.State(), r1.(pc := Left), now, faults[n + 2..]);
    reply := Recovered;
  }
}
