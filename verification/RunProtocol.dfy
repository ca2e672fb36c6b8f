/** Chat requests, their lease heartbeats, recovery requests and the orphan sweep, interleaved one
    storage transaction at a time. Any call can fail before or after it commits, and any handler can
    die between two calls. */
module RunProtocol {
  import opened Common
  import opened RunStages
  import opened MessageHistory
  import opened RunTables

  // ---- The chat handler

  datatype ChatPc =
    | EnsuringSession | LoadingHistory | Creating
    | SavingContext | SavingModel | Modelling
    | SavingReady | Appending | SavingPersisted | FinishingOk | SavingCompleted
    | FinishingFailed | SavingFailed
    | Gone

  /** A chat request between two storage calls; `stage` is its own RunState. */
  datatype Chat = Chat(
    pc: ChatPc, run: RunId, session: SessionId, worker: Worker,
    stage: RunStage, heartbeat: bool, batch: seq<Json>)

  /** The database after a transaction that may have been rolled back. */
  function Settle(before: Db, after: Db, fault: Fault): Db {
    if fault.RolledBack? then before else after
  }

  /** save_checkpoint: the local move happens first, an illegal one or a storage error is only logged. */
  function Save(db: Db, c: Chat, next: RunStage, fault: Fault, pc: ChatPc): (Db, Chat) {
    if Legal(c.stage, next) then
      (Settle(db, RecordCheckpoint(db, c.session, c.run, next), fault), c.(stage := next, pc := pc))
    else (db, c.(pc := pc))
  }

  /** The next storage call (or model run) of a chat request. `model` is what the model run returns. */
  function ChatStep(db: Db, c: Chat, now: int, fault: Fault, model: Option<seq<Json>>): (Db, Chat) {
    match c.pc
    case EnsuringSession =>
      (Settle(db, EnsureSession(db, c.session), fault), c.(pc := if fault.NoFault? then LoadingHistory else Gone))
    case LoadingHistory =>
      (db, c.(pc := if fault.NoFault? then Creating else Gone))
    case Creating =>
      var (after, reply) := CreateRun(db, now, c.run, c.session, Some(c.worker), DEFAULT_LEASE);
      (Settle(db, after, fault),
       if Seen(fault, reply).Value? then c.(pc := SavingContext, stage := Created) else c.(pc := Gone))
    case SavingContext =>
      var (after, c') := Save(db, c, ContextLoaded, fault, SavingModel);
      (after, c'.(heartbeat := true))
    case SavingModel => Save(db, c, ModelRunning, fault, Modelling)
    case Modelling =>
      (db, if model.Some? then c.(pc := SavingReady, heartbeat := false, batch := model.value)
           else c.(pc := FinishingFailed, heartbeat := false))
    case SavingReady => Save(db, c, ResponseReady, fault, Appending)
    case Appending =>
      (Settle(db, AppendMessages(db, c.session, c.run, c.batch), fault),
       c.(pc := if fault.NoFault? then SavingPersisted else FinishingFailed))
    case SavingPersisted => Save(db, c, ResponsePersisted, fault, FinishingOk)
    case FinishingOk =>
      (Settle(db, FinishRun(db, c.run, true, None), fault),
       c.(pc := if fault.NoFault? then SavingCompleted else FinishingFailed))
    case SavingCompleted => Save(db, c, Completed, fault, Gone)
    case FinishingFailed =>
      (Settle(db, FinishRun(db, c.run, false, Some("FAILED")), fault), c.(pc := SavingFailed))
    case SavingFailed => Save(db, c, Failed, fault, Gone)
    case Gone => (db, c)
  }

  /** The stage the handler is about to ask its RunState for. */
  function Attempted(pc: ChatPc): Option<RunStage> {
    match pc
    case SavingContext => Some(ContextLoaded)
    case SavingModel => Some(ModelRunning)
    case SavingReady => Some(ResponseReady)
    case SavingPersisted => Some(ResponsePersisted)
    case SavingCompleted => Some(Completed)
    case SavingFailed => Some(Failed)
    case _ => None
  }

  /** One beat of the lease heartbeat: it stops for good on a refusal or an error. */
  function Beat(db: Db, c: Chat, now: int, fault: Fault): (Db, Chat) {
    if c.heartbeat && c.pc in {SavingModel, Modelling} then
      var (after, reply) := RenewLease(db, now, c.run, c.worker, DEFAULT_LEASE);
      (Settle(db, after, fault), c.(heartbeat := Seen(fault, reply) == Value(true)))
    else (db, c)
  }

  // ---- The recovery handler

  datatype RecoveryPc =
    | Sweeping | Reading | Claiming | Counting
    | GivingBack | MarkingPersisted | Concluding | MarkingCompleted
    | BackingOut | Left

  /** A resume request; `stage` is the one it read before it claimed, `attempt` what the claim returned. */
  datatype Resume = Resume(
    pc: RecoveryPc, run: RunId, session: SessionId, worker: Worker, stage: RunStage, attempt: nat)

  predicate Resumable(row: RunRow) {
    row.status == Running && row.recovery == Orphaned && ActionFor(row.stage) == CompletePersistedTail
  }

  function ResumeStep(db: Db, r: Resume, now: int, fault: Fault): (Db, Resume) {
    match r.pc
    case Sweeping =>
      (Settle(db, MarkOrphaned(db, now).0, fault), r.(pc := if fault.NoFault? then Reading else Left))
    case Reading =>
      (db, if fault.NoFault? && r.run in db.runs && Resumable(db.runs[r.run])
           then r.(pc := Claiming, stage := db.runs[r.run].stage) else r.(pc := Left))
    case Claiming =>
      var (after, reply) := ClaimOrphaned(db, now, r.run, r.worker, DEFAULT_LEASE);
      (Settle(db, after, fault),
       if fault.NoFault? && reply.Value? && reply.value.Some? then
         r.(pc := Counting, session := reply.value.value.session, attempt := reply.value.value.attempt)
       else r.(pc := Left))
    case Counting =>
      (db,
       if !fault.NoFault? then r.(pc := BackingOut)
       else if r.stage != ResponseReady then r.(pc := Concluding)
       else if MessageCount(db, r.run) == 0 then r.(pc := GivingBack)
       else r.(pc := MarkingPersisted))
    case GivingBack =>
      (Settle(db, ReleaseOrphaned(db, r.run, r.worker).0, fault), r.(pc := if fault.NoFault? then Left else BackingOut))
    case MarkingPersisted =>
      (Settle(db, RecordCheckpoint(db, r.session, r.run, ResponsePersisted), fault),
       r.(pc := if fault.NoFault? then Concluding else BackingOut))
    case Concluding =>
      (Settle(db, FinishRun(db, r.run, true, None), fault),
       r.(pc := if fault.NoFault? then MarkingCompleted else BackingOut))
    case MarkingCompleted =>
      (Settle(db, RecordCheckpoint(db, r.session, r.run, Completed), fault),
       r.(pc := if fault.NoFault? then Left else BackingOut))
    case BackingOut =>
      (Settle(db, ReleaseOrphaned(db, r.run, r.worker).0, fault), r.(pc := Left))
    case Left => (db, r)
  }

  // ---- The whole system

  /** `log` is history only: the appends that committed, in order. */
  datatype Sys = Sys(db: Db, now: int, log: seq<Append>, chats: map<nat, Chat>, resumes: map<nat, Resume>)

  datatype Action =
    | ChatArrives(h: nat, run: RunId, session: SessionId, worker: Worker)
    | ChatActs(h: nat, fault: Fault, model: Option<seq<Json>>)
    | HeartbeatFires(h: nat, fault: Fault)
    | ResumeArrives(h: nat, run: RunId, worker: Worker)
    | ResumeActs(h: nat, fault: Fault)
    | ChatDies(h: nat)
    | ResumeDies(h: nat)
    | Sweep(fault: Fault)
    | Tick(seconds: nat)

  const START := Sys(EMPTY_DB, 0, [], map[], map[])

  function NextLog(log: seq<Append>, c: Chat, fault: Fault): seq<Append> {
    if c.pc == Appending && !fault.RolledBack? then log + [Append(c.session, c.run, c.batch)] else log
  }

  function Next(s: Sys, a: Action): Sys {
    match a
    case ChatArrives(h, run, session, worker) =>
      if h in s.chats then s
      else s.(chats := s.chats[h := Chat(EnsuringSession, run, session, worker, Created, false, [])])
    case ChatActs(h, fault, model) =>
      if h !in s.chats then s
      else
        var (db, c) := ChatStep(s.db, s.chats[h], s.now, fault, model);
        s.(db := db, log := NextLog(s.log, s.chats[h], fault), chats := s.chats[h := c])
    case HeartbeatFires(h, fault) =>
      if h !in s.chats then s
      else
        var (db, c) := Beat(s.db, s.chats[h], s.now, fault);
        s.(db := db, chats := s.chats[h := c])
    case ResumeArrives(h, run, worker) =>
      if h in s.resumes then s
      else s.(resumes := s.resumes[h := Resume(Sweeping, run, "", worker, Created, 0)])
    case ResumeActs(h, fault) =>
      if h !in s.resumes then s
      else
        var (db, r) := ResumeStep(s.db, s.resumes[h], s.now, fault);
        s.(db := db, resumes := s.resumes[h := r])
    case ChatDies(h) =>
      if h !in s.chats then s else s.(chats := s.chats[h := s.chats[h].(pc := Gone)])
    case ResumeDies(h) =>
      if h !in s.resumes then s else s.(resumes := s.resumes[h := s.resumes[h].(pc := Left)])
    case Sweep(fault) => s.(db := Settle(s.db, MarkOrphaned(s.db, s.now).0, fault))
    case Tick(seconds) => s.(now := s.now + seconds)
  }

  /** The system after any sequence of actions. */
  function After(actions: seq<Action>): Sys {
    if actions == [] then START else Next(After(actions[..|actions| - 1]), actions[|actions| - 1])
  }

  // ---- The invariant

  predicate Live(c: Chat) {
    c.pc !in {EnsuringSession, LoadingHistory, Creating, Gone}
  }

  predicate BeforeAppend(c: Chat) {
    c.pc in {SavingContext, SavingModel, Modelling, SavingReady, Appending}
  }

  predicate AfterAppend(c: Chat) {
    c.pc in {SavingPersisted, FinishingOk, SavingCompleted}
  }

  predicate StageMatches(pc: ChatPc, stage: RunStage) {
    match pc
    case SavingContext => stage == Created
    case SavingModel => stage == ContextLoaded
    case Modelling => stage == ModelRunning
    case SavingReady => stage == ModelRunning
    case Appending => stage == ResponseReady
    case SavingPersisted => stage == ResponseReady
    case FinishingOk => stage == ResponsePersisted
    case SavingCompleted => stage == ResponsePersisted
    case FinishingFailed => stage in {ModelRunning, ResponseReady, ResponsePersisted}
    case SavingFailed => stage in {ModelRunning, ResponseReady, ResponsePersisted}
    case _ => true
  }

  predicate Over(db: Db, run: RunId) {
    run in db.runs && db.runs[run].status != Running
  }

  predicate RowOk(log: seq<Append>, run: RunId, row: RunRow) {
    && (row.stage in {ResponsePersisted, Completed} || row.status == Succeeded ==> Logged(log, run))
    && (row.stage == Completed ==> row.status != Running)
  }

  predicate ChatOk(db: Db, log: seq<Append>, c: Chat) {
    && StageMatches(c.pc, c.stage)
    && (Live(c) ==> c.run in db.runs)
    && (BeforeAppend(c) ==> !Logged(log, c.run))
    && (AfterAppend(c) ==> Logged(log, c.run))
    && (c.pc == SavingCompleted ==> Over(db, c.run))
  }

  predicate ResumeOk(db: Db, log: seq<Append>, r: Resume) {
    && (r.pc !in {Sweeping, Reading, Left} ==> r.run in db.runs && r.stage in {ResponseReady, ResponsePersisted})
    && (r.pc !in {Sweeping, Reading, Left} && r.stage == ResponsePersisted ==> Logged(log, r.run))
    && (r.pc in {MarkingPersisted, Concluding, MarkingCompleted} ==> Logged(log, r.run))
    && (r.pc == MarkingCompleted ==> Over(db, r.run))
  }

  ghost predicate DbOk(db: Db, log: seq<Append>) {
    && db.messages == Table(log)
    && (forall i :: 0 <= i < |log| ==> log[i].run in db.runs)
    && (forall i, j :: 0 <= i < j < |log| ==> log[i].run != log[j].run)
    && (forall run :: run in db.runs ==> RowOk(log, run, db.runs[run]))
  }

  ghost predicate OneChatPerRun(chats: map<nat, Chat>) {
    forall h, k :: h in chats && k in chats && h != k && Live(chats[h]) && Live(chats[k]) ==>
      chats[h].run != chats[k].run
  }

  ghost predicate Inv(s: Sys) {
    && DbOk(s.db, s.log)
    && OneChatPerRun(s.chats)
    && (forall h :: h in s.chats ==> ChatOk(s.db, s.log, s.chats[h]))
    && (forall h :: h in s.resumes ==> ResumeOk(s.db, s.log, s.resumes[h]))
  }

  /** What every transaction does to the facts other handlers rely on. */
  ghost predicate Grows(db: Db, log: seq<Append>, db': Db, log': seq<Append>) {
    && (forall run :: run in db.runs ==> run in db'.runs)
    && (forall run :: Over(db, run) ==> Over(db', run))
    && (forall run :: Logged(log, run) ==> Logged(log', run))
  }

  lemma {:induction false} StoreStepsGrow(db: Db, log: seq<Append>, now: int, fault: Fault)
    ensures Grows(db, log, Settle(db, MarkOrphaned(db, now).0, fault), log)
    ensures DbOk(db, log) ==> DbOk(Settle(db, MarkOrphaned(db, now).0, fault), log)
  {
  }

  lemma LoggedAppend(log: seq<Append>, a: Append, run: RunId)
    ensures Logged(log + [a], run) <==> Logged(log, run) || a.run == run
  {
    if Logged(log, run) {
      var i :| 0 <= i < |log| && log[i].run == run;
      assert (log + [a])[i].run == run;
    }
    assert (log + [a])[|log|] == a;
  }

  lemma LoggedInRuns(db: Db, log: seq<Append>, run: RunId)
    requires DbOk(db, log) && Logged(log, run)
    ensures run in db.runs
  {
  }

  lemma SaveOk(db: Db, log: seq<Append>, session: SessionId, run: RunId, next: RunStage, fault: Fault)
    requires DbOk(db, log) && run in db.runs
    requires next in {ResponsePersisted, Completed} ==> Logged(log, run)
    requires next == Completed ==> Over(db, run)
    ensures var db' := Settle(db, RecordCheckpoint(db, session, run, next), fault);
            DbOk(db', log) && Grows(db, log, db', log)
  {
  }

  lemma FinishOk(db: Db, log: seq<Append>, run: RunId, succeeded: bool, errorCode: Option<string>, fault: Fault)
    requires DbOk(db, log) && run in db.runs
    requires succeeded ==> Logged(log, run)
    ensures var db' := Settle(db, FinishRun(db, run, succeeded, errorCode), fault);
            DbOk(db', log) && Grows(db, log, db', log) && (!fault.RolledBack? ==> Over(db', run))
  {
  }

  lemma CreateOk(db: Db, log: seq<Append>, c: Chat, now: int, fault: Fault)
    requires DbOk(db, log) && c.pc == Creating
    ensures var (db', c') := ChatStep(db, c, now, fault, None);
            && DbOk(db', log) && ChatOk(db', log, c') && Grows(db, log, db', log)
            && (Live(c') ==> c.run !in db.runs)
  {
    if Logged(log, c.run) {
      LoggedInRuns(db, log, c.run);
    }
  }

  predicate Saves(c: Chat) {
    Attempted(c.pc).Some?
  }

  lemma SavingStepShape(db: Db, log: seq<Append>, c: Chat, now: int, fault: Fault, model: Option<seq<Json>>)
    requires ChatOk(db, log, c) && Saves(c)
    ensures var next := Attempted(c.pc).value;
            var (db', c') := ChatStep(db, c, now, fault, model);
            && db' == Settle(db, RecordCheckpoint(db, c.session, c.run, next), fault)
            && c'.run == c.run && c'.stage == next && StageMatches(c'.pc, next)
            && (Live(c') ==> Live(c)) && (BeforeAppend(c') ==> BeforeAppend(c)) && (AfterAppend(c') ==> AfterAppend(c))
            && c'.pc != SavingCompleted
  {
  }

  lemma SavingStepOk(db: Db, log: seq<Append>, c: Chat, now: int, fault: Fault, model: Option<seq<Json>>)
    requires DbOk(db, log) && ChatOk(db, log, c) && Saves(c)
    ensures var (db', c') := ChatStep(db, c, now, fault, model);
            DbOk(db', log) && ChatOk(db', log, c') && Grows(db, log, db', log) && c'.run == c.run
  {
    SavingStepShape(db, log, c, now, fault, model);
    SaveOk(db, log, c.session, c.run, Attempted(c.pc).value, fault);
    OthersKeep(db, log, ChatStep(db, c, now, fault, model).0, log, c);
  }

  lemma FinishingStepOk(db: Db, log: seq<Append>, c: Chat, now: int, fault: Fault, model: Option<seq<Json>>)
    requires DbOk(db, log) && ChatOk(db, log, c) && c.pc in {FinishingOk, FinishingFailed}
    ensures var (db', c') := ChatStep(db, c, now, fault, model);
            DbOk(db', log) && ChatOk(db', log, c') && Grows(db, log, db', log) && c'.run == c.run
  {
    if c.pc == FinishingOk {
      FinishOk(db, log, c.run, true, None, fault);
    } else {
      FinishOk(db, log, c.run, false, Some("FAILED"), fault);
    }
  }

  lemma ChatStepOk(db: Db, log: seq<Append>, c: Chat, now: int, fault: Fault, model: Option<seq<Json>>)
    requires DbOk(db, log) && ChatOk(db, log, c) && c.pc != Appending
    ensures var (db', c') := ChatStep(db, c, now, fault, model);
            DbOk(db', log) && ChatOk(db', log, c') && Grows(db, log, db', log) && c'.run == c.run
    ensures Live(ChatStep(db, c, now, fault, model).1) && !Live(c) ==> c.run !in db.runs
  {
    if Saves(c) {
      SavingStepOk(db, log, c, now, fault, model);
    } else if c.pc in {FinishingOk, FinishingFailed} {
      FinishingStepOk(db, log, c, now, fault, model);
    } else if c.pc == Creating {
      CreateOk(db, log, c, now, fault);
    }
  }

  lemma LogExtends(log: seq<Append>, a: Append)
    requires !Logged(log, a.run) && forall i, j :: 0 <= i < j < |log| ==> log[i].run != log[j].run
    ensures forall run :: Logged(log + [a], run) <==> Logged(log, run) || a.run == run
    ensures forall i, j :: 0 <= i < j < |log + [a]| ==> (log + [a])[i].run != (log + [a])[j].run
    ensures Table(log + [a]) == AppendRows(Table(log), a)
  {
    hide AppendRows;
    forall run ensures Logged(log + [a], run) <==> Logged(log, run) || a.run == run {
      LoggedAppend(log, a, run);
    }
    assert (log + [a])[..|log|] == log;
    forall i | 0 <= i < |log| ensures log[i].run != a.run {
      LoggedAt(log, i);
    }
  }

  lemma AppendDbOk(db: Db, log: seq<Append>, a: Append)
    requires DbOk(db, log) && a.run in db.runs && !Logged(log, a.run)
    ensures var db' := AppendMessages(db, a.session, a.run, a.batch);
            DbOk(db', log + [a]) && Grows(db, log, db', log + [a]) && db'.runs == db.runs
    ensures forall run :: Logged(log + [a], run) <==> Logged(log, run) || a.run == run
  {
    hide Logged, Table, AppendRows;
    LogExtends(log, a);
  }

  lemma LoggedAt(log: seq<Append>, i: nat)
    requires i < |log|
    ensures Logged(log, log[i].run)
  {
  }

  lemma GrowsReflexive(db: Db, log: seq<Append>)
    ensures Grows(db, log, db, log)
  {
  }

  lemma AppendStepOk(db: Db, log: seq<Append>, c: Chat, now: int, fault: Fault, model: Option<seq<Json>>)
    requires DbOk(db, log) && ChatOk(db, log, c) && c.pc == Appending
    ensures var (db', c') := ChatStep(db, c, now, fault, model);
            var log' := NextLog(log, c, fault);
            && DbOk(db', log') && ChatOk(db', log', c') && Grows(db, log, db', log') && c'.run == c.run
            && forall run :: run != c.run ==> (Logged(log', run) <==> Logged(log, run))
  {
    hide DbOk, Logged, Grows, RowOk, AppendMessages;
    AppendDbOk(db, log, Append(c.session, c.run, c.batch));
    assert Grows(db, log, db, log) by { GrowsReflexive(db, log); }
  }

  lemma ReleaseOk(db: Db, log: seq<Append>, run: RunId, worker: Worker, fault: Fault)
    requires DbOk(db, log)
    ensures var db' := Settle(db, ReleaseOrphaned(db, run, worker).0, fault);
            DbOk(db', log) && Grows(db, log, db', log)
  {
  }

  lemma ClaimOk(db: Db, log: seq<Append>, r: Resume, now: int, fault: Fault)
    requires DbOk(db, log) && ResumeOk(db, log, r) && r.pc == Claiming
    ensures var (db', r') := ResumeStep(db, r, now, fault);
            DbOk(db', log) && ResumeOk(db', log, r') && Grows(db, log, db', log)
  {
  }

  lemma ResumeStepOk(db: Db, log: seq<Append>, r: Resume, now: int, fault: Fault)
    requires DbOk(db, log) && ResumeOk(db, log, r)
    ensures var (db', r') := ResumeStep(db, r, now, fault);
            DbOk(db', log) && ResumeOk(db', log, r') && Grows(db, log, db', log)
  {
    hide RowOk, MarkOrphaned, Table, Logged;
    match r.pc {
      case Sweeping => StoreStepsGrow(db, log, now, fault);
      case Reading =>
        if r.run in db.runs { ReadOk(db, log, r.run); }
      case Claiming => ClaimOk(db, log, r, now, fault);
      case Counting => CountOk(db, log, r.run);
      case GivingBack => ReleaseOk(db, log, r.run, r.worker, fault);
      case MarkingPersisted => SaveOk(db, log, r.session, r.run, ResponsePersisted, fault);
      case Concluding => FinishOk(db, log, r.run, true, None, fault);
      case MarkingCompleted => SaveOk(db, log, r.session, r.run, Completed, fault);
      case BackingOut => ReleaseOk(db, log, r.run, r.worker, fault);
      case Left =>
    }
  }

  lemma ReadOk(db: Db, log: seq<Append>, run: RunId)
    requires DbOk(db, log) && run in db.runs
    ensures db.runs[run].stage == ResponsePersisted ==> Logged(log, run)
  {
    assert RowOk(log, run, db.runs[run]);
  }

  lemma CountOk(db: Db, log: seq<Append>, run: RunId)
    requires DbOk(db, log)
    ensures MessageCount(db, run) > 0 ==> Logged(log, run)
  {
    if !Logged(log, run) {
      UnloggedHasNoRows(log, run);
    }
  }

  /** Facts of handlers that did not act survive. */
  lemma OthersKeep(db: Db, log: seq<Append>, db': Db, log': seq<Append>, c: Chat)
    requires Grows(db, log, db', log') && ChatOk(db, log, c)
    requires BeforeAppend(c) ==> !Logged(log', c.run)
    ensures ChatOk(db', log', c)
  {
  }

  /** A chat handler's step keeps the invariant when it keeps the database's and its own part of it. */
  lemma ChatMoveKeepsInv(s: Sys, h: nat, db': Db, log': seq<Append>, c': Chat)
    requires Inv(s) && h in s.chats
    requires DbOk(db', log') && ChatOk(db', log', c') && Grows(s.db, s.log, db', log')
    requires c'.run == s.chats[h].run
    requires Live(c') && !Live(s.chats[h]) ==> c'.run !in s.db.runs
    requires forall run :: run != c'.run || !Live(s.chats[h]) ==> (Logged(log', run) <==> Logged(s.log, run))
    ensures Inv(s.(db := db', log := log', chats := s.chats[h := c']))
  {
    hide DbOk, Table, RowOk;
    forall k | k in s.chats && k != h
      ensures ChatOk(db', log', s.chats[k])
      ensures Live(c') && Live(s.chats[k]) ==> c'.run != s.chats[k].run
    {
      assert ChatOk(s.db, s.log, s.chats[k]);
      OthersKeep(s.db, s.log, db', log', s.chats[k]);
    }
  }

  lemma ChatActsKeepsInv(s: Sys, h: nat, fault: Fault, model: Option<seq<Json>>)
    requires Inv(s) && h in s.chats
    ensures Inv(Next(s, ChatActs(h, fault, model)))
  {
    hide ChatStep, DbOk, Grows, RowOk, StageMatches;
    var c := s.chats[h];
    assert ChatOk(s.db, s.log, c);
    var (db', c') := ChatStep(s.db, c, s.now, fault, model);
    if c.pc == Appending {
      AppendStepOk(s.db, s.log, c, s.now, fault, model);
    } else {
      ChatStepOk(s.db, s.log, c, s.now, fault, model);
    }
    ChatMoveKeepsInv(s, h, db', NextLog(s.log, c, fault), c');
  }

  lemma ResumeActsKeepsInv(s: Sys, h: nat, fault: Fault)
    requires Inv(s) && h in s.resumes
    ensures Inv(Next(s, ResumeActs(h, fault)))
  {
    hide ResumeStep, DbOk, RowOk, StageMatches;
    var s' := Next(s, ResumeActs(h, fault));
    ResumeStepOk(s.db, s.log, s.resumes[h], s.now, fault);
    forall k | k in s.chats ensures ChatOk(s'.db, s'.log, s'.chats[k]) {
      OthersKeep(s.db, s.log, s'.db, s'.log, s.chats[k]);
    }
  }

  lemma BeatOk(db: Db, log: seq<Append>, c: Chat, now: int, fault: Fault)
    requires DbOk(db, log) && ChatOk(db, log, c)
    ensures var (db', c') := Beat(db, c, now, fault);
            && DbOk(db', log) && ChatOk(db', log, c') && Grows(db, log, db', log)
            && c' == c.(heartbeat := c'.heartbeat)
  {
  }

  lemma BeatKeepsInv(s: Sys, h: nat, fault: Fault)
    requires Inv(s) && h in s.chats
    ensures Inv(Next(s, HeartbeatFires(h, fault)))
  {
    hide Beat, DbOk, Grows, RowOk, StageMatches;
    var (db', c') := Beat(s.db, s.chats[h], s.now, fault);
    BeatOk(s.db, s.log, s.chats[h], s.now, fault);
    ChatMoveKeepsInv(s, h, db', s.log, c');
  }

  lemma SweepKeepsInv(s: Sys, fault: Fault)
    requires Inv(s)
    ensures Inv(Next(s, Sweep(fault)))
  {
    hide DbOk, RowOk, StageMatches, MarkOrphaned;
    var s' := Next(s, Sweep(fault));
    StoreStepsGrow(s.db, s.log, s.now, fault);
    forall k | k in s.chats ensures ChatOk(s'.db, s'.log, s'.chats[k]) {
      OthersKeep(s.db, s.log, s'.db, s'.log, s.chats[k]);
    }
  }

  lemma NextKeepsInv(s: Sys, a: Action)
    requires Inv(s)
    ensures Inv(Next(s, a))
  {
    hide ChatStep, ResumeStep, Beat, MarkOrphaned, DbOk, RowOk, Logged;
    match a {
      case ChatActs(h, fault, model) => if h in s.chats { ChatActsKeepsInv(s, h, fault, model); }
      case ResumeActs(h, fault) => if h in s.resumes { ResumeActsKeepsInv(s, h, fault); }
      case HeartbeatFires(h, fault) => if h in s.chats { BeatKeepsInv(s, h, fault); }
      case Sweep(fault) => SweepKeepsInv(s, fault);
      case _ =>
    }
  }

  lemma {:induction false} InvAlways(actions: seq<Action>)
    ensures Inv(After(actions))
  {
    if actions != [] {
      InvAlways(actions[..|actions| - 1]);
      NextKeepsInv(After(actions[..|actions| - 1]), actions[|actions| - 1]);
    }
  }

  // ---- The guarantees

  /** In every interleaving, with any faults and deaths, a succeeded run committed its batch by exactly
      one append, and the message table holds exactly that batch for it, in order. */
  lemma SucceededRunsAreCommitted(actions: seq<Action>, run: RunId)
    requires run in After(actions).db.runs && After(actions).db.runs[run].status == Succeeded
    ensures exists i ::
              && 0 <= i < |After(actions).log|
              && After(actions).log[i].run == run
              && (forall j :: 0 <= j < |After(actions).log| && j != i ==> After(actions).log[j].run != run)
              && Bodies(OfRun(After(actions).db.messages, run)) == After(actions).log[i].batch
  {
    InvAlways(actions);
    var s := After(actions);
    assert RowOk(s.log, run, s.db.runs[run]);
    var i :| 0 <= i < |s.log| && s.log[i].run == run;
    OnceLoggedHasItsBatch(s.log, i);
  }

  /** The stage the table shows never promises more than was committed. */
  lemma PersistedStagesAreCommitted(actions: seq<Action>, run: RunId)
    requires run in After(actions).db.runs
    ensures var s := After(actions);
            && (s.db.runs[run].stage in {ResponsePersisted, Completed} ==> Logged(s.log, run))
            && (s.db.runs[run].stage == Completed ==> s.db.runs[run].status != Running)
            && (s.db.runs[run].stage == ResponseReady && MessageCount(s.db, run) > 0 ==> Logged(s.log, run))
  {
    InvAlways(actions);
    var s := After(actions);
    assert RowOk(s.log, run, s.db.runs[run]);
    if !Logged(s.log, run) {
      UnloggedHasNoRows(s.log, run);
    }
  }

  /** Every stage move a chat request asks for is legal, on every success, failure and swallowed-write path. */
  lemma AttemptedTransitionsAreLegal(actions: seq<Action>, h: nat)
    requires h in After(actions).chats
    ensures var c := After(actions).chats[h];
            Attempted(c.pc).Some? ==> Legal(c.stage, Attempted(c.pc).value)
  {
    InvAlways(actions);
    assert ChatOk(After(actions).db, After(actions).log, After(actions).chats[h]);
  }

  /** The conversation table is the committed batches, so each session reads back its joined tail. */
  lemma HistoryAlwaysReadsBack(actions: seq<Action>, session: SessionId, limit: nat)
    ensures var s := After(actions);
            var history := Bodies(Recent(s.db.messages, session, limit));
            var tail := LastN(Joined(s.log, session), limit);
            && |history| == Min(limit, |Joined(s.log, session)|) == |tail|
            && forall i :: 0 <= i < |history| ==> history[i] == tail[i].1
  {
    InvAlways(actions);
    HistoryIsTail(After(actions).log, session, limit);
  }
}
