/** The run, message and checkpoint tables. Each transaction is a function on the database value and
    a method of the store that carries it out in place. */
module RunTables {
  import opened Common
  import opened RunStages
  import opened MessageHistory

  type Worker = string

  datatype Status = Running | Succeeded | FailedRun

  datatype Recovery = Active | Orphaned | Resolved

  datatype RunRow = RunRow(
    session: SessionId,
    status: Status,
    stage: RunStage,
    recovery: Recovery,
    worker: Option<Worker>,
    leaseExpires: Option<int>,
    leaseVersion: nat,
    attemptCount: nat,
    errorCode: Option<string>)

  datatype Checkpoint = Checkpoint(session: SessionId, run: RunId, stage: RunStage)

  datatype Db = Db(
    sessions: set<SessionId>,
    runs: map<RunId, RunRow>,
    messages: seq<MessageRow>,
    checkpoints: seq<Checkpoint>)

  /** What claim_orphaned_run returns of the row it took. */
  datatype Claimed = Claimed(session: SessionId, stage: RunStage, attempt: nat)

  const EMPTY_DB := Db({}, map[], [], [])
  const DEFAULT_LEASE := 120

  predicate ValidLease(seconds: int) {
    30 <= seconds <= 900
  }

  function WithRun(db: Db, run: RunId, row: RunRow): Db {
    db.(runs := db.runs[run := row])
  }

  function EnsureSession(db: Db, session: SessionId): Db {
    db.(sessions := db.sessions + {session})
  }

  /** The primary key refuses a second row for one run id. */
  function CreateRun(db: Db, now: int, run: RunId, session: SessionId, worker: Option<Worker>, lease: int)
    : (Db, Reply<()>)
  {
    if !ValidLease(lease) then (db, ValueError)
    else if run in db.runs then (db, StorageError)
    else
      (WithRun(db, run, RunRow(session, Running, Created, Active, worker, Some(now + lease), 1, 1, None)),
       Value(()))
  }

  function FinishRun(db: Db, run: RunId, succeeded: bool, errorCode: Option<string>): Db {
    if run !in db.runs then db
    else
      WithRun(db, run, db.runs[run].(
        status := if succeeded then Succeeded else FailedRun,
        errorCode := errorCode,
        worker := None,
        leaseExpires := None,
        recovery := Resolved))
  }

  predicate Renewable(row: RunRow, now: int, worker: Worker) {
    row.status == Running && row.worker == Some(worker) && row.leaseExpires.Some? && row.leaseExpires.value > now
  }

  function RenewLease(db: Db, now: int, run: RunId, worker: Worker, lease: int): (Db, Reply<bool>) {
    if worker == "" || !ValidLease(lease) then (db, ValueError)
    else if run in db.runs && Renewable(db.runs[run], now, worker) then
      var row := db.runs[run];
      (WithRun(db, run, row.(leaseExpires := Some(now + lease), leaseVersion := row.leaseVersion + 1)),
       Value(true))
    else (db, Value(false))
  }

  predicate Lapsed(row: RunRow, now: int) {
    row.status == Running && row.recovery == Active && row.leaseExpires.Some? && row.leaseExpires.value <= now
  }

  function Orphan(row: RunRow): RunRow {
    row.(recovery := Orphaned, errorCode := Some("WORKER_LOST"), worker := None, leaseExpires := None)
  }

  function MarkOrphaned(db: Db, now: int): (Db, set<RunId>) {
    (db.(runs := map run | run in db.runs :: if Lapsed(db.runs[run], now) then Orphan(db.runs[run]) else db.runs[run]),
     set run | run in db.runs && Lapsed(db.runs[run], now))
  }

  predicate Claimable(row: RunRow, now: int) {
    row.status == Running && row.recovery == Orphaned && (row.leaseExpires.None? || row.leaseExpires.value <= now)
  }

  function ClaimOrphaned(db: Db, now: int, run: RunId, worker: Worker, lease: int): (Db, Reply<Option<Claimed>>) {
    if worker == "" || !ValidLease(lease) then (db, ValueError)
    else if run in db.runs && Claimable(db.runs[run], now) then
      var row := db.runs[run];
      var taken := row.(
        recovery := Active,
        worker := Some(worker),
        leaseExpires := Some(now + lease),
        leaseVersion := row.leaseVersion + 1,
        attemptCount := row.attemptCount + 1);
      (WithRun(db, run, taken), Value(Some(Claimed(row.session, row.stage, taken.attemptCount))))
    else (db, Value(None))
  }

  predicate Releasable(row: RunRow, worker: Worker) {
    row.status == Running && row.worker == Some(worker)
  }

  function ReleaseOrphaned(db: Db, run: RunId, worker: Worker): (Db, bool) {
    if run in db.runs && Releasable(db.runs[run], worker) then
      (WithRun(db, run, db.runs[run].(
         recovery := Orphaned,
         errorCode := Some("RECOVERY_REQUIRES_NEW_RUN"),
         worker := None,
         leaseExpires := None)),
       true)
    else (db, false)
  }

  /** One transaction: the checkpoint row and the run's stage change together. */
  function RecordCheckpoint(db: Db, session: SessionId, run: RunId, stage: RunStage): Db {
    db.(checkpoints := db.checkpoints + [Checkpoint(session, run, stage)],
        runs := if run in db.runs then db.runs[run := db.runs[run].(stage := stage)] else db.runs)
  }

  function AppendMessages(db: Db, session: SessionId, run: RunId, batch: seq<Json>): Db {
    db.(messages := AppendRows(db.messages, Append(session, run, batch)))
  }

  function MessageCount(db: Db, run: RunId): nat {
    |OfRun(db.messages, run)|
  }

  /** The last stage checkpointed for a run, Created before the first. */
  function ReplayStage(checkpoints: seq<Checkpoint>, run: RunId): RunStage {
    if checkpoints == [] then Created
    else if checkpoints[|checkpoints| - 1].run == run then checkpoints[|checkpoints| - 1].stage
    else ReplayStage(checkpoints[..|checkpoints| - 1], run)
  }

  class RunStore {
    var sessions: set<SessionId>
    var runs: map<RunId, RunRow>
    var messages: seq<MessageRow>
    var checkpoints: seq<Checkpoint>

    function State(): Db
      reads this
    {
      Db(sessions, runs, messages, checkpoints)
    }

    constructor ()
      ensures State() == EMPTY_DB
    {
      sessions, runs, messages, checkpoints := {}, map[], [], [];
    }

    method EnsureSessionRow(session: SessionId)
      modifies this
      ensures State() == EnsureSession(old(State()), session)
    {
      sessions := sessions + {session};
    }

    method Create(now: int, run: RunId, session: SessionId, worker: Option<Worker>, lease: int)
      returns (reply: Reply<()>)
      modifies this
      ensures (State(), reply) == CreateRun(old(State()), now, run, session, worker, lease)
    {
      if lease < 30 || lease > 900 {
        return ValueError;
      }
      if run in runs {
        return StorageError;
      }
      runs := runs[run := RunRow(session, Running, Created, Active, worker, Some(now + lease), 1, 1, None)];
      reply := Value(());
    }

    method Finish(run: RunId, succeeded: bool, errorCode: Option<string>)
      modifies this
      ensures State() == FinishRun(old(State()), run, succeeded, errorCode)
    {
      if run in runs {
        var row := runs[run];
        row := row.(status := if succeeded then Succeeded else FailedRun, errorCode := errorCode);
        row := row.(worker := None, leaseExpires := None, recovery := Resolved);
        runs := runs[run := row];
      }
    }

    method Renew(now: int, run: RunId, worker: Worker, lease: int) returns (reply: Reply<bool>)
      modifies this
      ensures (State(), reply) == RenewLease(old(State()), now, run, worker, lease)
    {
      if worker == "" || lease < 30 || lease > 900 {
        return ValueError;
      }
      if run !in runs || !Renewable(runs[run], now, worker) {
        return Value(false);
      }
      runs := runs[run := runs[run].(leaseExpires := Some(now + lease), leaseVersion := runs[run].leaseVersion + 1)];
      reply := Value(true);
    }

    method MarkLapsed(now: int) returns (marked: set<RunId>)
      modifies this
      ensures (State(), marked) == MarkOrphaned(old(State()), now)
    {
      marked := set run | run in runs && Lapsed(runs[run], now);
      runs := map run | run in runs :: if Lapsed(runs[run], now) then Orphan(runs[run]) else runs[run];
    }

    method Claim(now: int, run: RunId, worker: Worker, lease: int) returns (reply: Reply<Option<Claimed>>)
      modifies this
      ensures (State(), reply) == ClaimOrphaned(old(State()), now, run, worker, lease)
    {
      if worker == "" || lease < 30 || lease > 900 {
        return ValueError;
      }
      if run !in runs || !Claimable(runs[run], now) {
        return Value(None);
      }
      var row := runs[run];
      row := row.(recovery := Active, worker := Some(worker), leaseExpires := Some(now + lease));
      row := row.(leaseVersion := row.leaseVersion + 1, attemptCount := row.attemptCount + 1);
      runs := runs[run := row];
      reply := Value(Some(Claimed(row.session, row.stage, row.attemptCount)));
    }

    method Release(run: RunId, worker: Worker) returns (released: bool)
      modifies this
      ensures (State(), released) == ReleaseOrphaned(old(State()), run, worker)
    {
      released := run in runs && Releasable(runs[run], worker);
      if released {
        var row := runs[run].(recovery := Orphaned, errorCode := Some("RECOVERY_REQUIRES_NEW_RUN"));
        runs := runs[run := row.(worker := None, leaseExpires := None)];
      }
    }

    method SaveCheckpoint(session: SessionId, run: RunId, stage: RunStage)
      modifies this
      ensures State() == RecordCheckpoint(old(State()), session, run, stage)
    {
      checkpoints := checkpoints + [Checkpoint(session, run, stage)];
      if run in runs {
        runs := runs[run := runs[run].(stage := stage)];
      }
    }

    /** Inserts the batch row by row from the next free sequence number. */
    method AppendNewMessages(session: SessionId, run: RunId, batch: seq<Json>) returns (count: nat)
      modifies this
      ensures State() == AppendMessages(old(State()), session, run, batch)
      ensures count == |batch|
    {
      var next := NextSequence(messages, session);
      ghost var block := BatchRows(Append(session, run, batch), next);
      for offset := 0 to |batch|
        invariant messages == old(messages) + block[..offset]
        invariant sessions == old(sessions) && runs == old(runs) && checkpoints == old(checkpoints)
      {
        messages := messages + [MessageRow(session, run, next + offset, batch[offset])];
        assert block[..offset + 1] == block[..offset] + [block[offset]];
      }
      assert block[..|batch|] == block;
      count := |batch|;
    }

    method LoadMessageHistory(session: SessionId, limit: nat) returns (history: seq<Json>)
      ensures history == Bodies(Recent(messages, session, limit))
    {
      var rows := Recent(messages, session, limit);
      history := [];
      for i := 0 to |rows|
        invariant history == Bodies(rows)[..i]
      {
        history := history + [rows[i].body];
      }
    }
  }
}
