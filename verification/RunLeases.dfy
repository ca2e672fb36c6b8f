/** The life of a run row under any workers, in any order, on a non-decreasing database clock. */
module RunLeases {
  import opened Common
  import opened RunStages
  import opened MessageHistory
  import opened RunTables

  datatype Op =
    | Create(run: RunId, session: SessionId, worker: Option<Worker>, lease: int)
    | Renew(run: RunId, holder: Worker, lease: int)
    | Mark
    | Claim(run: RunId, holder: Worker, lease: int)
    | Release(run: RunId, holder: Worker)
    | Finish(run: RunId, succeeded: bool, errorCode: Option<string>)
    | Save(run: RunId, session: SessionId, stage: RunStage)

  datatype Event = Event(now: int, op: Op)

  function Apply(db: Db, e: Event): Db {
    match e.op
    case Create(run, session, worker, lease) => CreateRun(db, e.now, run, session, worker, lease).0
    case Renew(run, holder, lease) => RenewLease(db, e.now, run, holder, lease).0
    case Mark => MarkOrphaned(db, e.now).0
    case Claim(run, holder, lease) => ClaimOrphaned(db, e.now, run, holder, lease).0
    case Release(run, holder) => ReleaseOrphaned(db, run, holder).0
    case Finish(run, succeeded, errorCode) => FinishRun(db, run, succeeded, errorCode)
    case Save(run, session, stage) => RecordCheckpoint(db, session, run, stage)
  }

  /** The database after a trace, starting from no runs. */
  function After(trace: seq<Event>): Db {
    if trace == [] then EMPTY_DB else Apply(After(trace[..|trace| - 1]), trace[|trace| - 1])
  }

  ghost predicate ClockNeverGoesBack(trace: seq<Event>) {
    forall i, j :: 0 <= i < j < |trace| ==> trace[i].now <= trace[j].now
  }

  // ---- The three shapes of a row

  predicate Held(row: RunRow) {
    row.status == Running && row.recovery == Active && row.leaseExpires.Some?
  }

  predicate Abandoned(row: RunRow) {
    row.status == Running && row.recovery == Orphaned && row.worker.None? && row.leaseExpires.None?
  }

  predicate Ended(row: RunRow) {
    row.status != Running && row.recovery == Resolved && row.worker.None? && row.leaseExpires.None?
  }

  predicate Shaped(row: RunRow) {
    Held(row) || Abandoned(row) || Ended(row)
  }

  lemma StepKeepsShape(db: Db, e: Event, run: RunId)
    requires run in db.runs ==> Shaped(db.runs[run])
    ensures run in Apply(db, e).runs <==> run in db.runs || Creates(db, e, run)
    ensures run in Apply(db, e).runs ==> Shaped(Apply(db, e).runs[run])
    ensures run in db.runs && db.runs[run].status != Running ==> Apply(db, e).runs[run].status != Running
  {
  }

  lemma {:induction false} RowsKeepTheirShape(trace: seq<Event>, run: RunId)
    requires run in After(trace).runs
    ensures var row := After(trace).runs[run];
            && Shaped(row)
            && !(Held(row) && Abandoned(row)) && !(Held(row) && Ended(row)) && !(Abandoned(row) && Ended(row))
  {
    hide Apply;
    var front := trace[..|trace| - 1];
    if run in After(front).runs {
      RowsKeepTheirShape(front, run);
    }
    StepKeepsShape(After(front), trace[|trace| - 1], run);
  }

  // ---- Which operations took effect on a run

  predicate Creates(db: Db, e: Event, run: RunId) {
    e.op.Create? && e.op.run == run && ValidLease(e.op.lease) && run !in db.runs
  }

  predicate Renews(db: Db, e: Event, run: RunId) {
    && e.op.Renew? && e.op.run == run && run in db.runs && e.op.holder != "" && ValidLease(e.op.lease)
    && Renewable(db.runs[run], e.now, e.op.holder)
  }

  predicate Claims(db: Db, e: Event, run: RunId) {
    && e.op.Claim? && e.op.run == run && run in db.runs && e.op.holder != "" && ValidLease(e.op.lease)
    && Claimable(db.runs[run], e.now)
  }

  function ClaimCount(trace: seq<Event>, run: RunId): nat {
    if trace == [] then 0
    else
      var front, e := trace[..|trace| - 1], trace[|trace| - 1];
      ClaimCount(front, run) + if Claims(After(front), e, run) then 1 else 0
  }

  function RenewalCount(trace: seq<Event>, run: RunId): nat {
    if trace == [] then 0
    else
      var front, e := trace[..|trace| - 1], trace[|trace| - 1];
      RenewalCount(front, run) + if Renews(After(front), e, run) then 1 else 0
  }

  lemma StepCounts(db: Db, e: Event, run: RunId)
    ensures run in Apply(db, e).runs <==> run in db.runs || Creates(db, e, run)
    ensures Claims(db, e, run) || Renews(db, e, run) ==> run in db.runs
    ensures run in db.runs ==>
              var row, next := db.runs[run], Apply(db, e).runs[run];
              var claimed := if Claims(db, e, run) then 1 else 0;
              var renewed := if Renews(db, e, run) then 1 else 0;
              && next.attemptCount == row.attemptCount + claimed
              && next.leaseVersion == row.leaseVersion + claimed + renewed
    ensures Creates(db, e, run) ==> Apply(db, e).runs[run].attemptCount == Apply(db, e).runs[run].leaseVersion == 1
  {
  }

  /** attempt_count is 1 + claims and lease_version 1 + claims + renewals. */
  lemma {:induction false} CountersCount(trace: seq<Event>, run: RunId)
    ensures run in After(trace).runs ==>
              && After(trace).runs[run].attemptCount == 1 + ClaimCount(trace, run)
              && After(trace).runs[run].leaseVersion == 1 + ClaimCount(trace, run) + RenewalCount(trace, run)
    ensures run !in After(trace).runs ==> ClaimCount(trace, run) == RenewalCount(trace, run) == 0
  {
    hide Apply, Claims, Renews, Creates;
    if trace != [] {
      var front := trace[..|trace| - 1];
      CountersCount(front, run);
      StepCounts(After(front), trace[|trace| - 1], run);
    }
  }

  // ---- Terminal rows

  lemma {:induction false} TerminalNeverRunsAgain(trace: seq<Event>, cut: nat, run: RunId)
    requires cut <= |trace|
    requires run in After(trace[..cut]).runs && After(trace[..cut]).runs[run].status != Running
    ensures run in After(trace).runs && Ended(After(trace).runs[run])
  {
    hide Apply;
    if cut == |trace| {
      assert trace[..cut] == trace;
    } else {
      var front := trace[..|trace| - 1];
      assert front[..cut] == trace[..cut];
      TerminalNeverRunsAgain(front, cut, run);
      StepKeepsShape(After(front), trace[|trace| - 1], run);
    }
    if run in After(trace).runs {
      RowsKeepTheirShape(trace, run);
    }
  }

  /** How the last finish of a run after some point ended it, if there was one. */
  function LastFinish(trace: seq<Event>, cut: nat, run: RunId): Option<bool> {
    if |trace| <= cut then None
    else
      var op := trace[|trace| - 1].op;
      if op.Finish? && op.run == run then Some(op.succeeded) else LastFinish(trace[..|trace| - 1], cut, run)
  }

  lemma EndedStep(db: Db, e: Event, run: RunId)
    requires run in db.runs && db.runs[run].status != Running
    ensures run in Apply(db, e).runs
    ensures Apply(db, e).runs[run].status ==
            if e.op.Finish? && e.op.run == run then (if e.op.succeeded then Succeeded else FailedRun)
            else db.runs[run].status
  {
  }

  /** finish_run carries no fence, so how an ended run ended is what its last finish said, whoever called it. */
  lemma {:induction false} StatusIsTheLastFinish(trace: seq<Event>, cut: nat, run: RunId)
    requires cut <= |trace| && run in After(trace[..cut]).runs && After(trace[..cut]).runs[run].status != Running
    ensures run in After(trace).runs
    ensures After(trace).runs[run].status ==
            match LastFinish(trace, cut, run)
            case None => After(trace[..cut]).runs[run].status
            case Some(succeeded) => if succeeded then Succeeded else FailedRun
  {
    hide Apply;
    if cut == |trace| {
      assert trace[..cut] == trace;
    } else {
      var front := trace[..|trace| - 1];
      assert front[..cut] == trace[..cut];
      StatusIsTheLastFinish(front, cut, run);
      TerminalNeverRunsAgain(front, cut, run);
      EndedStep(After(front), trace[|trace| - 1], run);
    }
  }

  /** A succeeded run is still succeeded later exactly when the last finish since then, if any, was no failure. */
  lemma SuccessLastsExactlyWhen(trace: seq<Event>, cut: nat, run: RunId)
    requires cut <= |trace| && run in After(trace[..cut]).runs && After(trace[..cut]).runs[run].status == Succeeded
    ensures run in After(trace).runs
    ensures After(trace).runs[run].status == Succeeded <==> LastFinish(trace, cut, run) != Some(false)
  {
    StatusIsTheLastFinish(trace, cut, run);
  }

  /** A run of calls in which a late failure overwrites a success. */
  lemma LateFinishOverwritesSuccess(run: RunId, session: SessionId, worker: Worker)
    ensures var trace := [Event(0, Create(run, session, Some(worker), 120)),
                          Event(1, Finish(run, true, None)),
                          Event(2, Finish(run, false, Some("PersistenceError")))];
            && ClockNeverGoesBack(trace)
            && run in After(trace[..2]).runs && After(trace[..2]).runs[run].status == Succeeded
            && run in After(trace).runs && After(trace).runs[run].status == FailedRun
  {
    var trace := [Event(0, Create(run, session, Some(worker), 120)),
                  Event(1, Finish(run, true, None)),
                  Event(2, Finish(run, false, Some("PersistenceError")))];
    assert trace[..2][..1] == trace[..1] && trace[..1][..0] == [];
    assert After(trace[..1]) == Apply(EMPTY_DB, trace[0]);
    assert After(trace[..2]) == Apply(After(trace[..1]), trace[1]);
    assert After(trace) == Apply(After(trace[..2]), trace[2]);
  }

  // ---- Lease periods

  /** One holder's period: granted at `from`, over at `until` (its last expiry, or earlier when the
      holder finished or gave the run back). */
  datatype Tenure = Tenure(worker: Option<Worker>, from: int, until: int)

  function Cut(t: Tenure, now: int): Tenure {
    t.(until := Min(t.until, now))
  }

  predicate Surrenders(db: Db, e: Event, run: RunId) {
    && run in db.runs && Held(db.runs[run])
    && ((e.op.Finish? && e.op.run == run) ||
        (e.op.Release? && e.op.run == run && Releasable(db.runs[run], e.op.holder)))
  }

  function NextTenures(past: seq<Tenure>, db: Db, e: Event, run: RunId): seq<Tenure> {
    if Creates(db, e, run) then past + [Tenure(e.op.worker, e.now, e.now + e.op.lease)]
    else if Claims(db, e, run) then past + [Tenure(Some(e.op.holder), e.now, e.now + e.op.lease)]
    else if past != [] && Renews(db, e, run) then
      past[|past| - 1 := past[|past| - 1].(until := e.now + e.op.lease)]
    else if past != [] && Surrenders(db, e, run) then
      past[|past| - 1 := Cut(past[|past| - 1], e.now)]
    else past
  }

  function Tenures(trace: seq<Event>, run: RunId): seq<Tenure> {
    if trace == [] then []
    else
      var front := trace[..|trace| - 1];
      NextTenures(Tenures(front, run), After(front), trace[|trace| - 1], run)
  }

  /** Periods are in order and apart. */
  ghost predicate Apart(ts: seq<Tenure>) {
    && (forall i :: 0 <= i < |ts| ==> ts[i].from <= ts[i].until)
    && forall i, j :: 0 <= i < j < |ts| ==> ts[i].until <= ts[j].from
  }

  /** How the last period stands to the row it was granted on. */
  ghost predicate Current(ts: seq<Tenure>, db: Db, run: RunId, now: int) {
    && (run !in db.runs ==> ts == [])
    && (forall i :: 0 <= i < |ts| ==> ts[i].from <= now)
    && (run in db.runs ==>
          && Shaped(db.runs[run]) && ts != []
          && var row, last := db.runs[run], ts[|ts| - 1];
             if Held(row) then row.leaseExpires == Some(last.until) && row.worker == last.worker
             else last.until <= now)
  }

  lemma StepKeepsCurrent(past: seq<Tenure>, db: Db, before: int, e: Event, run: RunId)
    requires Apart(past) && Current(past, db, run, before) && before <= e.now
    ensures Current(NextTenures(past, db, e, run), Apply(db, e), run, e.now)
  {
    if run in db.runs {
      var row := db.runs[run];
      match e.op {
        case Create(r, _, _, _) =>
        case Renew(r, _, _) =>
        case Mark => assert Apply(db, e).runs[run] == if Lapsed(row, e.now) then Orphan(row) else row;
        case Claim(r, _, _) =>
        case Release(r, _) =>
        case Finish(r, _, _) =>
        case Save(r, _, _) =>
      }
    }
  }

  lemma StepKeepsApart(past: seq<Tenure>, db: Db, before: int, e: Event, run: RunId)
    requires Apart(past) && Current(past, db, run, before) && before <= e.now
    ensures Apart(NextTenures(past, db, e, run))
  {
    var next := NextTenures(past, db, e, run);
    if past != [] && |next| == |past| {
      assert forall i :: 0 <= i < |past| - 1 ==> next[i] == past[i];
    }
  }

  lemma {:induction false} TenuresTrackTheRow(trace: seq<Event>, run: RunId)
    requires ClockNeverGoesBack(trace) && trace != []
    ensures Apart(Tenures(trace, run))
    ensures Current(Tenures(trace, run), After(trace), run, trace[|trace| - 1].now)
  {
    var front, e := trace[..|trace| - 1], trace[|trace| - 1];
    var before := if front == [] then e.now else front[|front| - 1].now;
    if front != [] {
      TenuresTrackTheRow(front, run);
    }
    StepKeepsApart(Tenures(front, run), After(front), before, e, run);
    StepKeepsCurrent(Tenures(front, run), After(front), before, e, run);
  }

  /** Successive holders' lease periods never overlap: at any moment at most one period is open. */
  lemma LeasePeriodsNeverOverlap(trace: seq<Event>, run: RunId, t: int, i: nat, j: nat)
    requires ClockNeverGoesBack(trace)
    requires i < |Tenures(trace, run)| && j < |Tenures(trace, run)|
    requires Tenures(trace, run)[i].from <= t < Tenures(trace, run)[i].until
    requires Tenures(trace, run)[j].from <= t < Tenures(trace, run)[j].until
    ensures i == j
  {
    TenuresTrackTheRow(trace, run);
  }

  /** There is one period for the creation and one for each claim. */
  lemma {:induction false} TenureCount(trace: seq<Event>, run: RunId)
    ensures |Tenures(trace, run)| == ClaimCount(trace, run) + if run in After(trace).runs then 1 else 0
  {
    hide Apply, Claims, Renews, Surrenders;
    if trace != [] {
      var front := trace[..|trace| - 1];
      CountersCount(front, run);
      TenureCount(front, run);
      StepCounts(After(front), trace[|trace| - 1], run);
    }
  }

  /** How many checkpoints there were when the run's row was created. */
  function Born(trace: seq<Event>, run: RunId): nat {
    if trace == [] then 0
    else
      var front := trace[..|trace| - 1];
      if run in After(front).runs then Born(front, run) else |After(front).checkpoints|
  }

  lemma {:induction false} CheckpointsOnlyGrow(trace: seq<Event>, run: RunId)
    ensures Born(trace, run) <= |After(trace).checkpoints|
  {
    if trace != [] {
      CheckpointsOnlyGrow(trace[..|trace| - 1], run);
    }
  }

  lemma OthersKeepStages(db: Db, e: Event, run: RunId)
    requires !e.op.Save? && run in db.runs
    ensures Apply(db, e).checkpoints == db.checkpoints
    ensures run in Apply(db, e).runs && Apply(db, e).runs[run].stage == db.runs[run].stage
  {
  }

  lemma SaveReplays(db: Db, session: SessionId, saved: RunId, stage: RunStage, run: RunId, born: nat)
    requires born <= |db.checkpoints| && run in db.runs && db.runs[run].stage == ReplayStage(db.checkpoints[born..], run)
    ensures var next := RecordCheckpoint(db, session, saved, stage);
            run in next.runs && born <= |next.checkpoints| &&
            next.runs[run].stage == ReplayStage(next.checkpoints[born..], run)
  {
    var before, after := db.checkpoints[born..], RecordCheckpoint(db, session, saved, stage).checkpoints[born..];
    assert after == before + [Checkpoint(session, saved, stage)];
    assert after[..|after| - 1] == before;
  }

  lemma StepReplays(db: Db, e: Event, run: RunId, born: nat)
    requires born <= |db.checkpoints| && run in db.runs && db.runs[run].stage == ReplayStage(db.checkpoints[born..], run)
    ensures var next := Apply(db, e);
            run in next.runs && born <= |next.checkpoints| &&
            next.runs[run].stage == ReplayStage(next.checkpoints[born..], run)
  {
    hide RecordCheckpoint, ReplayStage, FinishRun, ClaimOrphaned, ReleaseOrphaned, RenewLease, CreateRun, MarkOrphaned;
    if e.op.Save? {
      SaveReplays(db, e.op.session, e.op.run, e.op.stage, run, born);
    } else {
      OthersKeepStages(db, e, run);
    }
  }

  lemma CreationReplays(db: Db, e: Event, run: RunId)
    requires run !in db.runs && run in Apply(db, e).runs
    ensures Apply(db, e).checkpoints == db.checkpoints && Apply(db, e).runs[run].stage == Created
  {
  }

  /** The stage column is always the stage of the last checkpoint saved since the row was created; a checkpoint saved
      before that changes no row. */
  lemma {:induction false} StageReplaysCheckpoints(trace: seq<Event>, run: RunId)
    requires run in After(trace).runs
    ensures var db := After(trace);
            Born(trace, run) <= |db.checkpoints| &&
            db.runs[run].stage == ReplayStage(db.checkpoints[Born(trace, run)..], run)
  {
    hide Apply;
    var front := trace[..|trace| - 1];
    CheckpointsOnlyGrow(front, run);
    if run in After(front).runs {
      StageReplaysCheckpoints(front, run);
      StepReplays(After(front), trace[|trace| - 1], run, Born(front, run));
    } else {
      CreationReplays(After(front), trace[|trace| - 1], run);
    }
  }

  // ---- How long leases last

  /** A lease is refused exactly outside half a minute to a quarter of an hour, a renewal or a claim also under the
      empty worker id. */
  lemma LeaseRefusedExactlyWhen(db: Db, now: int, run: RunId, session: SessionId, holder: Worker, lease: int)
    ensures var allowed := lease >= 30 && lease <= 900;
            && (CreateRun(db, now, run, session, Some(holder), lease).1 == ValueError <==> !allowed)
            && (RenewLease(db, now, run, holder, lease).1 == ValueError <==> !allowed || holder == "")
            && (ClaimOrphaned(db, now, run, holder, lease).1 == ValueError <==> !allowed || holder == "")
  {
  }

  /** A release says so exactly when it gives back a running row of this worker, and otherwise changes nothing. */
  lemma ReleaseExactlyWhen(db: Db, run: RunId, holder: Worker)
    ensures var (db', released) := ReleaseOrphaned(db, run, holder);
            && (released <==> run in db.runs && db.runs[run].status == Running && db.runs[run].worker == Some(holder))
            && (released ==> run in db'.runs && Abandoned(db'.runs[run]))
            && (!released ==> db' == db)
  {
  }

  /** The lease a call asks for a run. */
  function AskedLease(op: Op, run: RunId): Option<int> {
    if op.Create? && op.run == run then Some(op.lease)
    else if op.Renew? && op.run == run then Some(op.lease)
    else if op.Claim? && op.run == run then Some(op.lease)
    else None
  }

  lemma StepLeases(db: Db, e: Event, run: RunId)
    requires run in Apply(db, e).runs && Held(Apply(db, e).runs[run])
    ensures var expires := Apply(db, e).runs[run].leaseExpires;
            || (run in db.runs && Held(db.runs[run]) && db.runs[run].leaseExpires == expires)
            || (AskedLease(e.op, run).Some? && expires == Some(e.now + AskedLease(e.op, run).value) &&
                AskedLease(e.op, run).value >= 30 && AskedLease(e.op, run).value <= 900)
  {
  }

  /** Over every sequence of operations a held run's lease was asked for by some creation, renewal or claim of it, and
      ends half a minute to a quarter of an hour after that call. */
  lemma {:induction false} LeasesWereAskedFor(trace: seq<Event>, run: RunId) returns (i: nat)
    requires run in After(trace).runs && Held(After(trace).runs[run])
    ensures i < |trace| && AskedLease(trace[i].op, run).Some?
    ensures var lease := AskedLease(trace[i].op, run).value;
            lease >= 30 && lease <= 900 && After(trace).runs[run].leaseExpires == Some(trace[i].now + lease)
  {
    hide Apply, AskedLease;
    var front, last := trace[..|trace| - 1], trace[|trace| - 1];
    StepLeases(After(front), last, run);
    if run in After(front).runs && Held(After(front).runs[run]) &&
       After(front).runs[run].leaseExpires == After(trace).runs[run].leaseExpires {
      i := LeasesWereAskedFor(front, run);
    } else {
      i := |front|;
    }
  }
}
