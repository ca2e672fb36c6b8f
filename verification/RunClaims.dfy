/** Who can take a claimed run away from the recovery that claimed it. A release names only the run and a worker, and
    every recovery handled by one process calls itself by the same worker. */
module RunClaims {
  import opened Common
  import opened RunStages
  import opened MessageHistory
  import opened RunTables
  import opened RunProtocol
  import opened RunStageOrder
  import opened RunStageExamples

  predicate Held(row: RunRow) {
    row.status == Running && row.recovery == Active
  }

  /** The recovery is the last that claimed its run, and still has it. */
  predicate HasClaim(db: Db, r: Resume) {
    Holds(r) && r.run in db.runs && db.runs[r.run].attemptCount == r.attempt && Held(db.runs[r.run])
  }

  predicate ClaimOwned(db: Db, r: Resume) {
    Holds(r) ==>
      && r.run in db.runs && r.attempt <= db.runs[r.run].attemptCount
      && (HasClaim(db, r) ==> db.runs[r.run].worker == Some(r.worker))
  }

  ghost predicate ClaimsOwned(s: Sys) {
    forall k :: k in s.resumes ==> ClaimOwned(s.db, s.resumes[k])
  }

  /** Without a new claim no step starts holding a run or changes who holds it. */
  predicate KeepsHolder(row: RunRow, row': RunRow) {
    && row.attemptCount <= row'.attemptCount
    && (row'.attemptCount == row.attemptCount && Held(row') ==> Held(row) && row'.worker == row.worker)
  }

  lemma ChatKeepsHolder(db: Db, c: Chat, now: int, fault: Fault, model: Option<seq<Json>>, run: RunId)
    requires run in db.runs
    ensures var after := ChatStep(db, c, now, fault, model).0;
            run in after.runs && KeepsHolder(db.runs[run], after.runs[run])
  {
  }

  lemma ResumeKeepsHolder(db: Db, r: Resume, now: int, fault: Fault, run: RunId)
    requires run in db.runs
    ensures var after := ResumeStep(db, r, now, fault).0;
            run in after.runs && KeepsHolder(db.runs[run], after.runs[run])
  {
  }

  lemma StepKeepsHolder(s: Sys, a: Action, run: RunId)
    requires run in s.db.runs
    ensures run in Next(s, a).db.runs && KeepsHolder(s.db.runs[run], Next(s, a).db.runs[run])
  {
    hide ChatStep, ResumeStep;
    if a.ChatActs? && a.h in s.chats {
      ChatKeepsHolder(s.db, s.chats[a.h], s.now, a.fault, a.model, run);
    } else if a.ResumeActs? && a.h in s.resumes {
      ResumeKeepsHolder(s.db, s.resumes[a.h], s.now, a.fault, run);
    }
  }

  lemma OwnStepOwns(db: Db, r: Resume, now: int, fault: Fault)
    requires ClaimOwned(db, r)
    ensures var (after, next) := ResumeStep(db, r, now, fault); ClaimOwned(after, next)
  {
    if Holds(r) {
      ResumeKeepsHolder(db, r, now, fault, r.run);
    }
  }

  lemma OtherStepOwns(s: Sys, a: Action, k: nat)
    requires k in s.resumes && ClaimOwned(s.db, s.resumes[k])
    ensures ClaimOwned(Next(s, a).db, s.resumes[k])
  {
    hide Next;
    if Holds(s.resumes[k]) {
      StepKeepsHolder(s, a, s.resumes[k].run);
    }
  }

  lemma StepOwns(s: Sys, a: Action)
    requires ClaimsOwned(s)
    ensures ClaimsOwned(Next(s, a))
  {
    hide ChatStep, ResumeStep, Beat, ClaimOwned;
    var s' := Next(s, a);
    forall k | k in s'.resumes ensures ClaimOwned(s'.db, s'.resumes[k]) {
      if k in s.resumes {
        OtherStepOwns(s, a, k);
      }
      if a.ResumeActs? && a.h == k && k in s.resumes {
        OwnStepOwns(s.db, s.resumes[k], s.now, a.fault);
      } else if !Holds(s'.resumes[k]) {
        IdleOwns(s'.db, s'.resumes[k]);
      }
    }
  }

  lemma IdleOwns(db: Db, r: Resume)
    requires !Holds(r)
    ensures ClaimOwned(db, r)
  {
  }

  lemma {:induction false} ClaimsAlwaysOwned(actions: seq<Action>)
    ensures ClaimsOwned(After(actions))
  {
    hide Next;
    if actions != [] {
      ClaimsAlwaysOwned(actions[..|actions| - 1]);
      StepOwns(After(actions[..|actions| - 1]), actions[|actions| - 1]);
    }
  }

  /** The orphan sweep, on its own or at the start of a resume request, commits. */
  predicate Sweeps(s: Sys, a: Action) {
    || (a.Sweep? && !a.fault.RolledBack?)
    || (a.ResumeActs? && a.h in s.resumes && s.resumes[a.h].pc == Sweeping && !a.fault.RolledBack?)
  }

  /** A recovery's release of the run commits, whether or not it changes the row. */
  predicate Releases(s: Sys, a: Action, run: RunId) {
    && a.ResumeActs? && a.h in s.resumes && s.resumes[a.h].run == run
    && s.resumes[a.h].pc in {GivingBack, BackingOut} && !a.fault.RolledBack?
  }

  lemma ChatOrphansNothing(db: Db, c: Chat, now: int, fault: Fault, model: Option<seq<Json>>, run: RunId)
    requires run in db.runs && Held(db.runs[run])
    ensures var after := ChatStep(db, c, now, fault, model).0;
            run in after.runs && after.runs[run].recovery != Orphaned
  {
  }

  lemma ResumeOrphansExactlyWhen(db: Db, r: Resume, now: int, fault: Fault, run: RunId)
    requires run in db.runs && Held(db.runs[run])
    ensures var after := ResumeStep(db, r, now, fault).0;
            run in after.runs &&
            (after.runs[run].recovery == Orphaned <==>
               !fault.RolledBack? &&
               ((r.pc == Sweeping && Lapsed(db.runs[run], now)) ||
                (r.run == run && r.pc in {GivingBack, BackingOut} && db.runs[run].worker == Some(r.worker))))
  {
  }

  lemma StepOrphansExactlyWhen(s: Sys, a: Action, run: RunId)
    requires run in s.db.runs && Held(s.db.runs[run])
    ensures run in Next(s, a).db.runs
    ensures Next(s, a).db.runs[run].recovery == Orphaned <==>
            (Sweeps(s, a) && Lapsed(s.db.runs[run], s.now)) ||
            (Releases(s, a, run) && s.db.runs[run].worker == Some(s.resumes[a.h].worker))
  {
    hide ChatStep, ResumeStep;
    if a.ChatActs? && a.h in s.chats {
      ChatOrphansNothing(s.db, s.chats[a.h], s.now, a.fault, a.model, run);
    } else if a.ResumeActs? && a.h in s.resumes {
      ResumeOrphansExactlyWhen(s.db, s.resumes[a.h], s.now, a.fault, run);
    }
  }

  /** In every execution a step takes a run away from the recovery that holds it exactly when a sweep commits after the
      lease ran out, or any recovery of the run, of whatever attempt, commits a release under the holder's worker id. */
  lemma ClaimIsLostExactlyWhen(actions: seq<Action>, k: nat, a: Action)
    requires k in After(actions).resumes && HasClaim(After(actions).db, After(actions).resumes[k])
    ensures var s := After(actions);
            var r, s' := s.resumes[k], Next(s, a);
            && r.run in s'.db.runs
            && (s'.db.runs[r.run].recovery == Orphaned <==>
                  (Sweeps(s, a) && Lapsed(s.db.runs[r.run], s.now)) ||
                  (Releases(s, a, r.run) && s.resumes[a.h].worker == r.worker))
  {
    hide After, Next;
    var s := After(actions);
    ClaimsAlwaysOwned(actions);
    assert ClaimOwned(s.db, s.resumes[k]);
    StepOrphansExactlyWhen(s, a, s.resumes[k].run);
  }

  // ---- It happens: two recoveries of one process

  const STUMBLE := ResumeActs(0, RolledBack)
  const NEXT_ARRIVES := ResumeArrives(1, "r", "w:recovery")
  const NEXT_ACTS := ResumeActs(1, NoFault)

  function Two(first: Resume, second: Resume): map<nat, Resume> {
    map[0 := first, 1 := second]
  }

  const STALE := Resume(BackingOut, "r", "s", "w:recovery", ResponseReady, 2)

  /** The first recovery could not count the messages and is about to back out. */
  const BACKING_OUT := Sys(Tables(Retaken(ResponseReady), THREE, LOG), 120, LOG, READ.chats, map[0 := STALE])

  lemma BackingOutReached()
    ensures Reached(BACKING_OUT)
  {
    hide Reached, Table, OfRun;
    ReadReached();
    Move(READ, RESUME);
    var s1 := Next(READ, RESUME);
    assert s1 == Sys(Tables(Retaken(ResponseReady), THREE, LOG), 120, LOG, READ.chats,
                     Recovering(Counting, "s", ResponseReady, 2));
    Move(s1, STUMBLE);
    assert Next(s1, STUMBLE) == BACKING_OUT;
  }

  /** Its lease ran out before it did, and the same process claimed the run for a second recovery. */
  const CLAIMED_AGAIN := Sys(
    Tables(RunRow("s", Running, ResponseReady, Active, Some("w:recovery"), Some(360), 3, 3, Some("WORKER_LOST")),
           THREE, LOG),
    240, LOG, READ.chats, Two(STALE, Resume(Counting, "r", "s", "w:recovery", ResponseReady, 3)))

  /** The second recovery has swept the run and read its stage. */
  const READ_AGAIN := Sys(
    Tables(RunRow("s", Running, ResponseReady, Orphaned, None, None, 2, 2, Some("WORKER_LOST")), THREE, LOG),
    240, LOG, READ.chats, Two(STALE, Resume(Claiming, "r", "", "w:recovery", ResponseReady, 0)))

  const SWEPT_AGAIN := READ_AGAIN.(
    resumes := Two(STALE, Resume(Reading, "r", "", "w:recovery", Created, 0)))

  lemma SweptAgainReached()
    ensures Reached(SWEPT_AGAIN)
  {
    hide Reached, Table, OfRun;
    BackingOutReached();
    Move(BACKING_OUT, Tick(120));
    var s1 := Next(BACKING_OUT, Tick(120));
    Move(s1, NEXT_ARRIVES);
    var s2 := Next(s1, NEXT_ARRIVES);
    assert s2 == BACKING_OUT.(now := 240, resumes := Two(STALE, Resume(Sweeping, "r", "", "w:recovery", Created, 0)));
    SecondSweeps(s2);
  }

  lemma SecondSweeps(s: Sys)
    requires Reached(s)
    requires s == BACKING_OUT.(now := 240, resumes := Two(STALE, Resume(Sweeping, "r", "", "w:recovery", Created, 0)))
    ensures Reached(SWEPT_AGAIN)
  {
    hide Reached, Table, OfRun;
    Move(s, NEXT_ACTS);
    assert Next(s, NEXT_ACTS).db.runs == READ_AGAIN.db.runs;
    assert Next(s, NEXT_ACTS) == SWEPT_AGAIN;
  }

  lemma ReadAgainReached()
    ensures Reached(READ_AGAIN)
  {
    hide Reached, Table, OfRun;
    SweptAgainReached();
    Move(SWEPT_AGAIN, NEXT_ACTS);
    assert Next(SWEPT_AGAIN, NEXT_ACTS) == READ_AGAIN;
  }

  lemma ClaimedAgainReached()
    ensures Reached(CLAIMED_AGAIN)
  {
    hide Reached, Table, OfRun;
    ReadAgainReached();
    Move(READ_AGAIN, NEXT_ACTS);
    assert Next(READ_AGAIN, NEXT_ACTS) == CLAIMED_AGAIN;
  }

  /** The second recovery holds the run with its lease unspent, and the first one's release takes it away. */
  lemma StaleReleaseTakesTheClaim()
    ensures Reached(CLAIMED_AGAIN) && HasClaim(CLAIMED_AGAIN.db, CLAIMED_AGAIN.resumes[1])
    ensures !Lapsed(CLAIMED_AGAIN.db.runs["r"], CLAIMED_AGAIN.now) && !Fenced(CLAIMED_AGAIN, RESUME)
    ensures var s' := Next(CLAIMED_AGAIN, RESUME);
            "r" in s'.db.runs && s'.db.runs["r"].recovery == Orphaned && s'.resumes[1] == CLAIMED_AGAIN.resumes[1]
  {
    hide Reached, Table, OfRun;
    ClaimedAgainReached();
  }
}
