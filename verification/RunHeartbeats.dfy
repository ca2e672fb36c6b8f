/** What the lease heartbeat achieves: a beat renews the lease of its own running run, and beats that come in time keep
    every sweep and every recovery off the run while its request waits for the model. */
module RunHeartbeats {
  import opened Common
  import opened RunStages
  import opened MessageHistory
  import opened RunTables
  import opened RunProtocol
  import opened RunStageOrder
  import opened RunClaims

  // ---- One beat

  /** The request's heartbeat is running. */
  predicate Beating(c: Chat) {
    c.heartbeat && (c.pc == SavingModel || c.pc == Modelling)
  }

  /** The request's run is running under its own worker on a lease in force. */
  predicate OwnsRun(s: Sys, c: Chat) {
    && c.run in s.db.runs && s.db.runs[c.run].status == Running && s.db.runs[c.run].worker == Some(c.worker)
    && s.db.runs[c.run].leaseExpires.Some? && s.now < s.db.runs[c.run].leaseExpires.value
  }

  /** A beat of a request that owns its run extends the lease to 120 seconds from now, unless it is rolled back, and
      touches nothing else of the tables; of any other request it touches nothing at all. */
  lemma BeatRenewsExactlyWhen(s: Sys, h: nat, fault: Fault)
    requires h in s.chats && Beating(s.chats[h]) && s.chats[h].worker != ""
    ensures var c, s' := s.chats[h], Next(s, HeartbeatFires(h, fault));
            s'.db ==
            if OwnsRun(s, c) && !fault.RolledBack? then
              var row := s.db.runs[c.run];
              s.db.(runs := s.db.runs[c.run := row.(leaseExpires := Some(s.now + 120),
                                                    leaseVersion := row.leaseVersion + 1)])
            else s.db
  {
  }

  /** The heartbeat goes on exactly when the renewal took effect and its reply arrived. */
  lemma BeatGoesOnExactlyWhen(s: Sys, h: nat, fault: Fault)
    requires h in s.chats && Beating(s.chats[h])
    ensures var c, s' := s.chats[h], Next(s, HeartbeatFires(h, fault));
            && h in s'.chats && s'.chats[h] == c.(heartbeat := s'.chats[h].heartbeat)
            && (s'.chats[h].heartbeat <==> fault.NoFault? && OwnsRun(s, c) && c.worker != "")
  {
  }

  /** A request past its first checkpoint whose heartbeat has stopped. */
  predicate Stopped(c: Chat) {
    !c.heartbeat && c.pc !in {EnsuringSession, LoadingHistory, Creating, SavingContext}
  }

  lemma StepStaysStopped(s: Sys, a: Action, h: nat)
    requires h in s.chats && Stopped(s.chats[h])
    ensures h in Next(s, a).chats && Stopped(Next(s, a).chats[h])
  {
    hide ResumeStep;
  }

  /** A heartbeat that has stopped, at a refusal, at an error or at the model's end, never beats again. */
  lemma {:induction false} StoppedForGood(actions: seq<Action>, cut: nat, h: nat)
    requires cut <= |actions| && h in After(actions[..cut]).chats && Stopped(After(actions[..cut]).chats[h])
    ensures h in After(actions).chats && Stopped(After(actions).chats[h]) && !Beating(After(actions).chats[h])
  {
    hide Next;
    if cut == |actions| {
      assert actions[..cut] == actions;
    } else {
      var front := actions[..|actions| - 1];
      assert front[..cut] == actions[..cut];
      StoppedForGood(front, cut, h);
      StepStaysStopped(After(front), actions[|actions| - 1], h);
    }
  }

  // ---- Beats in time

  /** The step is the request's own, or its heartbeat's. */
  predicate By(a: Action, h: nat) {
    (a.ChatActs? || a.HeartbeatFires?) && a.h == h
  }

  /** The request is between the creation of its run and the end of its model run. */
  predicate Waiting(c: Chat) {
    c.pc == SavingContext || c.pc == SavingModel || c.pc == Modelling
  }

  /** The step commits the creation of the request's run, or a beat of its running heartbeat. */
  predicate Leases(s: Sys, a: Action, h: nat) {
    h in s.chats &&
    ((a.HeartbeatFires? && a.h == h && Beating(s.chats[h]) && !a.fault.RolledBack?) ||
     (a.ChatActs? && a.h == h && s.chats[h].pc == Creating && !a.fault.RolledBack?))
  }

  /** When the request's last such step happened. */
  function LastLease(actions: seq<Action>, h: nat): int {
    if actions == [] then 0
    else
      var front, last := actions[..|actions| - 1], actions[|actions| - 1];
      if Leases(After(front), last, h) then After(front).now else LastLease(front, h)
  }

  /** While the request waits, less than 120 seconds have passed since its last lease step. */
  predicate InTime(actions: seq<Action>, h: nat) {
    var s := After(actions);
    h in s.chats && Waiting(s.chats[h]) ==> s.now < LastLease(actions, h) + 120
  }

  ghost predicate AlwaysInTime(actions: seq<Action>, h: nat) {
    forall k :: 0 <= k <= |actions| ==> InTime(actions[..k], h)
  }

  /** The row a waiting request keeps: its own, never lost, leased until 120 seconds after the last lease step. */
  predicate Kept(db: Db, c: Chat, leased: int) {
    && c.run in db.runs && Held(db.runs[c.run])
    && db.runs[c.run].worker == Some(c.worker) && db.runs[c.run].leaseExpires == Some(leased + 120)
  }

  ghost predicate Safe(s: Sys, h: nat, leased: int) {
    h in s.chats && Waiting(s.chats[h]) ==>
      && Kept(s.db, s.chats[h], leased)
      && forall k :: k in s.resumes && s.resumes[k].run == s.chats[h].run ==> !Holds(s.resumes[k])
  }

  lemma OtherChatLeavesRow(db: Db, c: Chat, now: int, fault: Fault, model: Option<seq<Json>>, run: RunId)
    requires run in db.runs && (c.run != run || !Live(c))
    ensures var after := ChatStep(db, c, now, fault, model).0;
            run in after.runs && after.runs[run] == db.runs[run]
  {
  }

  lemma OtherBeatLeavesRow(db: Db, c: Chat, now: int, fault: Fault, run: RunId)
    requires run in db.runs && c.run != run
    ensures var after := Beat(db, c, now, fault).0;
            run in after.runs && after.runs[run] == db.runs[run]
  {
  }

  /** No recovery that does not hold the run takes it or changes its row while its lease is in force. */
  lemma RecoveryLeavesRow(db: Db, r: Resume, now: int, fault: Fault, run: RunId)
    requires run in db.runs && Held(db.runs[run]) && !Lapsed(db.runs[run], now)
    requires r.run == run ==> !Holds(r)
    ensures var (after, next) := ResumeStep(db, r, now, fault);
            && run in after.runs && after.runs[run] == db.runs[run]
            && next.run == r.run && (r.run == run ==> !Holds(next))
  {
  }

  /** A step of anyone else leaves the row of a waiting request as it is. */
  lemma OthersLeaveRow(s: Sys, a: Action, h: nat, leased: int)
    requires Inv(s) && Safe(s, h, leased) && h in s.chats && Waiting(s.chats[h]) && s.now < leased + 120
    requires !By(a, h)
    ensures var s', run := Next(s, a), s.chats[h].run;
            && run in s'.db.runs && s'.db.runs[run] == s.db.runs[run]
            && forall k :: k in s'.resumes && s'.resumes[k].run == run ==> !Holds(s'.resumes[k])
  {
    hide ChatStep, ResumeStep, Beat, DbOk, ChatOk, ResumeOk;
    var run := s.chats[h].run;
    if a.ChatActs? && a.h in s.chats {
      OtherChatLeavesRow(s.db, s.chats[a.h], s.now, a.fault, a.model, run);
    } else if a.HeartbeatFires? && a.h in s.chats {
      if s.chats[a.h].run == run {
        BeatsOnlyLive(s.db, s.chats[a.h], s.now, a.fault);
      } else {
        OtherBeatLeavesRow(s.db, s.chats[a.h], s.now, a.fault, run);
      }
    } else if a.ResumeActs? && a.h in s.resumes {
      RecoveryLeavesRow(s.db, s.resumes[a.h], s.now, a.fault, run);
    }
  }

  lemma BeatsOnlyLive(db: Db, c: Chat, now: int, fault: Fault)
    requires !Live(c)
    ensures Beat(db, c, now, fault).0 == db
  {
  }

  /** A beat of a waiting request moves its lease on. */
  lemma OwnBeatSafe(s: Sys, a: Action, h: nat, leased: int)
    requires Safe(s, h, leased) && h in s.chats && s.chats[h].worker != "" && a.HeartbeatFires? && a.h == h
    requires Waiting(s.chats[h]) ==> s.now < leased + 120
    ensures Safe(Next(s, a), h, if Leases(s, a, h) then s.now else leased)
  {
    hide ChatStep, ResumeStep, Holds;
    var c := s.chats[h];
    if Beating(c) {
      hide Beat;
      BeatRenewsExactlyWhen(s, h, a.fault);
      BeatGoesOnExactlyWhen(s, h, a.fault);
    }
  }

  lemma CreationSafe(s: Sys, a: Action, h: nat)
    requires Inv(s) && h in s.chats && s.chats[h].pc == Creating && a.ChatActs? && a.h == h
    ensures Safe(Next(s, a), h, s.now)
  {
    hide DbOk, ResumeOk, ChatOk, Holds;
    forall k | k in s.resumes ensures Holds(s.resumes[k]) ==> s.resumes[k].run in s.db.runs {
      HoldersHaveRuns(s, k);
    }
  }

  /** The request's own step keeps it safe, or ends its waiting. */
  lemma OwnActSafe(s: Sys, a: Action, h: nat, leased: int)
    requires Safe(s, h, leased) && h in s.chats && s.chats[h].pc != Creating && a.ChatActs? && a.h == h
    ensures Safe(Next(s, a), h, leased)
  {
    hide ResumeStep, Beat, Holds;
  }

  lemma OwnStepSafe(s: Sys, a: Action, h: nat, leased: int)
    requires Inv(s) && Safe(s, h, leased) && h in s.chats && s.chats[h].worker != "" && By(a, h)
    requires Waiting(s.chats[h]) ==> s.now < leased + 120
    ensures Safe(Next(s, a), h, if Leases(s, a, h) then s.now else leased)
  {
    if a.HeartbeatFires? {
      OwnBeatSafe(s, a, h, leased);
    } else if s.chats[h].pc == Creating {
      hide Next;
      CreationSafe(s, a, h);
      if a.fault.RolledBack? {
        RolledBackCreation(s, a, h);
      }
    } else {
      OwnActSafe(s, a, h, leased);
    }
  }

  lemma RolledBackCreation(s: Sys, a: Action, h: nat)
    requires h in s.chats && s.chats[h].pc == Creating && a.ChatActs? && a.h == h && a.fault.RolledBack?
    ensures !Waiting(Next(s, a).chats[h])
  {
  }

  lemma HoldersHaveRuns(s: Sys, k: nat)
    requires Inv(s) && k in s.resumes
    ensures Holds(s.resumes[k]) ==> s.resumes[k].run in s.db.runs
  {
    assert ResumeOk(s.db, s.log, s.resumes[k]);
  }

  lemma OtherStepSafe(s: Sys, a: Action, h: nat, leased: int)
    requires Inv(s) && Safe(s, h, leased)
    requires h in s.chats && Waiting(s.chats[h]) ==> s.now < leased + 120
    requires !By(a, h)
    ensures Safe(Next(s, a), h, leased)
  {
    hide ChatStep, ResumeStep, Beat, DbOk;
    if h in s.chats && Waiting(s.chats[h]) {
      OthersLeaveRow(s, a, h, leased);
    }
  }

  lemma ChatStepKeepsNames(db: Db, c: Chat, now: int, fault: Fault, model: Option<seq<Json>>)
    ensures var next := ChatStep(db, c, now, fault, model).1; next.worker == c.worker && next.run == c.run
  {
  }

  lemma WorkerStays(s: Sys, a: Action, h: nat)
    requires h in s.chats
    ensures h in Next(s, a).chats && Next(s, a).chats[h].worker == s.chats[h].worker
    ensures Next(s, a).chats[h].run == s.chats[h].run
  {
    hide ResumeStep, ChatStep;
    if a.ChatActs? {
      ChatStepKeepsNames(s.db, s.chats[h], s.now, a.fault, a.model);
    }
  }

  lemma {:induction false} SafeInTime(actions: seq<Action>, h: nat)
    requires AlwaysInTime(actions, h) && (h in After(actions).chats ==> After(actions).chats[h].worker != "")
    ensures Safe(After(actions), h, LastLease(actions, h))
  {
    hide Next, Inv, Leases, Waiting;
    if actions == [] {
      return;
    }
    var front, last := actions[..|actions| - 1], actions[|actions| - 1];
    var s := After(front);
    assert forall k :: 0 <= k <= |front| ==> front[..k] == actions[..k];
    assert front[..|front|] == front;
    assert InTime(actions[..|front|], h);
    InvAlways(front);
    if h in s.chats {
      WorkerStays(s, last, h);
    }
    SafeInTime(front, h);
    StepSafe(s, last, h, LastLease(front, h));
  }

  lemma StepSafe(s: Sys, a: Action, h: nat, leased: int)
    requires Inv(s) && Safe(s, h, leased) && (h in s.chats ==> s.chats[h].worker != "")
    requires h in s.chats && Waiting(s.chats[h]) ==> s.now < leased + 120
    ensures Safe(Next(s, a), h, if Leases(s, a, h) then s.now else leased)
  {
    hide Next, Inv, Safe, Waiting;
    if By(a, h) && h in s.chats {
      OwnStepSafe(s, a, h, leased);
    } else if By(a, h) {
      AbsentActs(s, a, h, leased);
    } else {
      OtherStepSafe(s, a, h, leased);
    }
  }

  lemma AbsentActs(s: Sys, a: Action, h: nat, leased: int)
    requires By(a, h) && h !in s.chats
    ensures Safe(Next(s, a), h, leased)
  {
  }

  lemma NowInTime(actions: seq<Action>, h: nat)
    requires AlwaysInTime(actions, h)
    ensures InTime(actions, h)
  {
    hide InTime;
    assert actions[..|actions|] == actions;
  }

  /** When less than 120 seconds pass between the creation of a run, the committed beats of its heartbeat and any later
      moment of its waiting, then in every such moment, whatever the other handlers do, the run is held by its request's
      worker on a lease in force, and no step of anyone else, sweeps and recoveries included, changes its row. */
  lemma BeatsKeepTheRun(actions: seq<Action>, h: nat)
    requires AlwaysInTime(actions, h)
    requires h in After(actions).chats && Waiting(After(actions).chats[h]) && After(actions).chats[h].worker != ""
    ensures var s := After(actions);
            var c := s.chats[h];
            && OwnsRun(s, c) && s.db.runs[c.run].recovery == Active
            && s.db.runs[c.run].leaseExpires == Some(LastLease(actions, h) + 120)
            && forall a: Action :: !By(a, h) ==>
                 c.run in Next(s, a).db.runs && Next(s, a).db.runs[c.run] == s.db.runs[c.run]
  {
    hide Next, Inv, LastLease, After, AlwaysInTime;
    var s := After(actions);
    NowInTime(actions, h);
    SafeInTime(actions, h);
    InvAlways(actions);
    forall a: Action | !By(a, h)
      ensures s.chats[h].run in Next(s, a).db.runs
      ensures Next(s, a).db.runs[s.chats[h].run] == s.db.runs[s.chats[h].run]
    {
      OthersLeaveRow(s, a, h, LastLease(actions, h));
    }
  }

  /** A sweep some seconds later orphans the run exactly when 120 seconds have passed since the last lease step. */
  lemma LateSweepOrphansExactlyWhen(actions: seq<Action>, h: nat, seconds: nat)
    requires AlwaysInTime(actions, h)
    requires h in After(actions).chats && Waiting(After(actions).chats[h]) && After(actions).chats[h].worker != ""
    ensures var s := After(actions);
            var run, swept := s.chats[h].run, Next(Next(s, Tick(seconds)), Sweep(NoFault));
            run in swept.db.runs &&
            (swept.db.runs[run].recovery == Orphaned <==> LastLease(actions, h) + 120 <= s.now + seconds)
  {
    hide ChatStep, ResumeStep, After, LastLease, AlwaysInTime;
    SafeInTime(actions, h);
  }
}
