/** When the stage column moves backwards, whatever handlers write to a run that another has claimed since. */
module RunStageDrops {
  import opened Common
  import opened RunStages
  import opened MessageHistory
  import opened RunTables
  import opened RunProtocol
  import opened RunStageOrder

  /** The stage the step stores on the run's row. */
  function Stored(s: Sys, a: Action, run: RunId): Option<RunStage> {
    if a.ChatActs? && a.h in s.chats && s.chats[a.h].run == run && !a.fault.RolledBack? then
      Attempted(s.chats[a.h].pc)
    else if a.ResumeActs? && a.h in s.resumes && s.resumes[a.h].run == run && !a.fault.RolledBack? then
      if s.resumes[a.h].pc == MarkingPersisted then Some(ResponsePersisted)
      else if s.resumes[a.h].pc == MarkingCompleted then Some(Completed)
      else None
    else None
  }

  lemma ChatStores(db: Db, log: seq<Append>, c: Chat, now: int, fault: Fault, model: Option<seq<Json>>)
    requires ChatOk(db, log, c) && c.run in db.runs
    ensures var (after, next) := ChatStep(db, c, now, fault, model);
            && c.run in after.runs && next.run == c.run
            && (Live(c) ==> Rank(c.stage) <= Rank(next.stage)) && (Live(next) ==> Live(c))
            && (Attempted(c.pc).Some? ==> next.stage == Attempted(c.pc).value)
            && after.runs[c.run].stage ==
               if Attempted(c.pc).Some? && !fault.RolledBack? then Attempted(c.pc).value else db.runs[c.run].stage
  {
    if Saves(c) {
      hide ChatStep;
      SavingStepShape(db, log, c, now, fault, model);
      AttemptIsLegal(db, log, c);
      LegalRaisesRank(c.stage, Attempted(c.pc).value);
    }
  }

  lemma StepStores(s: Sys, a: Action, run: RunId)
    requires Inv(s) && run in s.db.runs
    ensures run in Next(s, a).db.runs
    ensures Next(s, a).db.runs[run].stage ==
            if Stored(s, a, run).Some? then Stored(s, a, run).value else s.db.runs[run].stage
  {
    hide ChatStep, ResumeStep, DbOk;
    if a.ChatActs? && a.h in s.chats {
      var c := s.chats[a.h];
      assert ChatOk(s.db, s.log, c);
      if c.run == run {
        ChatStores(s.db, s.log, c, s.now, a.fault, a.model);
      } else {
        ChatStepStage(s.db, c, s.now, a.fault, a.model, run);
      }
    } else if a.ResumeActs? && a.h in s.resumes {
      ResumeStepStage(s.db, s.resumes[a.h], s.now, a.fault, run);
    } else if !a.ChatActs? && !a.ResumeActs? {
      OtherStepStage(s, a, run);
    }
  }

  // ---- The invariant of all runs

  /** Until a chat request has its response, the column lags behind the request's own stage. */
  predicate LagsBehind(db: Db, c: Chat) {
    Live(c) && c.run in db.runs && Rank(c.stage) < Rank(ResponseReady) ==> Rank(db.runs[c.run].stage) <= Rank(c.stage)
  }

  predicate HasRead(r: Resume) {
    r.pc !in {Sweeping, Reading, Left}
  }

  /** A recovery goes past its reading only when the run's chat request has its response. */
  predicate ResponseIsReady(r: Resume, c: Chat) {
    HasRead(r) && Live(c) && c.run == r.run ==> Rank(ResponseReady) <= Rank(c.stage)
  }

  ghost predicate Ordered(s: Sys) {
    && (forall h :: h in s.chats ==> LagsBehind(s.db, s.chats[h]))
    && (forall h, k :: h in s.chats && k in s.resumes ==> ResponseIsReady(s.resumes[k], s.chats[h]))
  }

  lemma NewRequests(db: Db, log: seq<Append>, c: Chat, now: int, fault: Fault, model: Option<seq<Json>>)
    requires ChatOk(db, log, c) && c.run !in db.runs
    ensures var (after, next) := ChatStep(db, c, now, fault, model);
            next.run == c.run && LagsBehind(after, next)
  {
  }

  lemma RecoveryReads(db: Db, r: Resume, now: int, fault: Fault)
    ensures var next := ResumeStep(db, r, now, fault).1;
            && next.run == r.run
            && (HasRead(next) && !HasRead(r) ==> r.run in db.runs && Rank(ResponseReady) <= Rank(db.runs[r.run].stage))
  {
  }

  /** A request that does not act still leads the column, since only its own saves come before the response. */
  lemma OtherLagsBehind(s: Sys, a: Action, h: nat)
    requires Inv(s) && Ordered(s) && h in s.chats && !(a.ChatActs? && a.h == h)
    ensures LagsBehind(Next(s, a).db, s.chats[h])
  {
    hide Next, DbOk, Rank;
    var c := s.chats[h];
    assert ChatOk(s.db, s.log, c) && LagsBehind(s.db, c);
    if Live(c) {
      StepStores(s, a, c.run);
      if a.ResumeActs? && a.h in s.resumes {
        assert ResponseIsReady(s.resumes[a.h], c);
      }
    }
  }

  lemma ChatActsOrdered(s: Sys, a: Action)
    requires Inv(s) && Ordered(s) && a.ChatActs? && a.h in s.chats
    ensures Ordered(Next(s, a))
  {
    hide ChatStep, DbOk, LagsBehind, Rank;
    var c, s' := s.chats[a.h], Next(s, a);
    assert ChatOk(s.db, s.log, c) && LagsBehind(s.db, c);
    OwnLagsBehind(s.db, s.log, c, s.now, a.fault, a.model);
    forall k | k in s.chats && k != a.h ensures LagsBehind(s'.db, s.chats[k]) {
      OtherLagsBehind(s, a, k);
    }
    forall k | k in s.resumes ensures ResponseIsReady(s.resumes[k], s'.chats[a.h]) {
      assert ResumeOk(s.db, s.log, s.resumes[k]) && ResponseIsReady(s.resumes[k], c);
      if HasRead(s.resumes[k]) && s.resumes[k].run == c.run {
        ChatStores(s.db, s.log, c, s.now, a.fault, a.model);
      }
    }
  }

  lemma OwnLagsBehind(db: Db, log: seq<Append>, c: Chat, now: int, fault: Fault, model: Option<seq<Json>>)
    requires ChatOk(db, log, c) && LagsBehind(db, c)
    ensures var (after, next) := ChatStep(db, c, now, fault, model);
            next.run == c.run && LagsBehind(after, next)
  {
    if c.run in db.runs {
      ChatStores(db, log, c, now, fault, model);
    } else {
      NewRequests(db, log, c, now, fault, model);
    }
  }

  lemma ResumeActsOrdered(s: Sys, a: Action)
    requires Inv(s) && Ordered(s) && a.ResumeActs? && a.h in s.resumes
    ensures Ordered(Next(s, a))
  {
    hide ResumeStep, DbOk;
    var r, s' := s.resumes[a.h], Next(s, a);
    RecoveryReads(s.db, r, s.now, a.fault);
    forall h | h in s.chats
      ensures LagsBehind(s'.db, s.chats[h]) && ResponseIsReady(s'.resumes[a.h], s.chats[h])
    {
      OtherLagsBehind(s, a, h);
      assert LagsBehind(s.db, s.chats[h]) && ResponseIsReady(r, s.chats[h]);
    }
  }

  lemma OtherActsKeep(s: Sys, a: Action)
    requires !a.ChatActs? && !a.ResumeActs?
    ensures var s' := Next(s, a);
            && (forall h :: h in s'.chats && Live(s'.chats[h]) ==>
                  && h in s.chats && Live(s.chats[h])
                  && s'.chats[h].run == s.chats[h].run && s'.chats[h].stage == s.chats[h].stage)
            && (forall k :: k in s'.resumes && HasRead(s'.resumes[k]) ==>
                  k in s.resumes && s'.resumes[k] == s.resumes[k])
  {
    hide Beat;
    if a.HeartbeatFires? && a.h in s.chats {
      BeatKeepsProgress(s.db, s.chats[a.h], s.now, a.fault);
    }
  }

  lemma OtherActsOrdered(s: Sys, a: Action)
    requires Inv(s) && Ordered(s) && !a.ChatActs? && !a.ResumeActs?
    ensures Ordered(Next(s, a))
  {
    hide Next, Inv, Rank;
    var s' := Next(s, a);
    OtherActsKeep(s, a);
    forall h | h in s'.chats ensures LagsBehind(s'.db, s'.chats[h]) {
      if Live(s'.chats[h]) {
        OtherLagsBehind(s, a, h);
      }
    }
    forall h, k | h in s'.chats && k in s'.resumes ensures ResponseIsReady(s'.resumes[k], s'.chats[h]) {
      assert h in s.chats && k in s.resumes ==> ResponseIsReady(s.resumes[k], s.chats[h]);
    }
  }

  lemma {:induction false} OrderedAlways(actions: seq<Action>)
    ensures Ordered(After(actions))
  {
    hide Next, Inv, Ordered;
    if actions != [] {
      var front, last := actions[..|actions| - 1], actions[|actions| - 1];
      OrderedAlways(front);
      InvAlways(front);
      var s := After(front);
      if last.ChatActs? && last.h in s.chats {
        ChatActsOrdered(s, last);
      } else if last.ResumeActs? && last.h in s.resumes {
        ResumeActsOrdered(s, last);
      } else {
        IdleActsOrdered(s, last);
      }
    } else {
      StartOrdered();
    }
  }

  lemma StartOrdered()
    ensures Ordered(START)
  {
  }

  lemma IdleActsOrdered(s: Sys, a: Action)
    requires Inv(s) && Ordered(s)
    requires a.ChatActs? ==> a.h !in s.chats
    requires a.ResumeActs? ==> a.h !in s.resumes
    ensures Ordered(Next(s, a))
  {
    hide Inv, Ordered;
    if !a.ChatActs? && !a.ResumeActs? {
      OtherActsOrdered(s, a);
    }
  }

  /** In every execution, fenced or not, a step takes a run's stage back exactly when it stores response_persisted over
      a terminal stage. */
  lemma StageDropsExactlyWhen(actions: seq<Action>, a: Action, run: RunId)
    requires run in After(actions).db.runs
    ensures var s, s' := After(actions), Next(After(actions), a);
            && run in s'.db.runs
            && (Rank(s'.db.runs[run].stage) < Rank(s.db.runs[run].stage) <==>
                  Stored(s, a, run) == Some(ResponsePersisted) && Terminal(s.db.runs[run].stage))
  {
    hide After, Next, DbOk;
    var s := After(actions);
    InvAlways(actions);
    OrderedAlways(actions);
    StepStores(s, a, run);
    if a.ChatActs? && a.h in s.chats && s.chats[a.h].run == run {
      assert LagsBehind(s.db, s.chats[a.h]) && ChatOk(s.db, s.log, s.chats[a.h]);
    }
  }

  /** No step stores response_persisted over a terminal stage of the run. */
  ghost predicate NeverOverTerminal(actions: seq<Action>, run: RunId) {
    forall i :: 0 <= i < |actions| && run in After(actions[..i]).db.runs ==>
      Stored(After(actions[..i]), actions[i], run) != Some(ResponsePersisted) ||
      !Terminal(After(actions[..i]).db.runs[run].stage)
  }

  /** Over a whole execution without such a step the stage never moves backwards. */
  lemma {:induction false} StageNeverDrops(actions: seq<Action>, cut: nat, run: RunId)
    requires cut <= |actions| && NeverOverTerminal(actions, run) && run in After(actions[..cut]).db.runs
    ensures run in After(actions).db.runs
    ensures Rank(After(actions[..cut]).db.runs[run].stage) <= Rank(After(actions).db.runs[run].stage)
  {
    hide Next, Stored;
    if cut == |actions| {
      assert actions[..cut] == actions;
    } else {
      var front, last := actions[..|actions| - 1], actions[|actions| - 1];
      assert forall i :: 0 <= i < |front| ==> front[i] == actions[i] && front[..i] == actions[..i];
      assert front[..cut] == actions[..cut];
      StageNeverDrops(front, cut, run);
      assert actions[..|actions| - 1] == front;
      StageDropsExactlyWhen(front, last, run);
    }
  }
}
