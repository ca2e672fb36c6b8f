/** The one way a success is undone while no handler writes after another has claimed its run: the request that finished
    the run lost the reply, and then failed it. */
module RunLostReplies {
  import opened Common
  import opened RunStages
  import opened MessageHistory
  import opened RunTables
  import opened RunProtocol
  import opened RunStageOrder
  import opened RunOutcomes
  import RunClaims

  /** The request's succeeding finish of the run commits, and its reply is lost. */
  predicate LosesTheReply(s: Sys, a: Action, h: nat, run: RunId) {
    a.ChatActs? && a.h == h && a.fault.ReplyLost? && CompletesRun(s, a, run)
  }

  ghost predicate LostTheReply(actions: seq<Action>, h: nat, run: RunId) {
    exists j :: 0 <= j < |actions| && LosesTheReply(After(actions[..j]), actions[j], h, run)
  }

  lemma LostTheReplyNext(actions: seq<Action>, h: nat, run: RunId)
    requires actions != []
    ensures var front, last := actions[..|actions| - 1], actions[|actions| - 1];
            LostTheReply(front, h, run) || LosesTheReply(After(front), last, h, run) ==> LostTheReply(actions, h, run)
  {
    hide After, LosesTheReply;
    var front := actions[..|actions| - 1];
    if LostTheReply(front, h, run) {
      var j :| 0 <= j < |front| && LosesTheReply(After(front[..j]), front[j], h, run);
      assert front[..j] == actions[..j];
      assert LosesTheReply(After(actions[..j]), actions[j], h, run);
    }
    if LosesTheReply(After(front), actions[|actions| - 1], h, run) {
      assert actions[..|actions| - 1] == front;
    }
  }

  // ---- The invariant

  /** The run succeeded and nobody has claimed it. */
  predicate OwnSuccess(db: Db, run: RunId) {
    run in db.runs && db.runs[run].status == Succeeded && db.runs[run].attemptCount == 1
  }

  predicate PastItsFinish(c: Chat, lost: bool) {
    c.pc in {SavingCompleted, SavingFailed} || (c.pc == FinishingFailed && lost)
  }

  /** The chat request of an unclaimed succeeded run is past its succeeding finish, and about to fail the run only if it
      lost the reply. */
  predicate KnowsItsSuccess(db: Db, c: Chat, lost: bool) {
    OwnSuccess(db, c.run) && Live(c) ==> PastItsFinish(c, lost)
  }

  ghost predicate SuccessesKnown(s: Sys, actions: seq<Action>) {
    forall h :: h in s.chats ==> KnowsItsSuccess(s.db, s.chats[h], LostTheReply(actions, h, s.chats[h].run))
  }

  /** A fenced step leaves an unclaimed succeeded run only where there was one, or by the request's own finish. */
  lemma OwnSuccessComes(s: Sys, a: Action, run: RunId)
    requires FencedInv(s) && Fenced(s, a) && OwnSuccess(Next(s, a).db, run)
    ensures OwnSuccess(s.db, run) || CompletesRun(s, a, run)
  {
    hide Next;
    if run !in s.db.runs {
      NewRunsRun(s, a, run);
    } else {
      StepDecides(s, a, run);
      RunClaims.StepKeepsHolder(s, a, run);
      assert RecoversRun(s, a, run) ==> ResumeCurrent(s.db, s.resumes[a.h]);
    }
  }

  lemma OwnStepKnows(db: Db, log: seq<Append>, c: Chat, now: int, fault: Fault, model: Option<seq<Json>>, lost: bool)
    requires ChatOk(db, log, c) && KnowsItsSuccess(db, c, lost)
    requires var (after, next) := ChatStep(db, c, now, fault, model);
             OwnSuccess(after, c.run) ==> OwnSuccess(db, c.run) || (c.pc == FinishingOk && !fault.RolledBack?)
    ensures var (after, next) := ChatStep(db, c, now, fault, model);
            && next.run == c.run
            && KnowsItsSuccess(after, next, lost || (c.pc == FinishingOk && fault.ReplyLost?))
  {
  }

  lemma OtherStepKnows(s: Sys, a: Action, h: nat, lost: bool)
    requires Inv(s) && FencedInv(s) && Fenced(s, a) && h in s.chats && !(a.ChatActs? && a.h == h)
    requires KnowsItsSuccess(s.db, s.chats[h], lost)
    ensures KnowsItsSuccess(Next(s, a).db, s.chats[h], lost)
  {
    hide Next, DbOk;
    var c := s.chats[h];
    if OwnSuccess(Next(s, a).db, c.run) && Live(c) {
      OwnSuccessComes(s, a, c.run);
    }
  }

  lemma MoreLoss(db: Db, c: Chat, less: bool, more: bool)
    requires KnowsItsSuccess(db, c, less) && (less ==> more)
    ensures KnowsItsSuccess(db, c, more)
  {
  }

  lemma ChatAfter(s: Sys, a: Action, h: nat)
    requires h in Next(s, a).chats && Live(Next(s, a).chats[h]) && !(a.ChatActs? && a.h == h)
    ensures h in s.chats && Live(s.chats[h])
    ensures Next(s, a).chats[h].run == s.chats[h].run && Next(s, a).chats[h].pc == s.chats[h].pc
  {
    hide ChatStep, ResumeStep;
  }

  lemma StepKnows(actions: seq<Action>, h: nat)
    requires actions != []
    requires var front, last := actions[..|actions| - 1], actions[|actions| - 1];
             var s := After(front);
             Inv(s) && FencedInv(s) && Fenced(s, last) && SuccessesKnown(s, front) && h in Next(s, last).chats
    ensures var c := After(actions).chats[h];
            KnowsItsSuccess(After(actions).db, c, LostTheReply(actions, h, c.run))
  {
    var front, a := actions[..|actions| - 1], actions[|actions| - 1];
    var s := After(front);
    hide ChatStep, ResumeStep, After, Inv, FencedInv, Fenced, LostTheReply, PastItsFinish;
    var c' := Next(s, a).chats[h];
    LostTheReplyNext(actions, h, c'.run);
    if a.ChatActs? && a.h == h && h in s.chats {
      var c := s.chats[h];
      assert ChatOk(s.db, s.log, c) by { ChatsAreOk(s, h); }
      ChatKeepsRun(s.db, c, s.now, a.fault, a.model);
      if OwnSuccess(Next(s, a).db, c.run) {
        OwnSuccessComes(s, a, c.run);
      }
      OwnStepKnows(s.db, s.log, c, s.now, a.fault, a.model, LostTheReply(front, h, c.run));
      MoreLoss(Next(s, a).db, c', LostTheReply(front, h, c.run) || (c.pc == FinishingOk && a.fault.ReplyLost?),
               LostTheReply(actions, h, c.run));
    } else if Live(c') {
      ChatAfter(s, a, h);
      OtherStepKnows(s, a, h, LostTheReply(front, h, c'.run));
      MoreLoss(Next(s, a).db, s.chats[h], LostTheReply(front, h, c'.run), LostTheReply(actions, h, c'.run));
    }
  }

  lemma ChatsAreOk(s: Sys, h: nat)
    requires Inv(s) && h in s.chats
    ensures ChatOk(s.db, s.log, s.chats[h])
  {
  }

  lemma {:induction false} SuccessesAlwaysKnown(actions: seq<Action>)
    requires AllFenced(actions)
    ensures SuccessesKnown(After(actions), actions)
  {
    hide Next, Inv, FencedInv, Fenced, LostTheReply;
    if actions != [] {
      var front, last := actions[..|actions| - 1], actions[|actions| - 1];
      assert forall i :: 0 <= i < |front| ==> front[i] == actions[i] && front[..i] == actions[..i];
      SuccessesAlwaysKnown(front);
      InvAlways(front);
      FencedInvAlways(front);
      assert Fenced(After(actions[..|actions| - 1]), last);
      forall h | h in After(actions).chats
        ensures KnowsItsSuccess(After(actions).db, After(actions).chats[h],
                                LostTheReply(actions, h, After(actions).chats[h].run))
      {
        StepKnows(actions, h);
      }
    }
  }

  // ---- The exact condition

  /** In a fenced execution the next fenced step fails a succeeded run exactly when it commits the failing finish of the
      chat request that had committed the succeeding one and lost the reply. */
  lemma FencedSuccessIsUndoneExactlyWhen(actions: seq<Action>, a: Action, run: RunId)
    requires AllFenced(actions) && Fenced(After(actions), a)
    requires run in After(actions).db.runs && After(actions).db.runs[run].status == Succeeded
    ensures run in Next(After(actions), a).db.runs
    ensures Next(After(actions), a).db.runs[run].status == FailedRun <==>
            FailsRun(After(actions), a, run) && LostTheReply(actions, a.h, run)
  {
    var s := After(actions);
    hide After, Next, Inv, FencedInv, LostTheReply;
    SuccessIsUndoneExactlyWhen(s, a, run);
    if FailsRun(s, a, run) {
      InvAlways(actions);
      ChatsAreOk(s, a.h);
      SuccessesAlwaysKnown(actions);
      assert KnowsItsSuccess(s.db, s.chats[a.h], LostTheReply(actions, a.h, run));
    }
  }

  /** At step `k` a chat request that had lost the reply of its succeeding finish commits its failing one. */
  ghost predicate FailsAfterLoss(actions: seq<Action>, k: nat, run: RunId)
    requires k < |actions|
  {
    FailsRun(After(actions[..k]), actions[k], run) && LostTheReply(actions[..k], actions[k].h, run)
  }

  ghost predicate UndoneByLoss(actions: seq<Action>, cut: nat, run: RunId) {
    exists k :: cut <= k < |actions| && FailsAfterLoss(actions, k, run)
  }

  lemma UndoneByLossNext(actions: seq<Action>, cut: nat, run: RunId)
    requires cut < |actions|
    ensures var front, last := actions[..|actions| - 1], actions[|actions| - 1];
            UndoneByLoss(actions, cut, run) <==>
            UndoneByLoss(front, cut, run) || (FailsRun(After(front), last, run) && LostTheReply(front, last.h, run))
  {
    hide After, LostTheReply;
    var front, last := actions[..|actions| - 1], actions[|actions| - 1];
    forall k | cut <= k < |front| ensures FailsAfterLoss(front, k, run) <==> FailsAfterLoss(actions, k, run) {
      assert front[..k] == actions[..k];
    }
    var at := |front|;
    assert actions[..at] == front;
    if FailsRun(After(front), last, run) && LostTheReply(front, last.h, run) {
      assert FailsAfterLoss(actions, at, run);
    }
  }

  /** Over a whole fenced execution a succeeded run ends as succeeded or failed, and as failed exactly when that
      happened to it. */
  lemma {:induction false} FencedSuccessLastsExactlyWhen(actions: seq<Action>, cut: nat, run: RunId)
    requires AllFenced(actions) && HasStatus(actions, cut, run, Succeeded)
    ensures run in After(actions).db.runs
    ensures After(actions).db.runs[run].status == if UndoneByLoss(actions, cut, run) then FailedRun else Succeeded
  {
    if cut == |actions| {
      assert actions[..cut] == actions;
    } else {
      var front, last := actions[..|actions| - 1], actions[|actions| - 1];
      assert forall i :: 0 <= i < |front| ==> front[i] == actions[i] && front[..i] == actions[..i];
      assert front[..cut] == actions[..cut];
      assert Fenced(After(actions[..|actions| - 1]), last);
      assert After(actions) == Next(After(front), last);
      hide After, Next, Fenced, LostTheReply;
      FencedSuccessLastsExactlyWhen(front, cut, run);
      UndoneByLossNext(actions, cut, run);
      StepDecides(After(front), last, run);
      if After(front).db.runs[run].status == Succeeded {
        FencedSuccessIsUndoneExactlyWhen(front, last, run);
      } else {
        FencedFailureIsFinal(front, last, run);
      }
    }
  }
}
