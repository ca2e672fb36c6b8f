/** When the stage column can move backwards, if no handler writes to a run that another has claimed since. */
module RunStageOrder {
  import opened Common
  import opened RunStages
  import opened MessageHistory
  import opened RunTables
  import opened RunProtocol

  predicate Holds(r: Resume) {
    r.pc in {Counting, GivingBack, MarkingPersisted, Concluding, MarkingCompleted, BackingOut}
  }

  predicate Unfinished(r: Resume) {
    r.pc in {Counting, GivingBack, MarkingPersisted, Concluding}
  }

  /** The acting handler is the last one that took its run: attempt_count is still the one it was given
      (1 for the chat request that created the run). */
  predicate Fenced(s: Sys, a: Action) {
    match a
    case ChatActs(h, _, _) =>
      h in s.chats && Live(s.chats[h]) && s.chats[h].run in s.db.runs ==>
        s.db.runs[s.chats[h].run].attemptCount == 1
    case ResumeActs(h, _) =>
      h in s.resumes && Holds(s.resumes[h]) && s.resumes[h].run in s.db.runs ==>
        s.db.runs[s.resumes[h].run].attemptCount == s.resumes[h].attempt
    case _ => true
  }

  ghost predicate AllFenced(actions: seq<Action>) {
    forall i :: 0 <= i < |actions| ==> Fenced(After(actions[..i]), actions[i])
  }

  // ---- The invariant of fenced runs

  /** While nobody has claimed the run, the column lags behind the chat request's own stage. */
  predicate ChatAhead(db: Db, c: Chat) {
    Live(c) && c.run in db.runs && db.runs[c.run].attemptCount == 1 ==>
      Rank(db.runs[c.run].stage) <= Rank(c.stage)
  }

  predicate ResumeCurrent(db: Db, r: Resume) {
    Holds(r) && r.run in db.runs ==>
      && 2 <= r.attempt <= db.runs[r.run].attemptCount
      && (Unfinished(r) && r.attempt == db.runs[r.run].attemptCount ==> db.runs[r.run].status == Running)
  }

  ghost predicate OneResumePerAttempt(resumes: map<nat, Resume>) {
    forall h, k ::
      (h in resumes && k in resumes && h != k && Holds(resumes[h]) && Holds(resumes[k]) &&
       resumes[h].run == resumes[k].run) ==> resumes[h].attempt != resumes[k].attempt
  }

  ghost predicate FencedInv(s: Sys) {
    && (forall run :: run in s.db.runs ==> s.db.runs[run].attemptCount >= 1)
    && (forall h :: h in s.chats ==> ChatAhead(s.db, s.chats[h]))
    && (forall h :: h in s.resumes ==> ResumeCurrent(s.db, s.resumes[h]))
    && OneResumePerAttempt(s.resumes)
  }

  /** A fenced step touches only its handler's run; claims raise the attempt, the sweep leaves stage,
      status and attempt alone. */
  ghost predicate OnlyTouches(db: Db, db': Db, run: RunId) {
    forall r :: r != run ==> (r in db.runs <==> r in db'.runs) && (r in db.runs ==> db'.runs[r] == db.runs[r])
  }

  ghost predicate SameProgress(db: Db, db': Db) {
    && db'.runs.Keys == db.runs.Keys
    && forall r :: r in db.runs ==>
         && db'.runs[r].stage == db.runs[r].stage
         && db'.runs[r].status == db.runs[r].status
         && db'.runs[r].attemptCount == db.runs[r].attemptCount
  }

  /** What a chat request's fenced step does to the progress of its run. */
  ghost predicate ChatProgress(db: Db, c: Chat, db': Db, c': Chat) {
    && OnlyTouches(db, db', c.run) && c'.run == c.run && ChatAhead(db', c')
    && (c.run in db.runs ==>
          && c.run in db'.runs
          && db'.runs[c.run].attemptCount == db.runs[c.run].attemptCount
          && Rank(db.runs[c.run].stage) <= Rank(db'.runs[c.run].stage)
          && (!Live(c) ==> db'.runs[c.run] == db.runs[c.run]))
    && (c.run !in db.runs && c.run in db'.runs ==> db'.runs[c.run].attemptCount == 1)
  }

  lemma SavingFenced(db: Db, log: seq<Append>, c: Chat, now: int, fault: Fault, model: Option<seq<Json>>)
    requires ChatOk(db, log, c) && ChatAhead(db, c) && Saves(c)
    requires c.run in db.runs ==> db.runs[c.run].attemptCount == 1
    ensures var (db', c') := ChatStep(db, c, now, fault, model); ChatProgress(db, c, db', c')
  {
    SavingStepShape(db, log, c, now, fault, model);
    LegalRaisesRank(c.stage, Attempted(c.pc).value);
    AttemptIsLegal(db, log, c);
  }

  lemma LegalRaisesRank(from: RunStage, to: RunStage)
    ensures Legal(from, to) ==> Rank(from) < Rank(to)
  {
  }

  lemma AttemptIsLegal(db: Db, log: seq<Append>, c: Chat)
    requires ChatOk(db, log, c) && Saves(c)
    ensures Legal(c.stage, Attempted(c.pc).value)
  {
  }

  lemma ChatStepFenced(db: Db, log: seq<Append>, c: Chat, now: int, fault: Fault, model: Option<seq<Json>>)
    requires ChatOk(db, log, c) && ChatAhead(db, c)
    requires Live(c) && c.run in db.runs ==> db.runs[c.run].attemptCount == 1
    ensures var (db', c') := ChatStep(db, c, now, fault, model); ChatProgress(db, c, db', c')
  {
    if Saves(c) {
      SavingFenced(db, log, c, now, fault, model);
    }
  }

  /** The one write that takes a stage back: a recovery that read response_ready marks
      response_persisted over a stage that meanwhile became failed. */
  predicate Regresses(db: Db, r: Resume, fault: Fault) {
    r.pc == MarkingPersisted && !fault.RolledBack? && r.run in db.runs && db.runs[r.run].stage == Failed
  }

  /** What a recovery's fenced step, other than its sweep, does to the progress of its run. */
  ghost predicate ResumeProgress(db: Db, r: Resume, db': Db, r': Resume, back: bool) {
    && OnlyTouches(db, db', r.run) && r'.run == r.run && ResumeCurrent(db', r')
    && (r.run in db.runs <==> r.run in db'.runs)
    && (r.run in db.runs ==>
          && db.runs[r.run].attemptCount <= db'.runs[r.run].attemptCount
          && (db'.runs[r.run].status != db.runs[r.run].status ==> Holds(r))
          && (Holds(r) ==> db'.runs[r.run].attemptCount == db.runs[r.run].attemptCount == r.attempt)
          && (!Holds(r) ==> db'.runs[r.run].stage == db.runs[r.run].stage)
          && (Rank(db'.runs[r.run].stage) < Rank(db.runs[r.run].stage) <==> back))
    && (Holds(r') && Holds(r) ==> r'.attempt == r.attempt)
    && (Holds(r') && !Holds(r) ==> r.run in db.runs && r'.attempt == db.runs[r.run].attemptCount + 1)
  }

  lemma HoldingStepFenced(db: Db, log: seq<Append>, r: Resume, now: int, fault: Fault)
    requires r.run in db.runs && RowOk(log, r.run, db.runs[r.run]) && ResumeCurrent(db, r)
    requires Holds(r) && db.runs[r.run].attemptCount == r.attempt
    ensures var (db', r') := ResumeStep(db, r, now, fault);
            ResumeProgress(db, r, db', r', Regresses(db, r, fault))
  {
    hide Logged, OfRun;
  }

  lemma EnteringStepFenced(db: Db, r: Resume, now: int, fault: Fault)
    requires r.pc in {Reading, Claiming, Left}
    requires r.run in db.runs ==> db.runs[r.run].attemptCount >= 1
    ensures var (db', r') := ResumeStep(db, r, now, fault);
            ResumeProgress(db, r, db', r', Regresses(db, r, fault))
  {
  }

  /** A single fenced step takes no stage back, with one exception, and in that case it does. */
  ghost predicate StageMoves(s: Sys, a: Action) {
    forall run :: run in s.db.runs ==>
      && run in Next(s, a).db.runs
      && (Rank(Next(s, a).db.runs[run].stage) < Rank(s.db.runs[run].stage) <==>
            a.ResumeActs? && a.h in s.resumes && s.resumes[a.h].run == run && Regresses(s.db, s.resumes[a.h], a.fault))
  }

  lemma ChatActsFenced(s: Sys, a: Action)
    requires Inv(s) && FencedInv(s) && Fenced(s, a) && a.ChatActs? && a.h in s.chats
    ensures FencedInv(Next(s, a)) && StageMoves(s, a)
  {
    var c := s.chats[a.h];
    assert ChatOk(s.db, s.log, c);
    ChatStepFenced(s.db, s.log, c, s.now, a.fault, a.model);
    var s' := Next(s, a);
    forall k | k in s.chats && k != a.h ensures ChatAhead(s'.db, s.chats[k]) {
      assert ChatAhead(s.db, s.chats[k]) && ChatOk(s.db, s.log, s.chats[k]);
    }
    forall k | k in s.resumes ensures ResumeCurrent(s'.db, s.resumes[k]) {
      assert ResumeCurrent(s.db, s.resumes[k]) && ResumeOk(s.db, s.log, s.resumes[k]);
    }
  }

  lemma OtherResumeKeeps(s: Sys, h: nat, k: nat, db': Db, r': Resume, back: bool)
    requires Inv(s) && FencedInv(s) && h in s.resumes && k in s.resumes && h != k
    requires ResumeProgress(s.db, s.resumes[h], db', r', back)
    ensures ResumeCurrent(db', s.resumes[k])
    ensures Holds(r') && Holds(s.resumes[k]) && r'.run == s.resumes[k].run ==> r'.attempt != s.resumes[k].attempt
  {
    var r, q := s.resumes[h], s.resumes[k];
    assert ResumeCurrent(s.db, q) && ResumeOk(s.db, s.log, q) && ResumeOk(s.db, s.log, r);
  }

  lemma ChatKeepsAhead(s: Sys, h: nat, k: nat, db': Db, r': Resume, back: bool)
    requires Inv(s) && FencedInv(s) && h in s.resumes && k in s.chats
    requires ResumeProgress(s.db, s.resumes[h], db', r', back)
    ensures ChatAhead(db', s.chats[k])
  {
    assert ChatAhead(s.db, s.chats[k]) && ChatOk(s.db, s.log, s.chats[k]);
    assert ResumeCurrent(s.db, s.resumes[h]) && ResumeOk(s.db, s.log, s.resumes[h]);
  }

  lemma ResumeKeepsFenced(s: Sys, h: nat, db': Db, r': Resume, back: bool)
    requires Inv(s) && FencedInv(s) && h in s.resumes
    requires ResumeProgress(s.db, s.resumes[h], db', r', back)
    ensures FencedInv(s.(db := db', resumes := s.resumes[h := r']))
  {
    forall k | k in s.chats ensures ChatAhead(db', s.chats[k]) {
      ChatKeepsAhead(s, h, k, db', r', back);
    }
    forall k | k in s.resumes && k != h
      ensures ResumeCurrent(db', s.resumes[k])
      ensures Holds(r') && Holds(s.resumes[k]) && r'.run == s.resumes[k].run ==> r'.attempt != s.resumes[k].attempt
    {
      OtherResumeKeeps(s, h, k, db', r', back);
    }
  }

  lemma ResumeActsFenced(s: Sys, a: Action)
    requires Inv(s) && FencedInv(s) && Fenced(s, a) && a.ResumeActs? && a.h in s.resumes
    requires s.resumes[a.h].pc != Sweeping
    ensures FencedInv(Next(s, a)) && StageMoves(s, a)
  {
    var r := s.resumes[a.h];
    var (db', r') := ResumeStep(s.db, r, s.now, a.fault);
    assert ResumeOk(s.db, s.log, r) && ResumeCurrent(s.db, r);
    if Holds(r) {
      HoldingStepFenced(s.db, s.log, r, s.now, a.fault);
    } else {
      EnteringStepFenced(s.db, r, s.now, a.fault);
    }
    ResumeKeepsFenced(s, a.h, db', r', Regresses(s.db, r, a.fault));
  }

  lemma ProgressUntouched(s: Sys, s': Sys)
    requires FencedInv(s) && SameProgress(s.db, s'.db)
    requires s'.chats.Keys == s.chats.Keys && s'.resumes.Keys == s.resumes.Keys
    requires forall h :: h in s.chats ==>
               && s'.chats[h].run == s.chats[h].run && s'.chats[h].stage == s.chats[h].stage
               && (Live(s'.chats[h]) ==> Live(s.chats[h]))
    requires forall h :: h in s.resumes ==> s'.resumes[h] == s.resumes[h] || !Holds(s'.resumes[h])
    ensures FencedInv(s')
  {
    forall h | h in s'.chats ensures ChatAhead(s'.db, s'.chats[h]) {
      assert ChatAhead(s.db, s.chats[h]);
    }
    forall h | h in s'.resumes ensures ResumeCurrent(s'.db, s'.resumes[h]) {
      assert ResumeCurrent(s.db, s.resumes[h]);
    }
  }

  lemma NextFenced(s: Sys, a: Action)
    requires Inv(s) && FencedInv(s) && Fenced(s, a)
    ensures FencedInv(Next(s, a)) && StageMoves(s, a)
  {
    hide Inv, FencedInv, Fenced, StageMoves, Next;
    match a {
      case ChatActs(h, _, _) => if h in s.chats { ChatActsFenced(s, a); } else { NothingHappens(s, a); }
      case ResumeActs(h, _) =>
        if h !in s.resumes {
          NothingHappens(s, a);
        } else if s.resumes[h].pc == Sweeping {
          SweepFenced(s, a);
        } else {
          ResumeActsFenced(s, a);
        }
      case ChatArrives(h, run, session, worker) => ArrivalsFenced(s, a);
      case ResumeArrives(h, run, worker) => ArrivalsFenced(s, a);
      case HeartbeatFires(h, _) => BeatFenced(s, a);
      case Sweep(_) => SweepFenced(s, a);
      case ChatDies(_) => DeathFenced(s, a);
      case ResumeDies(_) => DeathFenced(s, a);
      case Tick(_) => DeathFenced(s, a);
    }
  }

  lemma NothingHappens(s: Sys, a: Action)
    requires FencedInv(s)
    requires (a.ChatActs? && a.h !in s.chats) || (a.ResumeActs? && a.h !in s.resumes)
    ensures FencedInv(Next(s, a)) && StageMoves(s, a)
  {
  }

  lemma DeathFenced(s: Sys, a: Action)
    requires FencedInv(s) && (a.ChatDies? || a.ResumeDies? || a.Tick?)
    ensures FencedInv(Next(s, a)) && StageMoves(s, a)
  {
    ProgressUntouched(s, Next(s, a));
  }

  lemma BeatKeepsProgress(db: Db, c: Chat, now: int, fault: Fault)
    ensures var (after, next) := Beat(db, c, now, fault);
            SameProgress(db, after) && next.run == c.run && next.stage == c.stage && next.pc == c.pc
  {
  }

  lemma BeatFenced(s: Sys, a: Action)
    requires FencedInv(s) && a.HeartbeatFires?
    ensures FencedInv(Next(s, a)) && StageMoves(s, a)
  {
    hide Beat, FencedInv;
    if a.h in s.chats {
      BeatKeepsProgress(s.db, s.chats[a.h], s.now, a.fault);
    }
    ProgressUntouched(s, Next(s, a));
  }

  lemma SweepKeepsProgress(db: Db, now: int, fault: Fault)
    ensures SameProgress(db, Settle(db, MarkOrphaned(db, now).0, fault))
  {
  }

  lemma SweepFenced(s: Sys, a: Action)
    requires FencedInv(s) && (a.Sweep? || (a.ResumeActs? && a.h in s.resumes && s.resumes[a.h].pc == Sweeping))
    ensures FencedInv(Next(s, a)) && StageMoves(s, a)
  {
    hide MarkOrphaned, Settle, FencedInv;
    SweepKeepsProgress(s.db, s.now, a.fault);
    ProgressUntouched(s, Next(s, a));
  }

  lemma ArrivalsFenced(s: Sys, a: Action)
    requires FencedInv(s) && (a.ChatArrives? || a.ResumeArrives?)
    ensures FencedInv(Next(s, a)) && StageMoves(s, a)
  {
    var s' := Next(s, a);
    assert s'.db == s.db;
    forall h | h in s'.chats ensures ChatAhead(s'.db, s'.chats[h]) {
      assert h in s.chats ==> ChatAhead(s.db, s.chats[h]);
    }
    forall h | h in s'.resumes ensures ResumeCurrent(s'.db, s'.resumes[h]) {
      assert h in s.resumes ==> ResumeCurrent(s.db, s.resumes[h]);
    }
  }

  lemma {:induction false} FencedInvAlways(actions: seq<Action>)
    requires AllFenced(actions)
    ensures FencedInv(After(actions))
  {
    if actions != [] {
      var front := actions[..|actions| - 1];
      assert forall i :: 0 <= i < |front| ==> front[i] == actions[i] && front[..i] == actions[..i];
      FencedInvAlways(front);
      InvAlways(front);
      assert Fenced(After(actions[..|actions| - 1]), actions[|actions| - 1]);
      NextFenced(After(front), actions[|actions| - 1]);
    }
  }

  /** In a fenced execution the next fenced step takes a stage back exactly when it is a recovery marking
      response_persisted on a row whose stage is failed. */
  lemma StageMovesBackExactlyWhen(actions: seq<Action>, a: Action, run: RunId)
    requires AllFenced(actions) && Fenced(After(actions), a)
    requires run in After(actions).db.runs
    ensures var s, s' := After(actions), Next(After(actions), a);
            && run in s'.db.runs
            && (Rank(s'.db.runs[run].stage) < Rank(s.db.runs[run].stage) <==>
                  a.ResumeActs? && a.h in s.resumes && s.resumes[a.h].run == run &&
                  Regresses(s.db, s.resumes[a.h], a.fault))
  {
    InvAlways(actions);
    FencedInvAlways(actions);
    NextFenced(After(actions), a);
  }

  /** No recovery ever writes response_persisted over failed. */
  ghost predicate NoStaleMark(actions: seq<Action>) {
    forall i :: 0 <= i < |actions| && actions[i].ResumeActs? ==>
      var s := After(actions[..i]);
      actions[i].h in s.resumes ==> !Regresses(s.db, s.resumes[actions[i].h], actions[i].fault)
  }

  /** Over a whole fenced execution without such a write, the stage column never moves backwards. */
  lemma {:induction false} StageNeverMovesBack(actions: seq<Action>, cut: nat, run: RunId)
    requires cut <= |actions| && AllFenced(actions) && NoStaleMark(actions)
    requires run in After(actions[..cut]).db.runs
    ensures run in After(actions).db.runs
    ensures Rank(After(actions[..cut]).db.runs[run].stage) <= Rank(After(actions).db.runs[run].stage)
  {
    if cut == |actions| {
      assert actions[..cut] == actions;
    } else {
      var front, last := actions[..|actions| - 1], actions[|actions| - 1];
      assert forall i :: 0 <= i < |front| ==> front[i] == actions[i] && front[..i] == actions[..i];
      assert front[..cut] == actions[..cut];
      StageNeverMovesBack(front, cut, run);
      assert Fenced(After(actions[..|actions| - 1]), last);
      StageMovesBackExactlyWhen(front, last, run);
    }
  }

  // ---- Terminal stages

  predicate Terminal(stage: RunStage) {
    stage in {Completed, Failed}
  }

  /** A recovery writes over a failed stage, with either of its two marks. */
  predicate Unsettles(db: Db, r: Resume, fault: Fault) {
    && r.pc in {MarkingPersisted, MarkingCompleted} && !fault.RolledBack?
    && r.run in db.runs && db.runs[r.run].stage == Failed
  }

  lemma LiveStagesAreNotTerminal(db: Db, log: seq<Append>, c: Chat)
    requires ChatOk(db, log, c) && Live(c)
    ensures Rank(c.stage) < 5
  {
  }

  lemma ChatStepStage(db: Db, c: Chat, now: int, fault: Fault, model: Option<seq<Json>>, run: RunId)
    requires run in db.runs && (c.run != run || !Live(c))
    ensures var after := ChatStep(db, c, now, fault, model).0;
            run in after.runs && after.runs[run].stage == db.runs[run].stage
  {
  }

  lemma ResumeStepStage(db: Db, r: Resume, now: int, fault: Fault, run: RunId)
    requires run in db.runs
    ensures var after := ResumeStep(db, r, now, fault).0;
            run in after.runs &&
            after.runs[run].stage ==
            if r.run == run && r.pc == MarkingPersisted && !fault.RolledBack? then ResponsePersisted
            else if r.run == run && r.pc == MarkingCompleted && !fault.RolledBack? then Completed
            else db.runs[run].stage
  {
  }

  lemma OtherStepStage(s: Sys, a: Action, run: RunId)
    requires run in s.db.runs && !a.ChatActs? && !a.ResumeActs?
    ensures run in Next(s, a).db.runs && Next(s, a).db.runs[run].stage == s.db.runs[run].stage
  {
  }

  lemma NoMarkOverCompleted(s: Sys, a: Action, run: RunId)
    requires Inv(s) && FencedInv(s) && Fenced(s, a) && run in s.db.runs && s.db.runs[run].stage == Completed
    requires a.ResumeActs? && a.h in s.resumes && s.resumes[a.h].run == run
    ensures s.resumes[a.h].pc != MarkingPersisted
  {
    hide ResumeStep, ChatStep;
    assert RowOk(s.log, run, s.db.runs[run]);
    assert ResumeCurrent(s.db, s.resumes[a.h]);
  }

  /** In a fenced execution a step changes a terminal stage exactly when it is a recovery marking over `failed`; a
      completed stage never changes. */
  lemma TerminalStageChangesExactlyWhen(actions: seq<Action>, a: Action, run: RunId)
    requires AllFenced(actions) && Fenced(After(actions), a)
    requires run in After(actions).db.runs && Terminal(After(actions).db.runs[run].stage)
    ensures var s, s' := After(actions), Next(After(actions), a);
            && run in s'.db.runs
            && (s'.db.runs[run].stage != s.db.runs[run].stage <==>
                  a.ResumeActs? && a.h in s.resumes && s.resumes[a.h].run == run &&
                  Unsettles(s.db, s.resumes[a.h], a.fault))
  {
    hide After, ChatStep, ResumeStep, DbOk;
    var s := After(actions);
    InvAlways(actions);
    FencedInvAlways(actions);
    if a.ChatActs? && a.h in s.chats {
      var c := s.chats[a.h];
      if c.run == run && Live(c) {
        assert ChatAhead(s.db, c);
        LiveStagesAreNotTerminal(s.db, s.log, c);
      }
      ChatStepStage(s.db, c, s.now, a.fault, a.model, run);
    } else if a.ResumeActs? && a.h in s.resumes {
      ResumeStepStage(s.db, s.resumes[a.h], s.now, a.fault, run);
      if s.db.runs[run].stage == Completed && s.resumes[a.h].run == run {
        NoMarkOverCompleted(s, a, run);
      }
    } else if !a.ChatActs? && !a.ResumeActs? {
      OtherStepStage(s, a, run);
    }
  }
}
