/** The stages of a chat run, the legal moves between them and what recovery does at each. */
module RunStages {

  datatype RunStage =
    | Created
    | ContextLoaded
    | ModelRunning
    | ResponseReady
    | ResponsePersisted
    | Completed
    | Failed

  datatype RecoveryAction = CompletePersistedTail | RetryNewRun | ManualReview | NoOp

  function AllowedTransitions(stage: RunStage): set<RunStage> {
    match stage
    case Created => {ContextLoaded, Failed}
    case ContextLoaded => {ModelRunning, Failed}
    case ModelRunning => {ResponseReady, Failed}
    case ResponseReady => {ResponsePersisted, Failed}
    case ResponsePersisted => {Completed, Failed}
    case Completed => {}
    case Failed => {}
  }

  predicate Legal(from: RunStage, to: RunStage) {
    to in AllowedTransitions(from)
  }

  function ActionFor(stage: RunStage): RecoveryAction {
    if stage in {ResponseReady, ResponsePersisted} then CompletePersistedTail
    else if stage in {Created, ContextLoaded} then RetryNewRun
    else if stage == ModelRunning then ManualReview
    else NoOp
  }

  /** How far along a stage is; both terminal stages are last. */
  function Rank(stage: RunStage): nat {
    match stage
    case Created => 0
    case ContextLoaded => 1
    case ModelRunning => 2
    case ResponseReady => 3
    case ResponsePersisted => 4
    case Completed => 5
    case Failed => 5
  }

  /** A handler's own record of its stage. */
  class RunState {
    var stage: RunStage

    constructor ()
      ensures stage == Created
    {
      stage := Created;
    }

    /** Moves on a legal transition; otherwise reports the error and stays. */
    method Transition(next: RunStage) returns (ok: bool)
      modifies this
      ensures ok <==> Legal(old(stage), next)
      ensures stage == if ok then next else old(stage)
    {
      if next !in AllowedTransitions(stage) {
        return false;
      }
      stage := next;
      ok := true;
    }
  }

  /** Each element legally follows the one before it. */
  ghost predicate LegalPath(path: seq<RunStage>) {
    forall i :: 0 < i < |path| ==> Legal(path[i - 1], path[i])
  }

  /** The one way to complete. */
  const HAPPY_PATH := [Created, ContextLoaded, ModelRunning, ResponseReady, ResponsePersisted, Completed]

  /** Before its last stage a legal path from Created has followed the happy path, so it is short,
      it cannot complete without passing every stage, and nothing follows a terminal stage. */
  lemma {:induction false} PathsFollowTheLine(path: seq<RunStage>)
    requires LegalPath(path) && path != [] && path[0] == Created
    ensures |path| <= 6
    ensures path[..|path| - 1] == HAPPY_PATH[..|path| - 1]
    ensures path[|path| - 1] in {HAPPY_PATH[|path| - 1], Failed}
    ensures path[|path| - 1] == Completed <==> path == HAPPY_PATH
  {
    if |path| > 1 {
      var front := path[..|path| - 1];
      PathsFollowTheLine(front);
      assert Legal(path[|path| - 2], path[|path| - 1]);
      assert front == front[..|front| - 1] + [front[|front| - 1]];
    }
  }
}
