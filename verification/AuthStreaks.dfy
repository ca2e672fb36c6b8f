/** What the failure count of a client means over whole runs of requests: how many times in a row it failed since its
    last login or since its failures were forgotten. */
module AuthStreaks {
  import opened AuthBackoff

  /** The client's request at `i` was answered with this verdict. */
  predicate Got(trace: seq<Attempt>, i: nat, key: string, verdict: Verdict)
    requires i < |trace|
  {
    trace[i].key == key && VerdictAt(trace, i) == verdict
  }

  /** The client's failures from request `cut` on. */
  function FailuresFrom(trace: seq<Attempt>, cut: nat, key: string): nat {
    if |trace| <= cut then 0
    else
      FailuresFrom(trace[..|trace| - 1], cut, key) + if Got(trace, |trace| - 1, key, Unauthenticated) then 1 else 0
  }

  /** The client's streak begins with a failure at `cut`, before which it had no failures on record or only ones more
      than 900 seconds old, and no login has come since. */
  ghost predicate StreakFrom(trace: seq<Attempt>, cut: nat, key: string)
    requires cut < |trace|
  {
    && Got(trace, cut, key, Unauthenticated)
    && (var failed := After(trace[..cut]);
        key in failed ==> trace[cut].checked - failed[key].lastFailure > 900.0)
    && forall i :: cut <= i < |trace| ==> !Got(trace, i, key, Authenticated)
  }

  /** The last failure of the client is the one at `i`. */
  ghost predicate LastFailureAt(trace: seq<Attempt>, i: nat, key: string)
    requires i < |trace|
  {
    Got(trace, i, key, Unauthenticated) && forall j :: i < j < |trace| ==> !Got(trace, j, key, Unauthenticated)
  }

  lemma GotInFront(trace: seq<Attempt>, i: nat, key: string, verdict: Verdict)
    requires i < |trace| - 1
    ensures Got(trace[..|trace| - 1], i, key, verdict) <==> Got(trace, i, key, verdict)
  {
    VerdictsOfPrefix(trace, i);
  }

  lemma GotLast(trace: seq<Attempt>, key: string, verdict: Verdict)
    requires trace != []
    ensures Got(trace, |trace| - 1, key, verdict) <==> trace[|trace| - 1].key == key && LastVerdict(trace) == verdict
  {
    assert trace[..|trace|] == trace;
  }

  lemma StreakGoesOn(trace: seq<Attempt>, cut: nat, key: string)
    requires cut < |trace| - 1 && StreakFrom(trace[..|trace| - 1], cut, key)
    requires !Got(trace, |trace| - 1, key, Authenticated)
    ensures StreakFrom(trace, cut, key)
  {
    hide Got, After;
    var front := trace[..|trace| - 1];
    assert front[..cut] == trace[..cut];
    GotInFront(trace, cut, key, Unauthenticated);
    forall i | cut <= i < |trace| ensures !Got(trace, i, key, Authenticated) {
      if i < |front| {
        GotInFront(trace, i, key, Authenticated);
      }
    }
  }

  lemma LastFailureStays(trace: seq<Attempt>, i: nat, key: string)
    requires i < |trace| - 1 && LastFailureAt(trace[..|trace| - 1], i, key)
    requires !Got(trace, |trace| - 1, key, Unauthenticated)
    ensures LastFailureAt(trace, i, key)
  {
    hide Got;
    GotInFront(trace, i, key, Unauthenticated);
    forall j | i < j < |trace| ensures !Got(trace, j, key, Unauthenticated) {
      if j < |trace| - 1 {
        GotInFront(trace, j, key, Unauthenticated);
      }
    }
  }

  /** A record is the client's current streak: it counts its failures and keeps the time of the last. */
  ghost predicate Counts(trace: seq<Attempt>, key: string, e: Entry) {
    exists cut, last ::
      && 0 <= cut <= last < |trace| && StreakFrom(trace, cut, key) && LastFailureAt(trace, last, key)
      && e == Entry(FailuresFrom(trace, cut, key), trace[last].recorded)
  }

  /** Without a record the client has not failed since its last login. */
  ghost predicate Forgiven(trace: seq<Attempt>, key: string) {
    forall i :: 0 <= i < |trace| && Got(trace, i, key, Unauthenticated) ==>
      exists j :: i < j < |trace| && Got(trace, j, key, Authenticated)
  }

  lemma {:induction false} NoFailuresYet(trace: seq<Attempt>, cut: nat, key: string)
    requires |trace| <= cut
    ensures FailuresFrom(trace, cut, key) == 0
  {
  }

  lemma CountsNext(trace: seq<Attempt>, key: string, e: Entry)
    requires trace != [] && Counts(trace[..|trace| - 1], key, e)
    requires !Got(trace, |trace| - 1, key, Authenticated)
    ensures if !Got(trace, |trace| - 1, key, Unauthenticated) then Counts(trace, key, e)
            else Counts(trace, key, Entry(e.failures + 1, trace[|trace| - 1].recorded))
  {
    hide Got, StreakFrom, LastFailureAt;
    var front := trace[..|trace| - 1];
    var cut, last :| 0 <= cut <= last < |front| && StreakFrom(front, cut, key) && LastFailureAt(front, last, key) &&
                     e == Entry(FailuresFrom(front, cut, key), front[last].recorded);
    StreakGoesOn(trace, cut, key);
    if Got(trace, |front|, key, Unauthenticated) {
      assert LastFailureAt(trace, |front|, key) by { FailsLast(trace, key); }
      assert StreakFrom(trace, cut, key) && 0 <= cut <= |front| < |trace|;
    } else {
      LastFailureStays(trace, last, key);
      assert StreakFrom(trace, cut, key) && 0 <= cut <= last < |trace|;
    }
  }

  lemma FailsLast(trace: seq<Attempt>, key: string)
    requires trace != [] && Got(trace, |trace| - 1, key, Unauthenticated)
    ensures LastFailureAt(trace, |trace| - 1, key)
  {
  }

  /** A failure with no failures in force before it starts a streak of one. */
  lemma StreakBegins(trace: seq<Attempt>, key: string)
    requires trace != [] && Got(trace, |trace| - 1, key, Unauthenticated)
    requires var failed := After(trace[..|trace| - 1]);
             key in failed ==> trace[|trace| - 1].checked - failed[key].lastFailure > 900.0
    ensures Counts(trace, key, Entry(1, trace[|trace| - 1].recorded))
  {
    hide After;
    var n := |trace| - 1;
    FailsLast(trace, key);
    NoFailuresYet(trace[..n], n, key);
    assert StreakFrom(trace, n, key) by {
      hide LastFailureAt, FailuresFrom;
    }
    assert FailuresFrom(trace, n, key) == 1;
    assert 0 <= n <= n < |trace| && LastFailureAt(trace, n, key);
  }

  lemma ForgivenNext(trace: seq<Attempt>, key: string)
    requires trace != []
    requires Got(trace, |trace| - 1, key, Authenticated) ||
             (Forgiven(trace[..|trace| - 1], key) && !Got(trace, |trace| - 1, key, Unauthenticated))
    ensures Forgiven(trace, key)
  {
    hide Got;
    var n := |trace| - 1;
    forall i | 0 <= i < |trace| && Got(trace, i, key, Unauthenticated)
      ensures exists j :: i < j < |trace| && Got(trace, j, key, Authenticated)
    {
      OneVerdict(trace, n, key);
      if Got(trace, n, key, Authenticated) {
        assert i < n;
      } else {
        GotInFront(trace, i, key, Unauthenticated);
        var j :| i < j < n && Got(trace[..n], j, key, Authenticated);
        GotInFront(trace, j, key, Authenticated);
      }
    }
  }

  lemma OneVerdict(trace: seq<Attempt>, i: nat, key: string)
    requires i < |trace|
    ensures !(Got(trace, i, key, Authenticated) && Got(trace, i, key, Unauthenticated))
  {
  }

  /** In every run of requests, a client has a record exactly when it has failed since its last login, and the record
      counts its failures since the last login or since its failures were last forgotten. */
  lemma {:induction false} RecordsCountStreaks(trace: seq<Attempt>, key: string)
    ensures key in After(trace) ==> Counts(trace, key, After(trace)[key]) && !Forgiven(trace, key)
    ensures key !in After(trace) ==> Forgiven(trace, key)
  {
    if trace != [] {
      var n := |trace| - 1;
      var front := trace[..n];
      RecordsCountStreaks(front, key);
      StepCounts(trace, key);
    }
    if key in After(trace) {
      CountsAreUnforgiven(trace, key, After(trace)[key]);
    }
  }

  /** What one request does to one client's record. */
  lemma RecordStep(failed: map<string, Entry>, a: Attempt, key: string)
    requires Counted(failed)
    ensures var (failed', verdict) := Authorize(failed, a);
            if a.key == key && verdict == Authenticated then key !in failed'
            else if a.key == key && verdict == Unauthenticated then
              key in failed' &&
              failed'[key] == Entry(if key in failed && a.checked - failed[key].lastFailure <= 900.0
                                    then failed[key].failures + 1 else 1, a.recorded)
            else (key in failed' <==> key in failed) && (key in failed ==> failed'[key] == failed[key])
  {
  }

  lemma StepCounts(trace: seq<Attempt>, key: string)
    requires trace != []
    requires var failed := After(trace[..|trace| - 1]);
             if key in failed then Counts(trace[..|trace| - 1], key, failed[key])
             else Forgiven(trace[..|trace| - 1], key)
    ensures if key in After(trace) then Counts(trace, key, After(trace)[key]) else Forgiven(trace, key)
  {
    var n := |trace| - 1;
    var failed, a := After(trace[..n]), trace[n];
    GotLast(trace, key, Authenticated);
    GotLast(trace, key, Unauthenticated);
    assert After(trace) == Authorize(failed, a).0 && LastVerdict(trace) == Authorize(failed, a).1;
    hide Got, Counts, Forgiven, After, Authorize, LastVerdict;
    RecordStep(failed, a, key);
    if Got(trace, n, key, Authenticated) {
      ForgivenNext(trace, key);
    } else if Got(trace, n, key, Unauthenticated) &&
              (key in failed ==> a.checked - failed[key].lastFailure > 900.0) {
      StreakBegins(trace, key);
    } else if key in failed {
      CountsNext(trace, key, failed[key]);
    } else {
      ForgivenNext(trace, key);
    }
  }

  lemma CountsAreUnforgiven(trace: seq<Attempt>, key: string, e: Entry)
    requires Counts(trace, key, e)
    ensures !Forgiven(trace, key)
  {
    hide Got;
    var cut, last :| 0 <= cut <= last < |trace| && StreakFrom(trace, cut, key) && LastFailureAt(trace, last, key);
    assert Got(trace, cut, key, Unauthenticated);
  }

  /** A login forgets everything: whatever other clients do, the client's next request is let through to its token
      check, and if it fails there, it is its first failure. */
  lemma LoginForgets(trace: seq<Attempt>, others: seq<Attempt>, a: Attempt)
    requires trace != [] && LastVerdict(trace) == Authenticated && trace[|trace| - 1].key == a.key
    requires forall i :: 0 <= i < |others| ==> others[i].key != a.key
    ensures a.key !in After(trace) && a.key !in After(trace + others)
    ensures LastVerdict(trace + others + [a]) == if a.tokenOk then Authenticated else Unauthenticated
    ensures !a.tokenOk ==>
              a.key in After(trace + others + [a]) && After(trace + others + [a])[a.key] == Entry(1, a.recorded)
  {
    OthersLeaveKey(trace, others, a.key);
    assert (trace + others + [a])[..|trace + others|] == trace + others;
  }

  lemma {:induction false} OthersLeaveKey(trace: seq<Attempt>, others: seq<Attempt>, key: string)
    requires forall i :: 0 <= i < |others| ==> others[i].key != key
    ensures key in After(trace + others) <==> key in After(trace)
    ensures key in After(trace) ==> After(trace + others)[key] == After(trace)[key]
  {
    if others == [] {
      assert trace + others == trace;
    } else {
      var front := others[..|others| - 1];
      assert (trace + others)[..|trace + others| - 1] == trace + front;
      OthersLeaveKey(trace, front, key);
    }
  }

  // ---- The wait

  /** Seconds to wait after the n-th failure in a row. */
  function Wait(n: nat): real
    requires n >= 1
  {
    if n <= 6 then [1.0, 2.0, 4.0, 8.0, 16.0, 32.0][n - 1] else 60.0
  }

  lemma DelayIsWait(n: nat)
    requires n >= 1
    ensures Delay(n) == Wait(n)
  {
    if n <= 6 {
      assert Pow2(0) == 1 && Pow2(1) == 2 && Pow2(2) == 4 && Pow2(3) == 8 && Pow2(4) == 16 && Pow2(5) == 32;
    } else {
      Pow2Grows(n - 1);
    }
  }

  /** In every run of requests the next one is refused before its token is looked at exactly when the client's record is
      at most 900 seconds old and the wait after its last failure is not over. */
  lemma ThrottledExactlyWhen(trace: seq<Attempt>, a: Attempt)
    ensures var failed, verdict := After(trace), Authorize(After(trace), a).1;
            && (verdict == Throttled <==>
                  && a.key in failed && a.checked - failed[a.key].lastFailure <= 900.0
                  && a.measured - failed[a.key].lastFailure < Wait(failed[a.key].failures))
            && (verdict == Authenticated <==> verdict != Throttled && a.tokenOk)
  {
    if a.key in After(trace) {
      DelayIsWait(After(trace)[a.key].failures);
    }
  }
}
