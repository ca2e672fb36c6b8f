/** Owner authentication with its in-memory failure backoff, on exact real time. */
module AuthBackoff {
  const BASE_SECONDS := 1.0
  const MAX_SECONDS := 60.0
  const RESET_SECONDS := 900.0

  datatype Entry = Entry(failures: nat, lastFailure: real)

  /** One request: the clock is read twice while checking the throttle and once when recording. */
  datatype Attempt = Attempt(key: string, checked: real, measured: real, recorded: real, tokenOk: bool)

  datatype Verdict = Throttled | Unauthenticated | Authenticated

  function Pow2(n: nat): nat {
    if n == 0 then 1 else 2 * Pow2(n - 1)
  }

  function Delay(failures: nat): real
    requires failures >= 1
  {
    var grown := BASE_SECONDS * (Pow2(failures - 1) as real);
    if grown <= MAX_SECONDS then grown else MAX_SECONDS
  }

  predicate Expired(e: Entry, now: real) {
    now - e.lastFailure > RESET_SECONDS
  }

  /** Must the client still wait? */
  predicate MustWait(failed: map<string, Entry>, a: Attempt)
    requires a.key in failed ==> failed[a.key].failures >= 1
  {
    a.key in failed && !Expired(failed[a.key], a.checked) &&
    Delay(failed[a.key].failures) - (a.measured - failed[a.key].lastFailure) > 0.0
  }

  ghost predicate Counted(failed: map<string, Entry>) {
    forall key :: key in failed ==> failed[key].failures >= 1
  }

  /** The whole decision: throttled clients are refused before their token is looked at. */
  function Authorize(failed: map<string, Entry>, a: Attempt): (map<string, Entry>, Verdict)
    requires a.key in failed ==> failed[a.key].failures >= 1
  {
    if MustWait(failed, a) then (failed, Throttled)
    else if a.tokenOk then (failed - {a.key}, Authenticated)
    else
      var failures := if a.key in failed && !Expired(failed[a.key], a.checked) then failed[a.key].failures else 0;
      (failed[a.key := Entry(failures + 1, a.recorded)], Unauthenticated)
  }

  class AuthThrottle {
    var failed: map<string, Entry>

    constructor ()
      ensures failed == map[]
    {
      failed := map[];
    }

    /** Drops an entry whose failures are forgotten; otherwise reports how long to wait. */
    method ThrottleDelay(key: string, now: real, measured: real) returns (delay: real)
      requires Counted(failed)
      modifies this
      ensures Counted(failed)
      ensures failed == if key in old(failed) && Expired(old(failed)[key], now) then old(failed) - {key} else old(failed)
      ensures delay > 0.0 <==> MustWait(old(failed), Attempt(key, now, measured, measured, false))
      ensures delay > 0.0 ==> delay == Delay(failed[key].failures) - (measured - failed[key].lastFailure)
      ensures delay >= 0.0
    {
      if key !in failed {
        return 0.0;
      }
      var entry := failed[key];
      if now - entry.lastFailure > RESET_SECONDS {
        failed := failed - {key};
        return 0.0;
      }
      var remaining := Delay(entry.failures) - (measured - entry.lastFailure);
      delay := if remaining > 0.0 then remaining else 0.0;
    }

    method RecordFailure(key: string, now: real)
      modifies this
      ensures failed == old(failed)[key := Entry((if key in old(failed) then old(failed)[key].failures else 0) + 1, now)]
    {
      var failures := if key in failed then failed[key].failures else 0;
      failed := failed[key := Entry(failures + 1, now)];
    }

    method ClearFailures(key: string)
      modifies this
      ensures failed == old(failed) - {key}
    {
      failed := failed - {key};
    }

    method AuthorizeOwner(a: Attempt) returns (verdict: Verdict)
      requires Counted(failed)
      modifies this
      ensures Counted(failed)
      ensures (failed, verdict) == Authorize(old(failed), a)
    {
      ghost var before := failed;
      var delay := ThrottleDelay(a.key, a.checked, a.measured);
      assert delay > 0.0 <==> MustWait(before, a);
      if delay > 0.0 {
        return Throttled;
      }
      if !a.tokenOk {
        RecordFailure(a.key, a.recorded);
        assert failed == Authorize(before, a).0;
        return Unauthenticated;
      }
      ClearFailures(a.key);
      assert failed == before - {a.key};
      verdict := Authenticated;
    }
  }

  // ---- Runs of requests on one process

  ghost predicate InOrder(a: Attempt) {
    a.checked <= a.measured <= a.recorded
  }

  /** A monotonic clock: requests of one process do not overlap between check and record. */
  ghost predicate Clocked(trace: seq<Attempt>) {
    && (forall i :: 0 <= i < |trace| ==> InOrder(trace[i]))
    && forall i, j :: 0 <= i < j < |trace| ==> trace[i].recorded <= trace[j].checked
  }

  function After(trace: seq<Attempt>): (failed: map<string, Entry>)
    ensures forall key :: key in failed ==> failed[key].failures >= 1
  {
    if trace == [] then map[] else Authorize(After(trace[..|trace| - 1]), trace[|trace| - 1]).0
  }

  /** The verdict the last request of a trace gets. */
  function LastVerdict(trace: seq<Attempt>): Verdict
    requires trace != []
  {
    Authorize(After(trace[..|trace| - 1]), trace[|trace| - 1]).1
  }

  /** When one client's processed failures happened. */
  function Failures(trace: seq<Attempt>, key: string): seq<real> {
    if trace == [] then []
    else
      var front, a := Failures(trace[..|trace| - 1], key), trace[|trace| - 1];
      if a.key == key && LastVerdict(trace) == Unauthenticated then front + [a.recorded] else front
  }

  function VerdictAt(trace: seq<Attempt>, i: nat): Verdict
    requires i < |trace|
  {
    LastVerdict(trace[..i + 1])
  }

  ghost predicate NeverSucceeds(trace: seq<Attempt>, key: string) {
    forall i :: 0 <= i < |trace| && trace[i].key == key ==> VerdictAt(trace, i) != Authenticated
  }

  lemma VerdictsOfPrefix(trace: seq<Attempt>, i: nat)
    requires i < |trace| - 1
    ensures VerdictAt(trace[..|trace| - 1], i) == VerdictAt(trace, i)
  {
    assert trace[..|trace| - 1][..i + 1] == trace[..i + 1];
  }

  lemma PrefixNeverSucceeds(trace: seq<Attempt>, key: string)
    requires trace != []
    ensures NeverSucceeds(trace, key) <==>
              && NeverSucceeds(trace[..|trace| - 1], key)
              && (trace[|trace| - 1].key == key ==> LastVerdict(trace) != Authenticated)
  {
    var front := trace[..|trace| - 1];
    assert VerdictAt(trace, |trace| - 1) == LastVerdict(trace) by {
      assert trace[..|trace|] == trace;
    }
    hide VerdictAt, LastVerdict, After;
    forall i | 0 <= i < |front| ensures VerdictAt(front, i) == VerdictAt(trace, i) && front[i] == trace[i] {
      VerdictsOfPrefix(trace, i);
    }
  }

  /** How far the first failures - 1 delays fall short of a minute each. */
  function Shortfall(failures: nat): real {
    if failures <= 1 then 0.0 else Shortfall(failures - 1) + (MAX_SECONDS - Delay(failures - 1))
  }

  lemma {:induction false} Pow2Grows(n: nat)
    ensures Pow2(n) >= 1
    ensures n >= 6 ==> Pow2(n) >= 64
  {
    if n == 6 {
      assert Pow2(6) == 64;
    } else if n > 0 {
      Pow2Grows(n - 1);
    }
  }

  /** The delays are 1, 2, 4, 8, 16, 32 and then a minute, so together they never fall short by more
      than 297 seconds. */
  lemma {:induction false} ShortfallBound(failures: nat)
    ensures 0.0 <= Shortfall(failures) <= 297.0
    ensures failures >= 7 ==> Shortfall(failures) == 297.0
  {
    if failures == 7 {
      assert Pow2(0) == 1 && Pow2(1) == 2 && Pow2(2) == 4 && Pow2(3) == 8 && Pow2(4) == 16 && Pow2(5) == 32;
      assert Shortfall(2) == 59.0 && Shortfall(3) == 117.0 && Shortfall(4) == 173.0;
      assert Shortfall(5) == 225.0 && Shortfall(6) == 269.0;
    } else if failures > 7 {
      ShortfallBound(failures - 1);
      Pow2Grows(failures - 2);
    } else if failures > 1 {
      ShortfallSmall(failures);
    }
  }

  lemma ShortfallSmall(failures: nat)
    requires 1 < failures < 7
    ensures 0.0 <= Shortfall(failures) <= 297.0
  {
    assert Pow2(0) == 1 && Pow2(1) == 2 && Pow2(2) == 4 && Pow2(3) == 8 && Pow2(4) == 16;
    assert Shortfall(2) == 59.0 && Shortfall(3) == 117.0 && Shortfall(4) == 173.0;
    assert Shortfall(5) == 225.0 && Shortfall(6) == 269.0;
  }

  /** The potential argument: the current count pays for the minutes not yet waited. */
  ghost predicate Paid(times: seq<real>, failed: map<string, Entry>, key: string) {
    if times == [] then key !in failed
    else
      && key in failed && failed[key].failures >= 1 && failed[key].lastFailure == times[|times| - 1]
      && 60.0 * (|times| as real) <= times[|times| - 1] - times[0] + 60.0 + Shortfall(failed[key].failures)
  }

  lemma StepKeepsPaid(times: seq<real>, failed: map<string, Entry>, a: Attempt)
    requires Paid(times, failed, a.key) && InOrder(a)
    requires Authorize(failed, a).1 != Authenticated
    ensures var (failed', verdict) := Authorize(failed, a);
            Paid(if verdict == Unauthenticated then times + [a.recorded] else times, failed', a.key)
  {
    if times != [] && !MustWait(failed, a) {
      ShortfallBound(failed[a.key].failures);
    }
  }

  lemma {:induction false} AlwaysPaid(trace: seq<Attempt>, key: string)
    requires Clocked(trace) && NeverSucceeds(trace, key)
    ensures Paid(Failures(trace, key), After(trace), key)
  {
    if trace != [] {
      var front, a := trace[..|trace| - 1], trace[|trace| - 1];
      PrefixNeverSucceeds(trace, key);
      AlwaysPaid(front, key);
      if a.key == key {
        StepKeepsPaid(Failures(front, key), After(front), a);
      }
    }
  }

  /** Over any run in which a client never logs in, n processed failures take so long that
      60 n <= T + 357, whatever resets happen in between. */
  lemma AmortisedBackoffBound(trace: seq<Attempt>, key: string)
    requires Clocked(trace) && NeverSucceeds(trace, key) && Failures(trace, key) != []
    ensures var times := Failures(trace, key);
            60.0 * (|times| as real) <= times[|times| - 1] - times[0] + 357.0
  {
    AlwaysPaid(trace, key);
    ShortfallBound(After(trace)[key].failures);
  }

  // ---- The bound is reached

  function TimeOf(n: nat): real
    requires n >= 1
  {
    if n == 1 then 0.0 else TimeOf(n - 1) + Delay(n - 1)
  }

  /** The fastest possible guessing: each wrong token comes at the first allowed moment. */
  function Hurried(key: string, n: nat): (trace: seq<Attempt>)
    ensures |trace| == n
  {
    if n == 0 then []
    else Hurried(key, n - 1) + [HurriedAttempt(key, n)]
  }

  lemma {:induction false} TimeIsMinutesLessShortfall(n: nat)
    requires n >= 1
    ensures TimeOf(n) == 60.0 * ((n - 1) as real) - Shortfall(n)
  {
    if n > 1 {
      TimeIsMinutesLessShortfall(n - 1);
    }
  }

  /** After n hurried attempts all n were processed and the last is the one on record. */
  ghost predicate AllProcessed(trace: seq<Attempt>, key: string, n: nat) {
    && |trace| == n && Clocked(trace) && NeverSucceeds(trace, key) && |Failures(trace, key)| == n
    && (n >= 1 ==>
          && Failures(trace, key)[0] == 0.0 && Failures(trace, key)[n - 1] == TimeOf(n)
          && After(trace) == map[key := Entry(n, TimeOf(n))]
          && trace[n - 1].recorded == TimeOf(n))
  }

  function HurriedAttempt(key: string, n: nat): Attempt
    requires n >= 1
  {
    Attempt(key, TimeOf(n), TimeOf(n), TimeOf(n), false)
  }

  lemma HurriedVerdict(failed: map<string, Entry>, key: string, n: nat)
    requires failed == if n == 0 then map[] else map[key := Entry(n, TimeOf(n))]
    ensures Authorize(failed, HurriedAttempt(key, n + 1)) == (map[key := Entry(n + 1, TimeOf(n + 1))], Unauthenticated)
    ensures n >= 1 ==> TimeOf(n) <= TimeOf(n + 1)
  {
    var a := HurriedAttempt(key, n + 1);
    if n >= 1 {
      Pow2Grows(n - 1);
      assert 0.0 <= Delay(n) <= 60.0 && TimeOf(n + 1) == TimeOf(n) + Delay(n);
      assert !MustWait(failed, a) && !Expired(failed[key], a.checked);
    }
    assert Authorize(failed, a).0 == failed[key := Entry(n + 1, TimeOf(n + 1))];
    assert failed[key := Entry(n + 1, TimeOf(n + 1))] == map[key := Entry(n + 1, TimeOf(n + 1))];
  }

  lemma NextIsProcessed(front: seq<Attempt>, key: string, n: nat)
    requires AllProcessed(front, key, n)
    ensures AllProcessed(front + [HurriedAttempt(key, n + 1)], key, n + 1)
  {
    hide NeverSucceeds, Clocked, Authorize, TimeOf, Delay;
    var a := HurriedAttempt(key, n + 1);
    var trace := front + [a];
    assert trace[..n] == front;
    HurriedVerdict(After(front), key, n);
    PrefixNeverSucceeds(trace, key);
    ExtendClocked(front, a);
    if n == 0 {
      FirstIsAtZero();
    }
  }

  lemma FirstIsAtZero()
    ensures TimeOf(1) == 0.0
  {
  }

  lemma ExtendClocked(front: seq<Attempt>, a: Attempt)
    requires Clocked(front) && InOrder(a)
    requires front != [] ==> front[|front| - 1].recorded <= a.checked
    ensures Clocked(front + [a])
  {
    forall i | 0 <= i < |front| ensures front[i].recorded <= a.checked {
      if i < |front| - 1 {
        assert front[i].recorded <= front[|front| - 1].checked && InOrder(front[|front| - 1]);
      }
    }
  }

  lemma {:induction false} HurriedIsProcessed(key: string, n: nat)
    ensures AllProcessed(Hurried(key, n), key, n)
  {
    if n == 0 {
      NothingProcessed(key);
    } else {
      hide AllProcessed;
      HurriedIsProcessed(key, n - 1);
      NextIsProcessed(Hurried(key, n - 1), key, n - 1);
    }
  }

  lemma NothingProcessed(key: string)
    ensures AllProcessed([], key, 0)
  {
  }

  /** For every n from 7 up some run meets the bound with equality. */
  lemma BoundIsTight(key: string, n: nat)
    requires n >= 7
    ensures var trace := Hurried(key, n);
            && Clocked(trace) && NeverSucceeds(trace, key)
            && var times := Failures(trace, key);
               |times| == n && 60.0 * (n as real) == times[n - 1] - times[0] + 357.0
  {
    HurriedIsProcessed(key, n);
    TimeIsMinutesLessShortfall(n);
    ShortfallBound(n);
  }

  /** Clients do not affect each other, and a throttled client is refused even with the right token. */
  lemma KeysAreIndependent(failed: map<string, Entry>, a: Attempt, other: string)
    requires Counted(failed) && other != a.key
    ensures var failed' := Authorize(failed, a).0;
            && (other in failed' <==> other in failed) && (other in failed ==> failed'[other] == failed[other])
    ensures MustWait(failed, a) ==> Authorize(failed, a.(tokenOk := true)) == (failed, Throttled)
  {
  }
}
