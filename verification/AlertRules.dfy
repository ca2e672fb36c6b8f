/** The deployed alert rules: what they read from the metrics, and what monitoring with them leaves behind. */
module AlertRules {
  import opened Common
  import opened Alerts

  datatype Policy = Policy(minimumSampleSize: nat, warning: real, critical: real, cooldown: int)

  datatype Metrics = Metrics(totalRuns: nat, failedRuns: nat, orphanedRuns: nat, leaseExpirations: nat,
                             recoveryFailures: nat)

  /** One look at the system. */
  datatype Round = Round(metrics: Metrics, serviceHealthy: bool, auditHealthy: bool)

  const RULES: seq<Rule> :=
    ["service_health", "audit_integrity", "orphan_lease_anomaly", "recovery_failure", "failure_rate"]

  function PolicyOf(rule: Rule): Policy {
    if rule == "orphan_lease_anomaly" then Policy(1, 1.0, 3.0, 900)
    else if rule == "recovery_failure" then Policy(1, 1.0, 2.0, 900)
    else if rule == "failure_rate" then Policy(5, 0.40, 0.75, 1800)
    else Policy(1, 1.0, 1.0, 900)
  }

  function FailureRate(m: Metrics): real {
    if m.totalRuns == 0 then 0.0 else (m.failedRuns as real) / (m.totalRuns as real)
  }

  /** The value a rule looks at and the size of its sample. */
  function Reading(rule: Rule, r: Round): (real, nat) {
    var m := r.metrics;
    if rule == "service_health" then (if r.serviceHealthy then 0.0 else 1.0, 1)
    else if rule == "audit_integrity" then (if r.auditHealthy then 0.0 else 1.0, 1)
    else if rule == "orphan_lease_anomaly" then
      var count: nat := Max(m.orphanedRuns, m.leaseExpirations);
      (count as real, count)
    else if rule == "recovery_failure" then (m.recoveryFailures as real, m.recoveryFailures)
    else (FailureRate(m), m.totalRuns)
  }

  /** One rule's evaluation; `evidence` renders the readings behind it. */
  function Evaluate(rule: Rule, r: Round, evidence: (Rule, Round) -> string): Evaluation {
    var (value, size) := Reading(rule, r);
    var p := PolicyOf(rule);
    Evaluation(rule, SeverityForValue(value, p.minimumSampleSize, size, p.warning, p.critical), value, size,
               evidence(rule, r), p.cooldown)
  }

  function EvaluateAll(rules: seq<Rule>, r: Round, evidence: (Rule, Round) -> string): (es: seq<Evaluation>)
    ensures |es| == |rules|
    ensures forall i :: 0 <= i < |rules| ==> es[i] == Evaluate(rules[i], r, evidence)
  {
    seq(|rules|, i requires 0 <= i < |rules| => Evaluate(rules[i], r, evidence))
  }

  method EvaluateRuntimeRules(r: Round, evidence: (Rule, Round) -> string) returns (evaluations: seq<Evaluation>)
    ensures evaluations == EvaluateAll(RULES, r, evidence)
  {
    hide SeverityForValue, PolicyOf, Reading;
    evaluations := [];
    for i := 0 to |RULES|
      invariant |evaluations| == i
      invariant forall j :: 0 <= j < i ==> evaluations[j] == Evaluate(RULES[j], r, evidence)
    {
      var (value, size) := Reading(RULES[i], r);
      var policy := PolicyOf(RULES[i]);
      var severity := SeverityForValue(value, policy.minimumSampleSize, size, policy.warning, policy.critical);
      evaluations := evaluations +
        [Evaluation(RULES[i], severity, value, size, evidence(RULES[i], r), policy.cooldown)];
    }
  }

  lemma RateAtLeast(failed: nat, total: nat, numerator: nat, denominator: nat)
    requires total > 0 && denominator > 0
    ensures (failed as real) / (total as real) >= (numerator as real) / (denominator as real) <==>
            failed * denominator >= numerator * total
  {
    var f, t, n, d := failed as real, total as real, numerator as real, denominator as real;
    assert (failed * denominator) as real == f * d && (numerator * total) as real == n * t;
    assert (f / t) * (t * d) == f * d && (n / d) * (t * d) == n * t;
    if f / t >= n / d {
      assert (f / t) * (t * d) >= (n / d) * (t * d);
    } else {
      assert (f / t) * (t * d) < (n / d) * (t * d);
    }
  }

  /** The failure rule in whole numbers: silent below five runs, then critical from three failures in four and
      warning from two in five. */
  lemma FailureRuleExactly(r: Round, evidence: (Rule, Round) -> string)
    ensures var severity, m := Evaluate("failure_rate", r, evidence).severity, r.metrics;
            && (severity == Critical <==> m.totalRuns >= 5 && 4 * m.failedRuns >= 3 * m.totalRuns)
            && (severity == Healthy <==> m.totalRuns < 5 || 5 * m.failedRuns < 2 * m.totalRuns)
  {
    var m := r.metrics;
    if m.totalRuns >= 5 {
      RateAtLeast(m.failedRuns, m.totalRuns, 3, 4);
      RateAtLeast(m.failedRuns, m.totalRuns, 2, 5);
    }
  }

  /** The rules with one threshold never warn: they are critical exactly when what they watch is unhealthy. */
  lemma BinaryRulesExactly(r: Round, evidence: (Rule, Round) -> string)
    ensures Evaluate("service_health", r, evidence).severity == (if r.serviceHealthy then Healthy else Critical)
    ensures Evaluate("audit_integrity", r, evidence).severity == (if r.auditHealthy then Healthy else Critical)
  {
  }

  /** The counting rules: warning from the first lost run or lease, critical from the third; warning from the first
      failed recovery, critical from the second. */
  lemma CountingRulesExactly(r: Round, evidence: (Rule, Round) -> string)
    ensures var severity, m := Evaluate("orphan_lease_anomaly", r, evidence).severity, r.metrics;
            && (severity == Critical <==> m.orphanedRuns >= 3 || m.leaseExpirations >= 3)
            && (severity == Healthy <==> m.orphanedRuns == 0 && m.leaseExpirations == 0)
    ensures var severity, m := Evaluate("recovery_failure", r, evidence).severity, r.metrics;
            (severity == Critical <==> m.recoveryFailures >= 2) && (severity == Healthy <==> m.recoveryFailures == 0)
  {
  }

  /** What a rule reports beside its severity: the two health flags as 0 or 1 over one sample, the counts over
      themselves, the failure rate over all runs, zero without runs; and 1800 seconds of cooldown for the rate, 900 for
      every other rule. */
  lemma ReportsExactly(r: Round, evidence: (Rule, Round) -> string, rule: Rule)
    requires rule in RULES
    ensures var e, m := Evaluate(rule, r, evidence), r.metrics;
            && e.rule == rule && e.evidence == evidence(rule, r)
            && e.cooldown == (if rule == "failure_rate" then 1800 else 900)
            && (rule == "service_health" ==> e.sampleSize == 1 && e.value == if r.serviceHealthy then 0.0 else 1.0)
            && (rule == "audit_integrity" ==> e.sampleSize == 1 && e.value == if r.auditHealthy then 0.0 else 1.0)
            && (rule == "orphan_lease_anomaly" ==>
                  && e.value == e.sampleSize as real && e.sampleSize in {m.orphanedRuns, m.leaseExpirations}
                  && m.orphanedRuns <= e.sampleSize && m.leaseExpirations <= e.sampleSize)
            && (rule == "recovery_failure" ==> e.value == e.sampleSize as real && e.sampleSize == m.recoveryFailures)
            && (rule == "failure_rate" ==>
                  && e.sampleSize == m.totalRuns
                  && (if m.totalRuns == 0 then e.value == 0.0
                      else e.value * (m.totalRuns as real) == m.failedRuns as real))
  {
    hide SeverityForValue;
  }

  // ---- Monitoring

  /** A round with the moment at which each of its evaluations is persisted. */
  datatype Look = Look(round: Round, times: seq<int>)

  function Stamp(look: Look, evidence: (Rule, Round) -> string): seq<Timed>
    requires |look.times| == |RULES|
  {
    seq(|RULES|, i requires 0 <= i < |RULES| => Timed(look.times[i], Evaluate(RULES[i], look.round, evidence)))
  }

  predicate Timestamped(looks: seq<Look>) {
    forall k :: 0 <= k < |looks| ==> |looks[k].times| == |RULES|
  }

  /** Everything persisted by a series of rounds. */
  function Persisted(looks: seq<Look>, evidence: (Rule, Round) -> string): seq<Timed>
    requires Timestamped(looks)
  {
    if looks == [] then []
    else Persisted(looks[..|looks| - 1], evidence) + Stamp(looks[|looks| - 1], evidence)
  }

  predicate ByPolicy(t: Timed) {
    t.evaluation.cooldown == PolicyOf(t.evaluation.rule).cooldown
  }

  lemma {:induction false} EverythingIsByPolicy(looks: seq<Look>, evidence: (Rule, Round) -> string)
    requires Timestamped(looks)
    ensures forall t :: t in Persisted(looks, evidence) ==> ByPolicy(t)
    ensures looks != [] ==> Persisted(looks, evidence) != []
  {
    hide PolicyOf, Reading, SeverityForValue;
    if looks != [] {
      EverythingIsByPolicy(looks[..|looks| - 1], evidence);
    }
  }

  lemma CooldownIsPositive(rule: Rule)
    ensures PolicyOf(rule).cooldown > 0
  {
  }

  /** Whatever the metrics do, monitoring on a non-decreasing clock, read anew for each evaluation, leaves every rule's
      events well bracketed, its counters right, and a full policy cooldown behind each suppression. */
  lemma {:induction false} MonitoringStaysInOrder(looks: seq<Look>, evidence: (Rule, Round) -> string, rule: Rule)
    requires Timestamped(looks) && looks != [] && Clocked(Persisted(looks, evidence))
    ensures var ts := Persisted(looks, evidence);
            var db := PersistAll(EMPTY_DB, ts);
            ts != [] &&
            RuleOk(Trail(db.audit, rule), Lookup(db, rule), PolicyOf(rule).cooldown, ts[|ts| - 1].now)
  {
    hide RuleOk, PersistAll, Trail, Persisted, Clocked, PolicyOf, Timestamped, Lookup;
    var ts := Persisted(looks, evidence);
    CooldownIsPositive(rule);
    EverythingIsByPolicy(looks, evidence);
    forall i | 0 <= i < |ts| && ts[i].evaluation.rule == rule
      ensures ts[i].evaluation.cooldown == PolicyOf(rule).cooldown
    {
      assert ts[i] in ts;
      assert ByPolicy(ts[i]);
    }
    RulesStayInOrder(ts, rule, PolicyOf(rule).cooldown);
  }
}
