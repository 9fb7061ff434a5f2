/** The summary of a mutation-testing run: per-status counts, the mutation score,
    the mutations the tests missed, and the process exit code. */
module Report {
  import opened Runner

  datatype MutationReport = MutationReport(results: seq<MutationResult>, totalDuration: nat)

  function TotalDuration(rs: seq<MutationResult>): nat
    decreases |rs|
  {
    if rs == [] then 0 else rs[0].duration + TotalDuration(rs[1..])
  }

  /** `MutationReport::new`: the results as given, and the sum of their durations. */
  function New(results: seq<MutationResult>): (report: MutationReport)
    ensures report.results == results
  {
    MutationReport(results, TotalDuration(results))
  }

  /** Durations add up in order: one more result adds its duration. */
  lemma {:induction false} TotalDurationSnoc(rs: seq<MutationResult>, r: MutationResult)
    ensures TotalDuration(rs + [r]) == TotalDuration(rs) + r.duration
    decreases |rs|
  {
    if rs != [] {
      assert (rs + [r])[1..] == rs[1..] + [r];
      TotalDurationSnoc(rs[1..], r);
    }
  }

  /** No single run takes longer than the whole. */
  lemma {:induction false} TotalDurationBounds(rs: seq<MutationResult>, i: nat)
    requires i < |rs|
    ensures rs[i].duration <= TotalDuration(rs)
    decreases |rs|
  {
    if i > 0 {
      TotalDurationBounds(rs[1..], i - 1);
    }
  }

  // ---------------------------------------------------------------------------
  // Counts

  /** How many results have a status satisfying `p`. */
  function CountWhere(rs: seq<MutationResult>, p: MutationStatus -> bool): (n: nat)
    ensures n <= |rs|
    decreases |rs|
  {
    if rs == [] then 0 else (if p(rs[0].status) then 1 else 0) + CountWhere(rs[1..], p)
  }

  predicate IsKilled(s: MutationStatus) { s == Killed }
  predicate IsSurvived(s: MutationStatus) { s == Survived }
  predicate IsTimeout(s: MutationStatus) { s == Timeout }
  predicate IsCompileError(s: MutationStatus) { s == CompileError }
  predicate IsConfigError(s: MutationStatus) { s.ConfigError? }

  function KilledCount(report: MutationReport): nat { CountWhere(report.results, IsKilled) }
  function SurvivedCount(report: MutationReport): nat { CountWhere(report.results, IsSurvived) }
  function TimeoutCount(report: MutationReport): nat { CountWhere(report.results, IsTimeout) }
  function CompileErrorCount(report: MutationReport): nat { CountWhere(report.results, IsCompileError) }
  function ConfigErrorCount(report: MutationReport): nat { CountWhere(report.results, IsConfigError) }
  function Total(report: MutationReport): nat { |report.results| }

  lemma {:induction false} CountsPartition(rs: seq<MutationResult>)
    ensures CountWhere(rs, IsKilled) + CountWhere(rs, IsSurvived) + CountWhere(rs, IsTimeout)
          + CountWhere(rs, IsCompileError) + CountWhere(rs, IsConfigError) == |rs|
    decreases |rs|
  {
    if rs != [] {
      CountsPartition(rs[1..]);
    }
  }

  /** Every result has exactly one of the five statuses, so the counts add up to
      the total. */
  lemma CountsAddUpToTotal(report: MutationReport)
    ensures KilledCount(report) + SurvivedCount(report) + TimeoutCount(report) + CompileErrorCount(report)
          + ConfigErrorCount(report) == Total(report)
  {
    CountsPartition(report.results);
  }

  // ---------------------------------------------------------------------------
  // Score

  /** The percentage of killed mutations among those the tests decided (killed or
      survived); 100 when there are none. */
  function Score(report: MutationReport): real {
    var testable := KilledCount(report) + SurvivedCount(report);
    if testable == 0 then 100.0 else (KilledCount(report) as real / testable as real) * 100.0
  }

  /** The score is a percentage; it is 100 exactly when nothing survived and 0
      exactly when something survived and nothing was killed. */
  lemma ScoreBounds(report: MutationReport)
    ensures 0.0 <= Score(report) <= 100.0
    ensures Score(report) == 100.0 <==> SurvivedCount(report) == 0
    ensures Score(report) == 0.0 <==> SurvivedCount(report) > 0 && KilledCount(report) == 0
  {
    var k := KilledCount(report) as real;
    var t := (KilledCount(report) + SurvivedCount(report)) as real;
    if t > 0.0 {
      Fraction(k, t);
    }
  }

  /** A part of a positive whole is a fraction in [0, 1]: all of it exactly when the
      part is the whole, none of it exactly when the part is empty. */
  lemma Fraction(k: real, t: real)
    requires 0.0 <= k <= t && t > 0.0
    ensures 0.0 <= k / t <= 1.0
    ensures k / t == 1.0 <==> k == t
    ensures k / t == 0.0 <==> k == 0.0
  {
    var q := k / t;
    assert q * t == k;
    if q < 1.0 {
      assert (1.0 - q) * t > 0.0;
    }
  }

  lemma {:induction false} CountWhereSnoc(rs: seq<MutationResult>, r: MutationResult,
                                          p: MutationStatus -> bool)
    ensures CountWhere(rs + [r], p) == CountWhere(rs, p) + (if p(r.status) then 1 else 0)
    decreases |rs|
  {
    if rs != [] {
      assert (rs + [r])[1..] == rs[1..] + [r];
      CountWhereSnoc(rs[1..], r, p);
    }
  }

  /** Timeouts, compile errors and configuration errors do not move the score:
      adding such a result leaves it as it was. */
  lemma ScoreIgnoresUndecided(results: seq<MutationResult>, r: MutationResult)
    requires r.status != Killed && r.status != Survived
    ensures Score(New(results + [r])) == Score(New(results))
  {
    CountWhereSnoc(results, r, IsKilled);
    CountWhereSnoc(results, r, IsSurvived);
  }

  // ---------------------------------------------------------------------------
  // Surviving mutations

  function SurvivorsOf(rs: seq<MutationResult>): seq<MutationResult>
    decreases |rs|
  {
    if rs == [] then []
    else (if rs[0].status == Survived then [rs[0]] else []) + SurvivorsOf(rs[1..])
  }

  /** `surviving_mutations`. */
  function SurvivingMutations(report: MutationReport): seq<MutationResult> {
    SurvivorsOf(report.results)
  }

  lemma {:induction false} SurvivorsOfProperties(rs: seq<MutationResult>)
    ensures |SurvivorsOf(rs)| == CountWhere(rs, IsSurvived)
    ensures forall r :: r in SurvivorsOf(rs) <==> r in rs && r.status == Survived
    decreases |rs|
  {
    if rs != [] {
      SurvivorsOfProperties(rs[1..]);
      assert forall r :: r in rs <==> r == rs[0] || r in rs[1..];
    }
  }

  lemma {:induction false} SurvivorsOfSnoc(rs: seq<MutationResult>, r: MutationResult)
    ensures SurvivorsOf(rs + [r]) == SurvivorsOf(rs) + (if r.status == Survived then [r] else [])
    decreases |rs|
  {
    if rs != [] {
      assert (rs + [r])[1..] == rs[1..] + [r];
      SurvivorsOfSnoc(rs[1..], r);
    }
  }

  /** The surviving mutations are exactly the results with status Survived, as many
      as `survived()` counts, kept in the order of the results. */
  lemma SurvivingMutationsExactly(report: MutationReport, r: MutationResult)
    ensures |SurvivingMutations(report)| == SurvivedCount(report)
    ensures r in SurvivingMutations(report) <==> r in report.results && r.status == Survived
    ensures SurvivingMutations(New(report.results + [r]))
         == SurvivingMutations(report) + (if r.status == Survived then [r] else [])
  {
    SurvivorsOfProperties(report.results);
    SurvivorsOfSnoc(report.results, r);
  }

  // ---------------------------------------------------------------------------
  // Exit code

  /** The process exit code after a run: 1 when a mutation survived, else 2 when a
      rule had a configuration error, else 0. */
  function ExitCode(report: MutationReport): nat {
    if SurvivedCount(report) > 0 then 1 else if ConfigErrorCount(report) > 0 then 2 else 0
  }

  lemma {:induction false} CountWhereZero(rs: seq<MutationResult>, p: MutationStatus -> bool)
    ensures CountWhere(rs, p) == 0 <==> forall i | 0 <= i < |rs| :: !p(rs[i].status)
    decreases |rs|
  {
    if rs != [] {
      CountWhereZero(rs[1..], p);
      assert forall i | 1 <= i < |rs| :: rs[i] == rs[1..][i - 1];
    }
  }

  /** The run succeeds exactly when every result was killed, timed out or did not
      compile: timeouts and compile errors alone do not fail it. */
  lemma ExitCodeZero(report: MutationReport)
    ensures ExitCode(report) == 0 <==>
      forall i | 0 <= i < |report.results| ::
        var s := report.results[i].status; s == Killed || s == Timeout || s == CompileError
  {
    CountWhereZero(report.results, IsSurvived);
    CountWhereZero(report.results, IsConfigError);
  }
}
