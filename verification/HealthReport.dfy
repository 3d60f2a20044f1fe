/** The health check's report on one action of a Rally task: what was counted, failed and missing. */
module HealthReport {
  import opened Wrappers

  /** One execution; an action's duration may be null, and an execution without errors has an empty error list. */
  datatype Result = Result(atomic: map<string, Option<real>>, error: seq<string>, duration: real)

  datatype Kind = Missing | Failed | Counted

  /** The action's own entry is null or zero, which Python takes for false. */
  predicate Falsy(d: Option<real>) {
    d.None? || d.value == 0.0
  }

  function KindOf(r: Result, action: string): Kind {
    if r.atomic != map[] && action !in r.atomic then Missing
    else if if r.atomic != map[] then Falsy(r.atomic[action]) else r.error != [] then Failed
    else Counted
  }

  /** What the execution adds to the durations. */
  function Share(r: Result, action: string): real {
    if !KindOf(r, action).Counted? then 0.0
    else if action in r.atomic then r.atomic[action].value else r.duration
  }

  function CountOf(results: seq<Result>, action: string, kind: Kind): nat {
    if results == [] then 0
    else
      CountOf(results[..|results| - 1], action, kind) +
      if KindOf(results[|results| - 1], action) == kind then 1 else 0
  }

  function Sum(data: seq<real>): real {
    if data == [] then 0.0 else Sum(data[..|data| - 1]) + data[|data| - 1]
  }

  /** The errors of the executions that failed, in order. */
  function Details(results: seq<Result>, action: string): seq<seq<string>> {
    if results == [] then []
    else
      var last := results[|results| - 1];
      Details(results[..|results| - 1], action) + if KindOf(last, action).Failed? then [last.error] else []
  }

  const MAXINT := 9223372036854775807.0

  datatype Report =
    | DivisionByZero
    | Report(min: real, avg: real, max: real, success: real,
             errorCount: int, details: seq<seq<string>>, total: int, data: seq<real>)

  function Rest(times: int, results: seq<Result>, action: string): int {
    times - CountOf(results, action, Failed) - CountOf(results, action, Missing)
  }

  /** `min` is the smallest share counted, or MAXINT if all are larger; `max` the largest, or 0 if all are smaller. */
  ghost predicate Bounds(results: seq<Result>, action: string, min: real, max: real) {
    && (forall i :: 0 <= i < |results| && KindOf(results[i], action).Counted? ==>
          min <= Share(results[i], action) <= max)
    && (min == MAXINT || exists i :: Reaches(results, action, i, min)) && min <= MAXINT
    && (max == 0.0 || exists i :: Reaches(results, action, i, max)) && max >= 0.0
  }

  ghost predicate Reaches(results: seq<Result>, action: string, i: int, d: real) {
    0 <= i < |results| && KindOf(results[i], action).Counted? && Share(results[i], action) == d
  }

  ghost predicate DataOf(data: seq<real>, results: seq<Result>, action: string) {
    |data| == |results| && forall i :: 0 <= i < |results| ==> data[i] == Share(results[i], action)
  }

  lemma BoundsNext(results: seq<Result>, i: nat, action: string, min: real, max: real)
    requires i < |results| && Bounds(results[..i], action, min, max)
    ensures var d := Share(results[i], action);
            if KindOf(results[i], action).Counted?
            then Bounds(results[..i + 1], action, if d < min then d else min, if d > max then d else max)
            else Bounds(results[..i + 1], action, min, max)
  {
    var d := Share(results[i], action);
    var now := results[..i + 1];
    assert now == results[..i] + [results[i]];
    forall k, x | Reaches(results[..i], action, k, x) ensures Reaches(now, action, k, x) {}
    if KindOf(results[i], action).Counted? {
      assert Reaches(now, action, i, d);
    }
  }

  datatype Tally = Tally(data: seq<real>, details: seq<seq<string>>, errorCount: nat, noAction: nat,
                         minDur: real, maxDur: real, totalDur: real)

  ghost predicate Tallied(t: Tally, results: seq<Result>, action: string) {
    && t.errorCount == CountOf(results, action, Failed)
    && t.noAction == CountOf(results, action, Missing)
    && t.details == Details(results, action)
    && DataOf(t.data, results, action) && Sum(t.data) == t.totalDur
    && Bounds(results, action, t.minDur, t.maxDur)
  }

  lemma TallyNext(t: Tally, u: Tally, results: seq<Result>, i: nat, action: string)
    requires i < |results| && Tallied(t, results[..i], action)
    requires var r := results[i];
             var d := Share(r, action);
             && u.data == t.data + [d] && u.totalDur == t.totalDur + d
             && u.errorCount == t.errorCount + (if KindOf(r, action).Failed? then 1 else 0)
             && u.noAction == t.noAction + (if KindOf(r, action).Missing? then 1 else 0)
             && u.details == t.details + (if KindOf(r, action).Failed? then [r.error] else [])
             && u.minDur == (if KindOf(r, action).Counted? && d < t.minDur then d else t.minDur)
             && u.maxDur == (if KindOf(r, action).Counted? && d > t.maxDur then d else t.maxDur)
    ensures Tallied(u, results[..i + 1], action)
  {
    assert results[..i + 1][..i] == results[..i];
    assert u.data[..|u.data| - 1] == t.data;
    BoundsNext(results, i, action, t.minDur, t.maxDur);
  }

  /** The loop over the results. */
  method Collect(action: string, results: seq<Result>) returns (t: Tally)
    ensures Tallied(t, results, action)
  {
    t := Tally([], [], 0, 0, MAXINT, 0.0, 0.0);
    for i := 0 to |results|
      invariant Tallied(t, results[..i], action)
    {
      var result := results[i];
      var atomic := result.atomic;
      ghost var before := t;
      if atomic != map[] && action !in atomic {
        t := t.(noAction := t.noAction + 1, data := t.data + [0.0]);
        TallyNext(before, t, results, i, action);
        continue;
      } else if (atomic != map[] && Falsy(atomic[action])) || (atomic == map[] && result.error != []) {
        t := t.(errorCount := t.errorCount + 1, details := t.details + [result.error], data := t.data + [0.0]);
        TallyNext(before, t, results, i, action);
        continue;
      }
      var duration := result.duration;
      if action in atomic {
        duration := atomic[action].value;
      }
      t := t.(totalDur := t.totalDur + duration,
              minDur := if duration < t.minDur then duration else t.minDur,
              maxDur := if duration > t.maxDur then duration else t.maxDur,
              data := t.data + [duration]);
      TallyNext(before, t, results, i, action);
    }
    assert results[..|results|] == results;
  }

  /**
   * The fields of a report: one datum for each execution, every failure with its details, extremes, average
   * and success rate. It divides by zero when nothing is left to average over but not every configured
   * execution failed.
   */
  method ActionReport(action: string, results: seq<Result>, times: int) returns (r: Report)
    ensures results == [] ==> r == Report(0.0, 0.0, 0.0, 0.0, times, [["Unknown error!"]], 0, [])
    ensures r.DivisionByZero? <==>
            results != [] && Rest(times, results, action) == 0 && times != CountOf(results, action, Failed)
    ensures results != [] && r.Report? ==> IsReport(r, action, results, times)
  {
    var t := Collect(action, results);
    if results == [] {
      return Report(0.0, 0.0, 0.0, 0.0, times, [["Unknown error!"]], 0, t.data);
    }
    var min, avg := 0.0, 0.0;
    var counted := times - t.errorCount - t.noAction;
    if times != t.errorCount {
      if counted == 0 {
        return DivisionByZero;
      }
      min, avg := t.minDur, t.totalDur / counted as real;
    }
    var success := (counted * 100) as real / |results| as real;
    return Report(min, avg, t.maxDur, success, t.errorCount, t.details, times, t.data);
  }

  ghost predicate IsReport(r: Report, action: string, results: seq<Result>, times: int)
    requires r.Report?
  {
    && r.errorCount == CountOf(results, action, Failed) && r.details == Details(results, action)
    && r.total == times && DataOf(r.data, results, action)
    && (results != [] ==> r.success == (Rest(times, results, action) * 100) as real / |results| as real)
    && (if times == r.errorCount
        then r.min == r.avg == 0.0 && exists lo :: Bounds(results, action, lo, r.max)
        else Bounds(results, action, r.min, r.max) && Rest(times, results, action) != 0
             && r.avg == Sum(r.data) / Rest(times, results, action) as real)
  }

  /** _get_total_errors: an empty result list counts as one error. */
  method TotalErrors(results: seq<Result>) returns (total: nat)
    ensures total == if results == [] then 1 else ErrorCount(results)
  {
    if results == [] {
      return 1;
    }
    total := 0;
    for i := 0 to |results|
      invariant total == ErrorCount(results[..i])
    {
      assert results[..i + 1][..i] == results[..i];
      if results[i].error != [] {
        total := total + 1;
      }
    }
    assert results[..|results|] == results;
  }

  function ErrorCount(results: seq<Result>): nat {
    if results == [] then 0
    else ErrorCount(results[..|results| - 1]) + if results[|results| - 1].error != [] then 1 else 0
  }

  // ----- what the report accounts for -----

  /** Every execution is counted, failed or missing, and every failure has its details. */
  lemma {:induction false} Conservation(results: seq<Result>, action: string)
    ensures CountOf(results, action, Counted) + CountOf(results, action, Failed) + CountOf(results, action, Missing)
            == |results|
    ensures |Details(results, action)| == CountOf(results, action, Failed)
  {
    if results == [] {
    } else {
      Conservation(results[..|results| - 1], action);
    }
  }

  function Times(n: nat, x: real): real {
    if n == 0 then 0.0 else Times(n - 1, x) + x
  }

  lemma Distribute(a: real, x: real)
    ensures (a + 1.0) * x == a * x + x
  {
  }

  lemma {:induction false} TimesIsProduct(n: nat, x: real)
    ensures Times(n, x) == n as real * x
  {
    if n == 0 {
    } else {
      TimesIsProduct(n - 1, x);
      Distribute((n - 1) as real, x);
      assert n as real == (n - 1) as real + 1.0;
    }
  }

  lemma {:induction false} SumBetween(data: seq<real>, results: seq<Result>, action: string, lo: real, hi: real)
    requires DataOf(data, results, action)
    requires forall i :: 0 <= i < |results| && KindOf(results[i], action).Counted? ==>
               lo <= Share(results[i], action) <= hi
    ensures var c := CountOf(results, action, Counted); Times(c, lo) <= Sum(data) <= Times(c, hi)
    decreases |results|
  {
    if results == [] {
    } else {
      var n := |results| - 1;
      SumBetween(data[..n], results[..n], action, lo, hi);
    }
  }

  lemma LessTimes(a: real, b: real, c: real)
    requires c > 0.0 && a < b
    ensures a * c < b * c
  {
  }

  lemma Quotient(x: real, n: real)
    requires n != 0.0
    ensures (x / n) * n == x
  {
  }

  lemma MeanBetween(n: nat, sum: real, lo: real, hi: real)
    requires n > 0 && Times(n, lo) <= sum <= Times(n, hi)
    ensures lo <= sum / n as real <= hi
  {
    var avg, c := sum / n as real, n as real;
    Quotient(sum, c);
    TimesIsProduct(n, lo);
    TimesIsProduct(n, hi);
    if avg < lo { LessTimes(avg, lo, c); }
    if avg > hi { LessTimes(hi, avg, c); }
  }

  /**
   * When as many executions came back as were configured and at least one was counted, the report is an
   * account: min <= avg <= max, the average is the sum of the data over the number counted, counted, failed
   * and missing make up the total, and the success rate is the share of the counted.
   */
  lemma ReportIsAnAccount(results: seq<Result>, action: string, times: int, r: Report)
    requires |results| == times && CountOf(results, action, Counted) > 0
    requires r.Report? && IsReport(r, action, results, times)
    ensures var n := CountOf(results, action, Counted);
            && r.min <= r.avg <= r.max
            && r.avg == Sum(r.data) / n as real
            && r.errorCount == |r.details|
            && r.total == |r.data| == n + r.errorCount + CountOf(results, action, Missing)
            && r.success == (n * 100) as real / r.total as real
  {
    var n := CountOf(results, action, Counted);
    Conservation(results, action);
    SumBetween(r.data, results, action, r.min, r.max);
    MeanBetween(n, Sum(r.data), r.min, r.max);
  }

  /** Given as many results as configured, it divides by zero exactly when nothing was counted but not all failed. */
  lemma DividesByZeroExactly(results: seq<Result>, action: string)
    ensures results != [] && Rest(|results|, results, action) == 0 && |results| != CountOf(results, action, Failed) <==>
            CountOf(results, action, Counted) == 0 && CountOf(results, action, Missing) > 0
  {
    Conservation(results, action);
  }

  /** Without atomic actions the action's error count is the task's. */
  lemma {:induction false} ErrorsAgree(results: seq<Result>, action: string)
    requires forall i :: 0 <= i < |results| ==> results[i].atomic == map[]
    ensures CountOf(results, action, Failed) == ErrorCount(results)
  {
    if results == [] {
    } else {
      ErrorsAgree(results[..|results| - 1], action);
    }
  }

  // ----- the report in terms of the raw results -----

  /** With atomic actions recorded, the action is not among them. */
  predicate MissingAt(results: seq<Result>, action: string, i: int) {
    0 <= i < |results| && results[i].atomic != map[] && action !in results[i].atomic
  }

  /** The action was recorded without a duration, or nothing was recorded and the execution has errors. */
  predicate FailedAt(results: seq<Result>, action: string, i: int) {
    0 <= i < |results| && var r := results[i];
    if r.atomic == map[] then r.error != []
    else action in r.atomic && (r.atomic[action] == None || r.atomic[action] == Some(0.0))
  }

  function FailedIn(results: seq<Result>, action: string): set<int> {
    set i | 0 <= i < |results| && FailedAt(results, action, i)
  }

  function MissingIn(results: seq<Result>, action: string): set<int> {
    set i | 0 <= i < |results| && MissingAt(results, action, i)
  }

  lemma KindIs(results: seq<Result>, action: string, i: nat)
    requires i < |results|
    ensures KindOf(results[i], action).Failed? <==> FailedAt(results, action, i)
    ensures KindOf(results[i], action).Missing? <==> MissingAt(results, action, i)
  {
  }

  lemma FailedNext(results: seq<Result>, action: string, n: nat)
    requires |results| == n + 1
    ensures |FailedIn(results, action)|
            == |FailedIn(results[..n], action)| + if FailedAt(results, action, n) then 1 else 0
  {
    var before := FailedIn(results[..n], action);
    forall i | 0 <= i < n ensures FailedAt(results[..n], action, i) <==> FailedAt(results, action, i) {}
    assert FailedIn(results, action) == if FailedAt(results, action, n) then before + {n} else before;
  }

  lemma MissingNext(results: seq<Result>, action: string, n: nat)
    requires |results| == n + 1
    ensures |MissingIn(results, action)|
            == |MissingIn(results[..n], action)| + if MissingAt(results, action, n) then 1 else 0
  {
    var before := MissingIn(results[..n], action);
    forall i | 0 <= i < n ensures MissingAt(results[..n], action, i) <==> MissingAt(results, action, i) {}
    assert MissingIn(results, action) == if MissingAt(results, action, n) then before + {n} else before;
  }

  lemma {:induction false} CountsAre(results: seq<Result>, action: string)
    ensures CountOf(results, action, Failed) == |FailedIn(results, action)|
    ensures CountOf(results, action, Missing) == |MissingIn(results, action)|
  {
    if results == [] {
      assert FailedIn(results, action) == {} && MissingIn(results, action) == {};
    } else {
      var n := |results| - 1;
      CountsAre(results[..n], action);
      KindIs(results, action, n);
      FailedNext(results, action, n);
      MissingNext(results, action, n);
    }
  }

  /** The details of a failure stand where as many failures came before it. */
  lemma {:induction false} DetailsInOrder(results: seq<Result>, action: string, i: nat)
    requires FailedAt(results, action, i)
    ensures CountOf(results[..i], action, Failed) < |Details(results, action)|
    ensures Details(results, action)[CountOf(results[..i], action, Failed)] == results[i].error
    decreases |results|
  {
    var n := |results| - 1;
    Conservation(results[..n], action);
    if i < n {
      assert results[..n][..i] == results[..i];
      DetailsInOrder(results[..n], action, i);
    }
  }

  lemma DataReads(results: seq<Result>, action: string, data: seq<real>, i: nat)
    requires DataOf(data, results, action) && i < |results|
    ensures data[i] == if FailedAt(results, action, i) || MissingAt(results, action, i) then 0.0
                       else if action in results[i].atomic then results[i].atomic[action].value
                       else results[i].duration
  {
    KindIs(results, action, i);
  }

  lemma DetailRead(results: seq<Result>, action: string, i: nat)
    requires FailedAt(results, action, i)
    ensures var k := |FailedIn(results[..i], action)|;
            k < |Details(results, action)| && Details(results, action)[k] == results[i].error
  {
    CountsAre(results[..i], action);
    DetailsInOrder(results, action, i);
  }

  /**
   * What a report says of any results: its errors are those executions that recorded the action without a duration,
   * or recorded nothing and had errors; each has its details, in order; each other execution that does not miss the
   * action has its recorded duration as datum, or else the duration of the whole.
   */
  lemma ReportReads(results: seq<Result>, action: string, times: int, r: Report, failed: nat, missing: nat)
    requires r.Report? && IsReport(r, action, results, times)
    requires failed == |FailedIn(results, action)| && missing == |MissingIn(results, action)|
    ensures r.errorCount == |r.details| == failed && r.total == times
    ensures forall i: nat :: FailedAt(results, action, i) ==>
              var k := |FailedIn(results[..i], action)|; k < |r.details| && r.details[k] == results[i].error
    ensures |r.data| == |results|
    ensures forall i: nat :: i < |results| ==>
              r.data[i] == if FailedAt(results, action, i) || MissingAt(results, action, i) then 0.0
                           else if action in results[i].atomic then results[i].atomic[action].value
                           else results[i].duration
    ensures results != [] ==> r.success == ((times - failed - missing) * 100) as real / |results| as real
  {
    CountsAre(results, action);
    Conservation(results, action);
    forall i: nat | FailedAt(results, action, i)
      ensures var k := |FailedIn(results[..i], action)|; k < |r.details| && r.details[k] == results[i].error
    {
      DetailRead(results, action, i);
    }
    forall i: nat | i < |results|
      ensures r.data[i] == if FailedAt(results, action, i) || MissingAt(results, action, i) then 0.0
                           else if action in results[i].atomic then results[i].atomic[action].value
                           else results[i].duration
    {
      DataReads(results, action, r.data, i);
    }
  }

  /** The least duration is one of those counted, unless all of them exceed the largest machine integer, 2^63 - 1. */
  lemma MinIsReached(results: seq<Result>, action: string, times: int, r: Report, k: nat)
    requires r.Report? && IsReport(r, action, results, times) && times != r.errorCount
    requires k < |results| && !FailedAt(results, action, k) && !MissingAt(results, action, k)
    requires r.data[k] <= 2147483648.0 * 4294967296.0 - 1.0
    ensures exists i: nat :: i < |results| && !FailedAt(results, action, i) && !MissingAt(results, action, i)
                             && r.data[i] == r.min
    ensures forall i: nat :: i < |results| && !FailedAt(results, action, i) && !MissingAt(results, action, i) ==>
              r.min <= r.data[i] <= r.max
  {
    KindIs(results, action, k);
    forall i: nat | i < |results|
      ensures KindOf(results[i], action).Counted? <==> !FailedAt(results, action, i) && !MissingAt(results, action, i)
    {
      KindIs(results, action, i);
    }
    assert r.min <= Share(results[k], action);
    assert exists i :: Reaches(results, action, i, r.min) by {
      if r.min == MAXINT { assert Reaches(results, action, k, r.min); }
    }
    var i :| Reaches(results, action, i, r.min);
    assert r.data[i] == r.min;
  }
}
