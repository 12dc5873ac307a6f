/** The bounded log of recent errors, its filters and its summary. */
module ErrorLog {
  import opened Options
  import opened Selections

  datatype DetailedError = DetailedError(
    code: string, message: string, component: string, timestamp: nat, severity: string, context: map<string, string>)

  const SEVERITY_CRITICAL := "Critical"
  const SEVERITY_MEDIUM := "Medium"

  // ------------------------------------------------------------------ the log

  /** The error with a severity and a time; the zero time is 0. */
  function Filled(err: DetailedError, now: nat): DetailedError {
    err.(severity := if err.severity == "" then SEVERITY_MEDIUM else err.severity,
         timestamp := if err.timestamp == 0 then now else err.timestamp)
  }

  function Take(errors: seq<DetailedError>, n: nat): seq<DetailedError> {
    if |errors| > n then errors[..n] else errors
  }

  function Pushed(errors: seq<DetailedError>, err: DetailedError, now: nat, maxErrors: nat): seq<DetailedError> {
    Take([Filled(err, now)] + errors, maxErrors)
  }

  class ErrorList {
    var errors: seq<DetailedError>

    constructor ()
      ensures errors == []
    {
      errors := [];
    }

    method AddError(err: DetailedError, now: nat, maxErrors: nat)
      modifies this
      ensures errors == Pushed(old(errors), err, now, maxErrors)
      ensures |errors| == if |old(errors)| < maxErrors then |old(errors)| + 1 else maxErrors
      ensures forall i | 1 <= i < |errors| :: errors[i] == old(errors)[i - 1]
      ensures |errors| > 0 ==>
                && errors[0] == err.(severity := errors[0].severity, timestamp := errors[0].timestamp)
                && errors[0].severity == (if err.severity == "" then "Medium" else err.severity)
                && errors[0].timestamp == if err.timestamp == 0 then now else err.timestamp
    {
      var filled := err;
      if filled.severity == "" {
        filled := filled.(severity := SEVERITY_MEDIUM);
      }
      if filled.timestamp == 0 {
        filled := filled.(timestamp := now);
      }
      errors := [filled] + errors;
      if |errors| > maxErrors {
        errors := errors[..maxErrors];
      }
    }
  }

  // An error as it was reported, and the time on the clock.
  datatype Report = Report(err: DetailedError, now: nat)

  function LogAfter(start: seq<DetailedError>, reports: seq<Report>, n: nat, maxErrors: nat): seq<DetailedError>
    requires n <= |reports|
  {
    if n == 0 then start
    else Pushed(LogAfter(start, reports, n - 1, maxErrors), reports[n - 1].err, reports[n - 1].now, maxErrors)
  }

  /** Everything reported, the latest first, before what was there at the start. */
  function History(start: seq<DetailedError>, reports: seq<Report>, n: nat): seq<DetailedError>
    requires n <= |reports|
  {
    seq(n + |start|, i requires 0 <= i < n + |start| =>
      if i < n then Filled(reports[n - 1 - i].err, reports[n - 1 - i].now) else start[i - n])
  }

  lemma {:induction false} HistoryExtends(start: seq<DetailedError>, reports: seq<Report>, n: nat)
    requires 0 < n <= |reports|
    ensures History(start, reports, n) ==
              [Filled(reports[n - 1].err, reports[n - 1].now)] + History(start, reports, n - 1)
  {
    hide Filled;
  }

  lemma {:induction false} PushAfterTake(errors: seq<DetailedError>, err: DetailedError, now: nat, maxErrors: nat)
    ensures Pushed(Take(errors, maxErrors), err, now, maxErrors) == Pushed(errors, err, now, maxErrors)
  {
    hide Filled;
    if |errors| > maxErrors > 0 {
      assert ([Filled(err, now)] + errors[..maxErrors])[..maxErrors] == ([Filled(err, now)] + errors)[..maxErrors];
    }
  }

  /** Over any run the log is the first `maxErrors` errors of the reversed, default-filled history. */
  lemma {:induction false} LogIsRecentHistory(start: seq<DetailedError>, reports: seq<Report>, n: nat, maxErrors: nat)
    requires n <= |reports| && |start| <= maxErrors
    ensures LogAfter(start, reports, n, maxErrors) == Take(History(start, reports, n), maxErrors)
  {
    hide Filled, Pushed;
    if n == 0 {
      assert History(start, reports, 0) == start;
    } else {
      LogIsRecentHistory(start, reports, n - 1, maxErrors);
      PushAfterTake(History(start, reports, n - 1), reports[n - 1].err, reports[n - 1].now, maxErrors);
      HistoryExtends(start, reports, n);
      PushedIsTake(History(start, reports, n - 1), reports[n - 1].err, reports[n - 1].now, maxErrors);
    }
  }

  lemma {:induction false} PushedIsTake(errors: seq<DetailedError>, err: DetailedError, now: nat, maxErrors: nat)
    ensures Pushed(errors, err, now, maxErrors) == Take([Filled(err, now)] + errors, maxErrors)
  {
  }

  // ------------------------------------------------------------------ filters

  predicate Matches(err: DetailedError, component: Option<string>, severity: Option<string>) {
    (component.Some? ==> err.component == component.value) && (severity.Some? ==> err.severity == severity.value)
  }

  /** Of the first `n` errors, those of a component and a severity, if given, in order. */
  function Filter(
    errors: seq<DetailedError>, n: nat, component: Option<string>, severity: Option<string>): seq<DetailedError>
    requires n <= |errors|
  {
    if n == 0 then []
    else
      Filter(errors, n - 1, component, severity)
      + if Matches(errors[n - 1], component, severity) then [errors[n - 1]] else []
  }

  method GetErrorsByComponent(errors: seq<DetailedError>, component: string)
    returns (componentErrors: seq<DetailedError>)
    ensures componentErrors == Filter(errors, |errors|, Some(component), None)
  {
    componentErrors := [];
    for i := 0 to |errors|
      invariant componentErrors == Filter(errors, i, Some(component), None)
    {
      if errors[i].component == component {
        componentErrors := componentErrors + [errors[i]];
      }
    }
  }

  method GetErrorsBySeverity(errors: seq<DetailedError>, severity: string) returns (severityErrors: seq<DetailedError>)
    ensures severityErrors == Filter(errors, |errors|, None, Some(severity))
  {
    severityErrors := [];
    for i := 0 to |errors|
      invariant severityErrors == Filter(errors, i, None, Some(severity))
    {
      if errors[i].severity == severity {
        severityErrors := severityErrors + [errors[i]];
      }
    }
  }

  method HasCriticalErrors(errors: seq<DetailedError>) returns (critical: bool)
    ensures critical <==> Filter(errors, |errors|, None, Some(SEVERITY_CRITICAL)) != []
    ensures critical <==> exists err <- errors :: err.severity == "Critical"
  {
    for i := 0 to |errors|
      invariant Filter(errors, i, None, Some(SEVERITY_CRITICAL)) == []
      invariant forall j | 0 <= j < i :: errors[j].severity != SEVERITY_CRITICAL
    {
      if errors[i].severity == SEVERITY_CRITICAL {
        FilterGrows(errors, i + 1, |errors|, None, Some(SEVERITY_CRITICAL));
        return true;
      }
    }
    return false;
  }

  /** The errors at these indices have the component and the severity that are given. */
  function Selected(errors: seq<DetailedError>, component: Option<string>, severity: Option<string>): nat -> bool {
    (i: nat) =>
      && i < |errors|
      && (component == None || component == Some(errors[i].component))
      && (severity == None || severity == Some(errors[i].severity))
  }

  /** A filter keeps exactly the errors with the component and the severity that are given, in order. */
  lemma {:induction false} FilterExactly(
    errors: seq<DetailedError>, n: nat, component: Option<string>, severity: Option<string>) returns (kept: seq<nat>)
    requires n <= |errors|
    ensures AreKept(kept, n, Selected(errors, component, severity))
    ensures var filtered := Filter(errors, n, component, severity);
            |filtered| == |kept| && forall j | 0 <= j < |kept| :: kept[j] < |errors| && filtered[j] == errors[kept[j]]
  {
    hide AreKept;
    var keep := Selected(errors, component, severity);
    if n == 0 {
      kept := [];
      NothingKept(keep);
    } else {
      var before := FilterExactly(errors, n - 1, component, severity);
      KeptExtends(before, n - 1, keep);
      kept := if keep(n - 1) then before + [n - 1] else before;
    }
  }

  lemma {:induction false} FilterGrows(
    errors: seq<DetailedError>, m: nat, n: nat, component: Option<string>, severity: Option<string>)
    requires m <= n <= |errors|
    ensures Filter(errors, m, component, severity) <= Filter(errors, n, component, severity)
  {
    if m < n { FilterGrows(errors, m, n - 1, component, severity); }
  }

  /** Filtering by severity what was filtered by component selects by both, in the order of the log. */
  lemma {:induction false} FiltersCompose(errors: seq<DetailedError>, n: nat, component: string, severity: string)
    requires n <= |errors|
    ensures var byComponent := Filter(errors, n, Some(component), None);
            Filter(byComponent, |byComponent|, None, Some(severity)) ==
              Filter(errors, n, Some(component), Some(severity))
  {
    if n > 0 {
      FiltersCompose(errors, n - 1, component, severity);
      var before, after := Filter(errors, n - 1, Some(component), None), Filter(errors, n, Some(component), None);
      FilterDepends(before, after, |before|, None, Some(severity));
    }
  }

  lemma {:induction false} FilterDepends(
    a: seq<DetailedError>, b: seq<DetailedError>, n: nat, component: Option<string>, severity: Option<string>)
    requires n <= |a| && n <= |b| && forall i | 0 <= i < n :: a[i] == b[i]
    ensures Filter(a, n, component, severity) == Filter(b, n, component, severity)
  {
    if n > 0 { FilterDepends(a, b, n - 1, component, severity); }
  }

  // ------------------------------------------------------------------ the summary

  type Summary = map<string, map<string, nat>>

  function CountIn(summary: Summary, component: string, severity: string): nat {
    if component in summary && severity in summary[component] then summary[component][severity] else 0
  }

  function Counted(summary: Summary, err: DetailedError): Summary {
    var row := if err.component in summary then summary[err.component] else map[];
    summary[err.component := row[err.severity := CountIn(summary, err.component, err.severity) + 1]]
  }

  /** The summary of the first `n` errors. */
  function SummaryOf(errors: seq<DetailedError>, n: nat): Summary
    requires n <= |errors|
  {
    if n == 0 then map[] else Counted(SummaryOf(errors, n - 1), errors[n - 1])
  }

  /** A missing row is made first, and a missing count is zero. */
  method GetErrorSummary(errors: seq<DetailedError>) returns (summary: Summary)
    ensures summary == SummaryOf(errors, |errors|)
  {
    summary := map[];
    for i := 0 to |errors|
      invariant summary == SummaryOf(errors, i)
    {
      var err := errors[i];
      ghost var before := summary;
      if err.component !in summary {
        summary := summary[err.component := map[]];
      }
      var row := summary[err.component];
      var count := if err.severity in row then row[err.severity] else 0;
      summary := summary[err.component := row[err.severity := count + 1]];
      assert summary == Counted(before, err);
    }
  }

  /** Each count of the summary is the length of the filter by component and severity; no count is zero. */
  lemma {:induction false} SummaryCountsFilters(errors: seq<DetailedError>, n: nat, component: string, severity: string)
    requires n <= |errors|
    ensures CountIn(SummaryOf(errors, n), component, severity) == |Filter(errors, n, Some(component), Some(severity))|
    ensures var summary := SummaryOf(errors, n);
            component in summary && severity in summary[component] <==> CountIn(summary, component, severity) > 0
  {
    if n > 0 { SummaryCountsFilters(errors, n - 1, component, severity); }
  }

  ghost function RowTotal(row: map<string, nat>): nat {
    if row == map[] then 0
    else
      var severity :| severity in row;
      row[severity] + RowTotal(row - {severity})
  }

  ghost function Total(summary: Summary): nat {
    if summary == map[] then 0
    else
      var component :| component in summary;
      RowTotal(summary[component]) + Total(summary - {component})
  }

  lemma {:induction false} RowTotalWithout(row: map<string, nat>, severity: string)
    requires severity in row
    ensures RowTotal(row) == row[severity] + RowTotal(row - {severity})
    decreases |row|
  {
    var first :| first in row && RowTotal(row) == row[first] + RowTotal(row - {first});
    if first != severity {
      RowTotalWithout(row - {first}, severity);
      RowTotalWithout(row - {severity}, first);
      assert row - {first} - {severity} == row - {severity} - {first};
    }
  }

  lemma {:induction false} TotalWithout(summary: Summary, component: string)
    requires component in summary
    ensures Total(summary) == RowTotal(summary[component]) + Total(summary - {component})
    decreases |summary|
  {
    var first :| first in summary && Total(summary) == RowTotal(summary[first]) + Total(summary - {first});
    if first != component {
      TotalWithout(summary - {first}, component);
      TotalWithout(summary - {component}, first);
      assert summary - {first} - {component} == summary - {component} - {first};
    }
  }

  lemma {:induction false} RowGainsOne(row: map<string, nat>, severity: string, count: nat)
    requires count == if severity in row then row[severity] else 0
    ensures RowTotal(row[severity := count + 1]) == RowTotal(row) + 1
  {
    var after := row[severity := count + 1];
    RowTotalWithout(after, severity);
    assert after - {severity} == row - {severity};
    if severity in row {
      RowTotalWithout(row, severity);
    } else {
      assert row - {severity} == row;
    }
  }

  lemma {:induction false} CountedGainsOne(summary: Summary, err: DetailedError)
    ensures Total(Counted(summary, err)) == Total(summary) + 1
  {
    var row := if err.component in summary then summary[err.component] else map[];
    RowGainsOne(row, err.severity, CountIn(summary, err.component, err.severity));
    var after := Counted(summary, err);
    TotalWithout(after, err.component);
    assert after - {err.component} == summary - {err.component};
    if err.component in summary {
      TotalWithout(summary, err.component);
    } else {
      assert summary - {err.component} == summary && RowTotal(map[]) == 0;
    }
  }

  /** The counts of the summary add up to the length of the log. */
  lemma {:induction false} SummaryAddsUp(errors: seq<DetailedError>, n: nat)
    requires n <= |errors|
    ensures Total(SummaryOf(errors, n)) == n
  {
    if n > 0 {
      SummaryAddsUp(errors, n - 1);
      CountedGainsOne(SummaryOf(errors, n - 1), errors[n - 1]);
    }
  }
}
