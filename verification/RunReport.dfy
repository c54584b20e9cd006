/** The summary of a completed run: the journal, the scoring and the counters together. */
module RunReport {
  import opened Ordering
  import opened Scoring
  import opened Journal
  import opened JournalRuns
  import opened Summary

  function Ids(cases: seq<Case>): (r: seq<string>)
    ensures |r| == |cases| && forall k :: 0 <= k < |cases| ==> r[k] == cases[k].id
  {
    seq(|cases|, k requires 0 <= k < |cases| => cases[k].id)
  }

  // The record is what `_execute_case` makes of some outcome of the tools on the case of this id.
  ghost predicate FromTools(repair: string -> string, cases: seq<Case>, id: string, record: Record) {
    forall c :: c in cases && c.id == id ==> exists run :: record == RecordOf(repair, c, run)
  }

  lemma {:induction false} FullJoin(cases: seq<Case>, latest: map<string, Record>)
    requires forall c :: c in cases ==> c.id in latest
    ensures |Join(cases, latest)| == |cases|
    ensures forall k :: 0 <= k < |cases| ==> Join(cases, latest)[k] == Row(cases[k], latest[cases[k].id])
  {
    if cases != [] {
      var n := |cases| - 1;
      assert cases[n] in cases;
      FullJoin(cases[..n], latest);
    }
  }

  /** A run that completed, however it was interrupted and retried on the way, is summarized in full:
      every case is counted in exactly one outcome and one diagnostic stage, and the derived number of
      eligible cases is the number of cases whose srcDiff was semantically eligible. */
  lemma {:induction false} CompletedRunIsConserved(repair: string -> string, cases: seq<Case>,
                                                   allowed: (State, Step) -> bool,
                                                   steps: seq<Step>, u: State, report: Report)
    requires Distinct(Ids(cases)) && Leads(Ids(cases), allowed, FRESH, steps, u) && u.completed
    requires Records(Ids(cases), allowed, (id, record) => FromTools(repair, cases, id, record))
    requires Summarizes(report, Join(cases, LatestResults(u.attempts)))
    ensures TableTotal(report.counts, OUTCOMES) == TableTotal(report.reviewed, OUTCOMES)
            == TableTotal(report.stages, STAGES) == |cases|
    ensures AllCoupled(Join(cases, LatestResults(u.attempts)))
    ensures |cases| - Lookup(report.counts, UpstreamFailure) - Lookup(report.counts, SemanticIneligible)
            == Count(EligibleRow, Join(cases, LatestResults(u.attempts)))
  {
    var latest := LatestResults(u.attempts);
    CompletedResults(Ids(cases), allowed, (id, record) => FromTools(repair, cases, id, record), FRESH, steps, u);
    forall k | 0 <= k < |cases| ensures cases[k].id in latest {
      assert Ids(cases)[k] == cases[k].id;
    }
    FullJoin(cases, latest);
    var rows := Join(cases, latest);
    forall k | 0 <= k < |rows| ensures Coupled(rows[k].c.kind, rows[k].record) {
      assert FromTools(repair, cases, cases[k].id, latest[cases[k].id]) && cases[k] in cases;
      var run :| rows[k].record == RecordOf(repair, cases[k], run);
      RecordsAreCoupled(repair, cases[k], run);
    }
    CountsAreConserved(report, rows);
    DerivedEligibleIsExact(report, rows);
  }

  /** The same for a runner over tools whose every record is scored from some outcome of the tools on the case. */
  lemma {:induction false} ScoredRunIsConserved(repair: string -> string, cases: seq<Case>, execute: Execution,
                                                steps: seq<Step>, u: State, report: Report)
    requires Distinct(Ids(cases)) && Leads(Ids(cases), Tools(Ids(cases), execute), FRESH, steps, u) && u.completed
    requires forall id, ordinal: nat :: id in Ids(cases) && execute(id, ordinal).Some? ==>
               FromTools(repair, cases, id, execute(id, ordinal).value)
    requires Summarizes(report, Join(cases, LatestResults(u.attempts)))
    ensures TableTotal(report.counts, OUTCOMES) == TableTotal(report.reviewed, OUTCOMES)
            == TableTotal(report.stages, STAGES) == |cases|
    ensures AllCoupled(Join(cases, LatestResults(u.attempts)))
  {
    ToolsRecord(Ids(cases), execute, (id, record) => FromTools(repair, cases, id, record));
    CompletedRunIsConserved(repair, cases, Tools(Ids(cases), execute), steps, u, report);
  }
}
