/** Every history of invocations of the serial runner: the run loop of
    bigMoveBench/normalized_execution.py (1231-1360) as a state machine over the commits of the
    journal, in which the process may die after any commit. */
module JournalRuns {
  import opened Wrappers
  import opened Ordering
  import opened Scoring
  import opened Journal

  /** Where an invocation stands.  `base` is the table as the invocation recovered it. */
  datatype Phase =
    | Idle
    | Recovering(retry: bool, base: Table)
    | AtCase(retry: bool, base: Table, i: nat)
    | Executing(retry: bool, base: Table, i: nat, id: string)

  datatype State = State(attempts: Table, completed: bool, phase: Phase)

  datatype Step =
    | Recover(retry: bool)
    | Mark
    | Reuse
    | Begin(id: string)
    | Finish(record: Record)
    | Complete
    | Crash

  /** A case runs when it has no terminal attempt, or when its latest one failed retryably and
      retrying is on. */
  predicate MustRun(t: Table, c: string, retry: bool) {
    var latest := LatestTerminal(t, c);
    latest.None? || (retry && Retryable(latest.value.status.record.outcome))
  }

  predicate Takes(cases: seq<string>, s: State, step: Step, u: State) {
    match step
    case Recover(retry) =>
      && s.phase.Idle?
      && u == State(Recovered(s.attempts), s.completed, Recovering(retry, Recovered(s.attempts)))
    case Mark =>
      && s.phase.Recovering?
      && u == State(s.attempts, false, AtCase(s.phase.retry, s.phase.base, 0))
    case Reuse =>
      && s.phase.AtCase? && s.phase.i < |cases|
      && !MustRun(s.attempts, cases[s.phase.i], s.phase.retry)
      && u == State(s.attempts, s.completed, AtCase(s.phase.retry, s.phase.base, s.phase.i + 1))
    case Begin(id) =>
      && s.phase.AtCase? && s.phase.i < |cases|
      && MustRun(s.attempts, cases[s.phase.i], s.phase.retry)
      && !IdInUse(s.attempts, id)
      && u == State(Begun(s.attempts, id, cases[s.phase.i]), s.completed,
                    Executing(s.phase.retry, s.phase.base, s.phase.i, id))
    case Finish(record) =>
      && s.phase.Executing?
      && u == State(Finished(s.attempts, s.phase.id, record), s.completed,
                    AtCase(s.phase.retry, s.phase.base, s.phase.i + 1))
    case Complete =>
      && s.phase.AtCase? && s.phase.i == |cases|
      && |TerminalCases(s.attempts)| == |cases|
      && u == State(s.attempts, true, Idle)
    case Crash => u == State(s.attempts, s.completed, Idle)
  }

  // ----- the invariant -----

  // The cases that an invocation over `base` has to run among the first i, in order.
  function Needed(base: Table, cases: seq<string>, i: nat, retry: bool): seq<string>
    requires i <= |cases|
  {
    if i == 0 then [] else
      var before := Needed(base, cases, i - 1, retry);
      if MustRun(base, cases[i - 1], retry) then before + [cases[i - 1]] else before
  }

  lemma {:induction false} NeededCases(base: Table, cases: seq<string>, i: nat, retry: bool, c: string)
    requires Distinct(cases) && i <= |cases|
    ensures c in Needed(base, cases, i, retry) <==> c in cases[..i] && MustRun(base, c, retry)
  {
    if i > 0 {
      NeededCases(base, cases, i - 1, retry, c);
      assert cases[..i] == cases[..i - 1] + [cases[i - 1]];
    }
  }

  function CaseIds(t: Table): (r: seq<string>)
    ensures |r| == |t| && forall k :: 0 <= k < |t| ==> r[k] == t[k].caseId
  {
    seq(|t|, k requires 0 <= k < |t| => t[k].caseId)
  }

  /** The rows that this invocation has added are one for each case it had to run so far, in the
      order of the cases. */
  ghost predicate Added(t: Table, base: Table, wanted: seq<string>) {
    && |base| <= |t| && t[..|base|] == base
    && CaseIds(t[|base|..]) == wanted
  }

  ghost predicate TableOk(cases: seq<string>, t: Table) {
    && UniqueIds(t) && Dense(t) && RunningIsLast(t) && OnlyRetried(t)
    && (forall k :: 0 <= k < |t| ==> t[k].caseId in cases)
  }

  ghost predicate PhaseOk(cases: seq<string>, t: Table, phase: Phase) {
    match phase
    case Idle => true
    case Recovering(_, base) => NoneRunning(t) && t == base
    case AtCase(retry, base, i) =>
      && NoneRunning(t) && i <= |cases| && AllTerminal(t, cases[..i])
      && Added(t, base, Needed(base, cases, i, retry))
    case Executing(retry, base, i, id) =>
      && i < |cases| && AllTerminal(t, cases[..i])
      && t != [] && t[|t| - 1].status.Running? && t[|t| - 1].id == id && t[|t| - 1].caseId == cases[i]
      && MustRun(t, cases[i], retry)
      && Added(t, base, Needed(base, cases, i, retry) + [cases[i]])
      && Needed(base, cases, i + 1, retry) == Needed(base, cases, i, retry) + [cases[i]]
  }

  ghost predicate Inv(cases: seq<string>, s: State) {
    && TableOk(cases, s.attempts)
    && PhaseOk(cases, s.attempts, s.phase)
    && (s.completed ==> AllTerminal(s.attempts, cases) && NoneRunning(s.attempts)
                        && (s.phase.Idle? || s.phase.Recovering?))
  }

  // ----- every step keeps the invariant -----

  lemma {:induction false} LatestOfRecovered(t: Table, c: string)
    ensures LatestTerminal(Recovered(t), c) == LatestTerminal(t, c)
  {
    if t != [] {
      assert Recovered(t)[..|t| - 1] == Recovered(t[..|t| - 1]);
      LatestOfRecovered(t[..|t| - 1], c);
    }
  }

  lemma {:induction false} RecoverKeeps(cases: seq<string>, t: Table)
    requires TableOk(cases, t)
    ensures TableOk(cases, Recovered(t)) && NoneRunning(Recovered(t)) && Evolves(t, Recovered(t))
    ensures AllTerminal(t, cases) ==> AllTerminal(Recovered(t), cases)
  {
    DenseOfSameKeys(t, Recovered(t));
    forall c ensures HasTerminal(Recovered(t), c) <==> HasTerminal(t, c) { LatestOfRecovered(t, c); }
  }

  lemma {:induction false} BegunIsDense(t: Table, id: string, c: string)
    requires Dense(t)
    ensures Dense(Begun(t, id, c))
  {
    NextOrdinalCounts(t, c);
    var u := Begun(t, id, c);
    forall k | 0 <= k < |u| ensures DenseAt(u, k) {
      assert u[..k] == t[..k];
      assert t[..|t|] == t;
      if k < |t| { assert DenseAt(t, k); }
    }
  }

  // Everything terminal about a case that must run was retryable.
  lemma {:induction false} MustRunMeansRetryable(t: Table, c: string, retry: bool)
    requires Dense(t) && OnlyRetried(t) && MustRun(t, c, retry)
    ensures forall j :: 0 <= j < |t| && t[j].caseId == c && t[j].status.Terminal? ==>
              retry && Retryable(t[j].status.record.outcome)
  {
    var k := LatestIsLast(t, c);
  }

  lemma {:induction false} BeginKeeps(cases: seq<string>, t: Table, id: string, c: string, retry: bool)
    requires TableOk(cases, t) && NoneRunning(t) && c in cases && MustRun(t, c, retry) && !IdInUse(t, id)
    ensures TableOk(cases, Begun(t, id, c)) && Evolves(t, Begun(t, id, c))
  {
    BegunIsDense(t, id, c);
    MustRunMeansRetryable(t, c, retry);
    forall k | 0 <= k < |t| ensures t[k].id != id { assert !IdInUse(t, id); }
  }

  lemma {:induction false} LatestOfBegun(t: Table, id: string, c: string, d: string)
    ensures LatestTerminal(Begun(t, id, c), d) == LatestTerminal(t, d)
  {
    var u := Begun(t, id, c);
    assert u[..|u| - 1] == t;
  }

  // A table whose last row is the running attempt `id`.
  ghost predicate RunningLast(cases: seq<string>, t: Table, id: string) {
    TableOk(cases, t) && t != [] && t[|t| - 1].id == id && t[|t| - 1].status.Running?
  }

  lemma {:induction false} FinishedRows(cases: seq<string>, t: Table, id: string, record: Record)
    requires RunningLast(cases, t, id)
    ensures Finished(t, id, record) == t[..|t| - 1] + [t[|t| - 1].(status := Terminal(record))]
  {
  }

  lemma {:induction false} FinishKeeps(cases: seq<string>, t: Table, id: string, record: Record)
    requires RunningLast(cases, t, id)
    ensures var u := Finished(t, id, record); TableOk(cases, u) && NoneRunning(u) && Evolves(t, u)
  {
    DenseOfSameKeys(t, Finished(t, id, record));
  }

  // The attempt that finished is the latest terminal one of its case; other cases are as before.
  lemma {:induction false} LatestOfFinished(cases: seq<string>, t: Table, id: string, record: Record, c: string)
    requires RunningLast(cases, t, id)
    ensures LatestTerminal(Finished(t, id, record), c) ==
            if c == t[|t| - 1].caseId then Some(t[|t| - 1].(status := Terminal(record))) else LatestTerminal(t, c)
  {
    var n := |t| - 1;
    FinishedRows(cases, t, id, record);
    assert Finished(t, id, record)[..n] == t[..n];
    assert DenseAt(t, n);
    DensePrefix(t, n);
    if c == t[n].caseId { var k := LatestIsLast(t[..n], c); }
  }

  // A case outside the rows that were added is judged as it was at the start of the invocation.
  lemma {:induction false} UntouchedCase(t: Table, base: Table, cases: seq<string>, i: nat, retry: bool)
    requires Distinct(cases) && i < |cases|
    requires Added(t, base, Needed(base, cases, i, retry))
    ensures LatestTerminal(t, cases[i]) == LatestTerminal(base, cases[i])
  {
    forall k | |base| <= k < |t| ensures t[k].caseId != cases[i] {
      assert t[k] == t[|base|..][k - |base|];
      assert t[k].caseId == CaseIds(t[|base|..])[k - |base|];
      NeededCases(base, cases, i, retry, t[k].caseId);
    }
    LatestOfUntouched(base, t, cases[i]);
  }

  lemma {:induction false} ReuseStep(cases: seq<string>, s: State, u: State)
    requires Distinct(cases) && Inv(cases, s) && Takes(cases, s, Reuse, u)
    ensures Inv(cases, u)
  {
    var i := s.phase.i;
    UntouchedCase(s.attempts, s.phase.base, cases, i, s.phase.retry);
    assert cases[..i + 1] == cases[..i] + [cases[i]];
  }

  lemma {:induction false} AddedBegun(t: Table, base: Table, wanted: seq<string>, id: string, c: string)
    requires Added(t, base, wanted)
    ensures Added(Begun(t, id, c), base, wanted + [c])
  {
    var u := Begun(t, id, c);
    assert u[|base|..] == t[|base|..] + [u[|t|]];
  }

  lemma {:induction false} AddedFinished(t: Table, base: Table, wanted: seq<string>, record: Record)
    requires Added(t, base, wanted) && |base| < |t|
    ensures Added(t[..|t| - 1] + [t[|t| - 1].(status := Terminal(record))], base, wanted)
  {
    var u := t[..|t| - 1] + [t[|t| - 1].(status := Terminal(record))];
    assert u[..|base|] == t[..|base|];
    assert CaseIds(u[|base|..]) == CaseIds(t[|base|..]);
  }

  lemma {:induction false} TerminalAfterBegin(t: Table, cases: seq<string>, id: string, c: string, retry: bool)
    requires AllTerminal(t, cases) && MustRun(t, c, retry)
    ensures AllTerminal(Begun(t, id, c), cases) && MustRun(Begun(t, id, c), c, retry)
  {
    forall d ensures LatestTerminal(Begun(t, id, c), d) == LatestTerminal(t, d) { LatestOfBegun(t, id, c, d); }
  }

  lemma {:induction false} BeginStep(cases: seq<string>, s: State, id: string, u: State)
    requires Distinct(cases) && Inv(cases, s) && Takes(cases, s, Begin(id), u)
    ensures Inv(cases, u) && Evolves(s.attempts, u.attempts)
  {
    var t, base, i := s.attempts, s.phase.base, s.phase.i;
    BeginKeeps(cases, t, id, cases[i], s.phase.retry);
    UntouchedCase(t, base, cases, i, s.phase.retry);
    TerminalAfterBegin(t, cases[..i], id, cases[i], s.phase.retry);
    AddedBegun(t, base, Needed(base, cases, i, s.phase.retry), id, cases[i]);
  }

  lemma {:induction false} TerminalAfterFinish(cases: seq<string>, t: Table, i: nat, id: string, record: Record)
    requires RunningLast(cases, t, id)
    requires i < |cases| && t[|t| - 1].caseId == cases[i] && AllTerminal(t, cases[..i])
    ensures AllTerminal(Finished(t, id, record), cases[..i + 1])
  {
    forall c ensures HasTerminal(Finished(t, id, record), c) <==> HasTerminal(t, c) || c == cases[i] {
      LatestOfFinished(cases, t, id, record, c);
    }
    assert cases[..i + 1] == cases[..i] + [cases[i]];
  }

  lemma {:induction false} AddedAfterFinish(cases: seq<string>, t: Table, base: Table, wanted: seq<string>, c: string,
                                            id: string, record: Record)
    requires RunningLast(cases, t, id) && Added(t, base, wanted + [c])
    ensures Added(Finished(t, id, record), base, wanted + [c])
  {
    FinishedRows(cases, t, id, record);
    assert |CaseIds(t[|base|..])| > 0;
    AddedFinished(t, base, wanted + [c], record);
  }

  lemma {:induction false} FinishStep(cases: seq<string>, s: State, record: Record, u: State)
    requires Distinct(cases) && Inv(cases, s) && Takes(cases, s, Finish(record), u)
    ensures Inv(cases, u) && Evolves(s.attempts, u.attempts)
  {
    var t, base, i, id := s.attempts, s.phase.base, s.phase.i, s.phase.id;
    FinishKeeps(cases, t, id, record);
    TerminalAfterFinish(cases, t, i, id, record);
    AddedAfterFinish(cases, t, base, Needed(base, cases, i, s.phase.retry), cases[i], id, record);
  }

  /** Every step of every history keeps the journal's invariant, keeps every terminal row, and only
      adds rows. */
  lemma {:induction false} StepKeepsJournal(cases: seq<string>, s: State, step: Step, u: State)
    requires Distinct(cases) && Inv(cases, s) && Takes(cases, s, step, u)
    ensures Inv(cases, u) && Evolves(s.attempts, u.attempts)
  {
    match step
    case Recover(_) => RecoverKeeps(cases, s.attempts);
    case Mark => assert s.attempts[|s.attempts|..] == [];
    case Reuse => ReuseStep(cases, s, u);
    case Begin(id) => BeginStep(cases, s, id, u);
    case Finish(record) => FinishStep(cases, s, record, u);
    case Complete => assert cases[..|cases|] == cases;
    case Crash =>
  }

  // ----- whole histories -----

  /** `steps` leads from s to u, each step being one that `allowed` admits where it is taken. */
  ghost predicate Leads(cases: seq<string>, allowed: (State, Step) -> bool, s: State, steps: seq<Step>, u: State)
    decreases |steps|
  {
    if steps == [] then s == u
    else
      var n := |steps| - 1;
      var before, last := steps[..n], steps[n];
      exists m :: Leads(cases, allowed, s, before, m) && allowed(m, last) && Takes(cases, m, last, u)
  }

  const FRESH: State := State([], false, Idle)

  lemma {:induction false} EvolvesTransitively(t: Table, u: Table, v: Table)
    requires Evolves(t, u) && Evolves(u, v)
    ensures Evolves(t, v)
  {
  }

  /** Over every history, from any sound state: the journal stays sound, no row is removed or
      renumbered, and no terminal row changes. */
  lemma {:induction false} HistoriesAreSafe(cases: seq<string>, allowed: (State, Step) -> bool, s: State,
                                            steps: seq<Step>, u: State)
    requires Distinct(cases) && Inv(cases, s) && Leads(cases, allowed, s, steps, u)
    ensures Inv(cases, u) && Evolves(s.attempts, u.attempts)
    decreases |steps|
  {
    if steps != [] {
      var n := |steps| - 1;
      var m :| Leads(cases, allowed, s, steps[..n], m) && allowed(m, steps[n]) && Takes(cases, m, steps[n], u);
      HistoriesAreSafe(cases, allowed, s, steps[..n], m);
      StepKeepsJournal(cases, m, steps[n], u);
      EvolvesTransitively(s.attempts, m.attempts, u.attempts);
    }
  }

  /** What soundness says about the rows: the ordinals of a case count 0, 1, 2, ...; at most one
      attempt is running; an attempt begun after a terminal one retries a retryable outcome. */
  lemma {:induction false} SoundRows(cases: seq<string>, allowed: (State, Step) -> bool, steps: seq<Step>, u: State)
    requires Distinct(cases) && Leads(cases, allowed, FRESH, steps, u)
    ensures var t := u.attempts;
            && (forall k :: 0 <= k < |t| ==> t[k].ordinal == Rows(t[..k], t[k].caseId))
            && (forall j, k :: 0 <= j < |t| && 0 <= k < |t| && t[j].status.Running? && t[k].status.Running? ==> j == k)
            && (forall j, k :: 0 <= j < k < |t| && t[j].caseId == t[k].caseId && t[j].status.Terminal? ==>
                  Retryable(t[j].status.record.outcome))
  {
    HistoriesAreSafe(cases, allowed, FRESH, steps, u);
    forall k | 0 <= k < |u.attempts| ensures u.attempts[k].ordinal == Rows(u.attempts[..k], u.attempts[k].caseId) {
      assert DenseAt(u.attempts, k);
    }
  }

  /** One uninterrupted invocation adds exactly one attempt for each case that had to run, in case
      order, and none for any other case. */
  lemma {:induction false} InvocationRunsWhatIsNeeded(cases: seq<string>, allowed: (State, Step) -> bool,
                                                      steps: seq<Step>, u: State)
    requires Distinct(cases) && Leads(cases, allowed, FRESH, steps, u)
    requires u.phase.AtCase? && u.phase.i == |cases|
    ensures var base := u.phase.base;
            && |base| <= |u.attempts| && u.attempts[..|base|] == base
            && CaseIds(u.attempts[|base|..]) == Needed(base, cases, |cases|, u.phase.retry)
            && AllTerminal(u.attempts, cases)
  {
    HistoriesAreSafe(cases, allowed, FRESH, steps, u);
    assert cases[..|cases|] == cases;
  }

  /** Which cases an invocation runs: those without a terminal attempt and, with retrying on, those whose last
      terminal attempt failed before scoring could judge it. */
  lemma {:induction false} MustRunIff(t: Table, c: string, retry: bool)
    requires Dense(t)
    ensures MustRun(t, c, retry) <==>
            || (forall k :: 0 <= k < |t| && t[k].caseId == c ==> !t[k].status.Terminal?)
            || (retry && exists k: nat :: LastTerminal(t, c, k)
                                     && t[k].status.record.outcome in {UpstreamFailure, ToolFailure, OracleFailure})
  {
    var k := LatestIsLast(t, c);
    if HasTerminal(t, c) { assert LastTerminal(t, c, k); }
  }

  // Row k is the last terminal one of the case.
  ghost predicate LastTerminal(t: Table, c: string, k: nat) {
    && k < |t| && t[k].caseId == c && t[k].status.Terminal?
    && forall j :: k < j < |t| && t[j].caseId == c ==> !t[j].status.Terminal?
  }

  // ----- the reconciliation check -----

  lemma {:induction false} TerminalCasesAreExact(t: Table, c: string)
    requires Dense(t)
    ensures c in TerminalCases(t) <==> HasTerminal(t, c)
  {
    var k := LatestIsLast(t, c);
    if c in TerminalCases(t) {
      var a :| a in t && a.status.Terminal? && a.caseId == c;
      var j :| 0 <= j < |t| && t[j] == a;
    }
  }

  lemma {:induction false} DistinctCardinality(cases: seq<string>, all: set<string>)
    requires Distinct(cases) && forall c :: c in all <==> c in cases
    ensures |all| == |cases|
  {
    if cases == [] {
      assert all == {};
    } else {
      assert forall c :: c in cases <==> c == cases[0] || c in cases[1..];
      DistinctCardinality(cases[1..], all - {cases[0]});
    }
  }

  lemma {:induction false} TerminalCasesReconcile(cases: seq<string>, t: Table)
    requires Distinct(cases) && TableOk(cases, t) && AllTerminal(t, cases)
    ensures |TerminalCases(t)| == |cases|
  {
    forall c ensures c in TerminalCases(t) <==> c in cases {
      TerminalCasesAreExact(t, c);
      if c in TerminalCases(t) {
        var a :| a in t && a.status.Terminal? && a.caseId == c;
        var j :| 0 <= j < |t| && t[j] == a;
        assert t[j].caseId in cases;
      }
    }
    DistinctCardinality(cases, TerminalCases(t));
  }

  /** The check at the end of an invocation never fails: once every case has been visited, the number
      of cases with a terminal attempt is the number of cases. */
  lemma {:induction false} ReconciliationNeverFails(cases: seq<string>, allowed: (State, Step) -> bool,
                                                    steps: seq<Step>, u: State)
    requires Distinct(cases) && Leads(cases, allowed, FRESH, steps, u)
    requires u.phase.AtCase? && u.phase.i == |cases|
    ensures |TerminalCases(u.attempts)| == |cases|
  {
    HistoriesAreSafe(cases, allowed, FRESH, steps, u);
    assert cases[..|cases|] == cases;
    TerminalCasesReconcile(cases, u.attempts);
  }

  /** The stored run status is honest, over every history and wherever it died: a run that is marked
      completed has a terminal attempt for every case and no running one, and an invocation that has
      reached a case has marked the run as running. */
  lemma {:induction false} CompletedStatusIsHonest(cases: seq<string>, allowed: (State, Step) -> bool,
                                                   steps: seq<Step>, u: State)
    requires Distinct(cases) && Leads(cases, allowed, FRESH, steps, u)
    ensures u.completed ==> |TerminalCases(u.attempts)| == |cases| && AllTerminal(u.attempts, cases)
                            && NoneRunning(u.attempts)
    ensures u.phase.AtCase? || u.phase.Executing? ==> !u.completed
  {
    HistoriesAreSafe(cases, allowed, FRESH, steps, u);
    if u.completed { TerminalCasesReconcile(cases, u.attempts); }
  }

  // ----- retrying off -----

  // No attempt follows a terminal attempt of its case.
  ghost predicate NothingFollows(t: Table) {
    forall j, k :: 0 <= j < k < |t| && t[j].caseId == t[k].caseId ==> !t[j].status.Terminal?
  }

  ghost predicate RetryOff(s: State) { s.phase.Idle? || !s.phase.retry }

  lemma {:induction false} RetryOffStep(cases: seq<string>, s: State, step: Step, u: State)
    requires Distinct(cases) && Inv(cases, s) && Takes(cases, s, step, u) && step != Recover(true)
    requires RetryOff(s) && NothingFollows(s.attempts)
    ensures RetryOff(u) && NothingFollows(u.attempts)
  {
    if step.Begin? {
      MustRunMeansRetryable(s.attempts, cases[s.phase.i], false);
    }
    if step.Finish? {
      FinishedRows(cases, s.attempts, s.phase.id, step.record);
    }
  }

  lemma {:induction false} RetryOffHistory(cases: seq<string>, allowed: (State, Step) -> bool, steps: seq<Step>,
                                           u: State)
    requires Distinct(cases) && Leads(cases, allowed, FRESH, steps, u)
    requires forall s :: !allowed(s, Recover(true))
    ensures RetryOff(u) && NothingFollows(u.attempts)
    decreases |steps|
  {
    if steps != [] {
      var n := |steps| - 1;
      var m :| Leads(cases, allowed, FRESH, steps[..n], m) && allowed(m, steps[n]) && Takes(cases, m, steps[n], u);
      RetryOffHistory(cases, allowed, steps[..n], m);
      HistoriesAreSafe(cases, allowed, FRESH, steps[..n], m);
      RetryOffStep(cases, m, steps[n], u);
    }
  }

  ghost predicate OnlyTerminal(t: Table, c: string, k: nat) {
    && k < |t| && t[k].caseId == c && t[k].status.Terminal?
    && forall j :: 0 <= j < |t| && t[j].caseId == c && t[j].status.Terminal? ==> j == k
  }

  /** With retrying off, whatever was interrupted on the way, a completed run holds exactly one
      terminal attempt for every case. */
  lemma {:induction false} RetryOffRunsEachCaseOnce(cases: seq<string>, allowed: (State, Step) -> bool,
                                                    steps: seq<Step>, u: State, c: string)
    requires Distinct(cases) && Leads(cases, allowed, FRESH, steps, u)
    requires forall s :: !allowed(s, Recover(true))
    requires u.completed && c in cases
    ensures exists k :: OnlyTerminal(u.attempts, c, k)
  {
    HistoriesAreSafe(cases, allowed, FRESH, steps, u);
    RetryOffHistory(cases, allowed, steps, u);
    var k := LatestIsLast(u.attempts, c);
    assert HasTerminal(u.attempts, c);
    assert OnlyTerminal(u.attempts, c, k);
  }

  // ----- running a completed run again -----

  ghost predicate Settled(t: Table, cases: seq<string>, retry: bool) {
    NoneRunning(t) && forall k :: 0 <= k < |cases| ==> !MustRun(t, cases[k], retry)
  }

  /** When no case has to run, no further history, with retries only if that was already so for
      retries, adds or changes a row. */
  lemma {:induction false} SettledRunsExecuteNothing(cases: seq<string>, allowed: (State, Step) -> bool, s: State,
                                                     steps: seq<Step>, u: State, retry: bool)
    requires Leads(cases, allowed, s, steps, u) && s.phase.Idle? && Settled(s.attempts, cases, retry)
    requires retry || forall m :: !allowed(m, Recover(true))
    ensures u.attempts == s.attempts && !u.phase.Executing? && (retry || RetryOff(u))
    decreases |steps|
  {
    if steps != [] {
      var n := |steps| - 1;
      var m :| Leads(cases, allowed, s, steps[..n], m) && allowed(m, steps[n]) && Takes(cases, m, steps[n], u);
      SettledRunsExecuteNothing(cases, allowed, s, steps[..n], m, retry);
      if steps[n].Recover? { assert Recovered(m.attempts) == m.attempts; }
    }
  }

  /** A completed run is settled for an ordinary rerun, and for a retrying one exactly when no latest
      outcome is retryable. */
  lemma {:induction false} CompletedIsSettled(cases: seq<string>, s: State)
    requires Inv(cases, s) && s.completed
    ensures Settled(s.attempts, cases, false)
    ensures Settled(s.attempts, cases, true) <==>
            forall k :: 0 <= k < |cases| ==>
              !Retryable(LatestTerminal(s.attempts, cases[k]).value.status.record.outcome)
  {
    forall k | 0 <= k < |cases| ensures HasTerminal(s.attempts, cases[k]) { assert cases[k] in cases; }
  }

  // ----- what the records say -----

  ghost predicate AllGood(t: Table, good: (string, Record) -> bool) {
    forall k :: 0 <= k < |t| && t[k].status.Terminal? ==> good(t[k].caseId, t[k].status.record)
  }

  ghost predicate Records(cases: seq<string>, allowed: (State, Step) -> bool, good: (string, Record) -> bool) {
    forall s, record :: allowed(s, Finish(record)) && s.phase.Executing? && s.phase.i < |cases| ==>
      good(cases[s.phase.i], record)
  }

  lemma {:induction false} RecordsStep(cases: seq<string>, good: (string, Record) -> bool, s: State, step: Step,
                                       u: State)
    requires Inv(cases, s) && Takes(cases, s, step, u) && AllGood(s.attempts, good)
    requires step.Finish? && s.phase.Executing? ==> good(cases[s.phase.i], step.record)
    ensures AllGood(u.attempts, good)
  {
    if step.Finish? { FinishedRows(cases, s.attempts, s.phase.id, step.record); }
  }

  /** A property of every recorded result holds of every terminal row, whatever the history, when it holds of
      those at its start. */
  lemma {:induction false} RecordsStayGood(cases: seq<string>, allowed: (State, Step) -> bool,
                                           good: (string, Record) -> bool, s: State, steps: seq<Step>, u: State)
    requires Distinct(cases) && Inv(cases, s) && Leads(cases, allowed, s, steps, u) && Records(cases, allowed, good)
    requires AllGood(s.attempts, good)
    ensures AllGood(u.attempts, good)
    decreases |steps|
  {
    if steps != [] {
      var n := |steps| - 1;
      var m :| Leads(cases, allowed, s, steps[..n], m) && allowed(m, steps[n]) && Takes(cases, m, steps[n], u);
      RecordsStayGood(cases, allowed, good, s, steps[..n], m);
      HistoriesAreSafe(cases, allowed, s, steps[..n], m);
      RecordsStep(cases, good, m, steps[n], u);
    }
  }

  /** The latest results of a completed run cover the cases exactly, and each is a recorded result of
      its case. */
  lemma {:induction false} CompletedResults(cases: seq<string>, allowed: (State, Step) -> bool,
                                            good: (string, Record) -> bool, s: State, steps: seq<Step>, u: State)
    requires Distinct(cases) && Inv(cases, s) && Leads(cases, allowed, s, steps, u) && Records(cases, allowed, good)
    requires AllGood(s.attempts, good) && u.completed
    ensures forall c :: c in LatestResults(u.attempts) <==> c in cases
    ensures forall c :: c in LatestResults(u.attempts) ==> good(c, LatestResults(u.attempts)[c])
  {
    HistoriesAreSafe(cases, allowed, s, steps, u);
    RecordsStayGood(cases, allowed, good, s, steps, u);
    forall c
      ensures c in LatestResults(u.attempts) <==> c in cases
      ensures c in LatestResults(u.attempts) ==> good(c, LatestResults(u.attempts)[c])
    {
      TerminalCasesAreExact(u.attempts, c);
      var k := LatestIsLast(u.attempts, c);
      if HasTerminal(u.attempts, c) { assert u.attempts[k].caseId in cases; }
    }
  }

  /** Interruptions are invisible: when the tools are deterministic, every history that completes has
      the same latest results as one uninterrupted run, namely each case's own result. */
  lemma {:induction false} InterruptionsAreInvisible(cases: seq<string>, allowed: (State, Step) -> bool,
                                                     result: string -> Record, s: State, steps: seq<Step>, u: State)
    requires Distinct(cases) && Inv(cases, s) && Leads(cases, allowed, s, steps, u)
    requires Records(cases, allowed, (c, record) => record == result(c))
    requires AllGood(s.attempts, (c, record) => record == result(c)) && u.completed
    ensures LatestResults(u.attempts) == map c | c in cases :: result(c)
  {
    CompletedResults(cases, allowed, (c, record) => record == result(c), s, steps, u);
  }

  // ----- the run loop -----

  datatype RunError = Died | NotReconciled | Refused(error: JournalError)

  datatype Progress = Progress(executed: nat, reused: nat, failed: nat)

  /** What the tools make of an attempt of a case, or None when the process dies while they run. */
  type Execution = (string, nat) -> Option<Record>

  // The attempt that is running: its case and its ordinal among the attempts of the case.
  ghost predicate RunsAttempt(cases: seq<string>, s: State, c: string, ordinal: nat) {
    && s.phase.Executing? && s.phase.i < |cases| && cases[s.phase.i] == c
    && s.attempts != [] && s.attempts[|s.attempts| - 1].ordinal == ordinal
  }

  /** The steps of a runner over these tools: what finishes an attempt is what the tools made of it. */
  ghost function Tools(cases: seq<string>, execute: Execution): (State, Step) -> bool {
    (s: State, step: Step) => step.Finish? ==>
      exists c, ordinal: nat :: RunsAttempt(cases, s, c, ordinal) && execute(c, ordinal) == Some(step.record)
  }

  lemma {:induction false} ToolsRecord(cases: seq<string>, execute: Execution, good: (string, Record) -> bool)
    requires forall c, ordinal: nat :: c in cases && execute(c, ordinal).Some? ==> good(c, execute(c, ordinal).value)
    ensures Records(cases, Tools(cases, execute), good)
  {
  }

  // The row holds what the tools made of its own attempt.
  ghost predicate Executed(execute: Execution, a: Attempt) {
    a.status.Terminal? && execute(a.caseId, a.ordinal) == Some(a.status.record)
  }

  // The step over the tools that makes a row terminal.
  lemma {:induction false} FinishedIsExecuted(cases: seq<string>, execute: Execution, s: State, step: Step, u: State,
                                              k: nat)
    requires Inv(cases, s) && Tools(cases, execute)(s, step) && Takes(cases, s, step, u)
    requires k < |u.attempts| && u.attempts[k].status.Terminal?
    requires k < |s.attempts| ==> !s.attempts[k].status.Terminal?
    ensures Executed(execute, u.attempts[k])
  {
    if step.Finish? { FinishedRows(cases, s.attempts, s.phase.id, step.record); }
  }

  /** Every row that becomes terminal in a history over the tools holds what they made of its case and
      ordinal. */
  lemma {:induction false} RowsAreExecuted(cases: seq<string>, execute: Execution, s: State, steps: seq<Step>, u: State,
                                           k: nat)
    requires Distinct(cases) && Inv(cases, s) && Leads(cases, Tools(cases, execute), s, steps, u)
    requires k < |u.attempts| && u.attempts[k].status.Terminal?
    requires k < |s.attempts| ==> !s.attempts[k].status.Terminal?
    ensures Executed(execute, u.attempts[k])
    decreases |steps|
  {
    if steps != [] {
      var n, allowed := |steps| - 1, Tools(cases, execute);
      var m :| Leads(cases, allowed, s, steps[..n], m) && allowed(m, steps[n]) && Takes(cases, m, steps[n], u);
      HistoriesAreSafe(cases, allowed, s, steps[..n], m);
      if k < |m.attempts| && m.attempts[k].status.Terminal? {
        RowsAreExecuted(cases, execute, s, steps[..n], m, k);
        StepKeepsJournal(cases, m, steps[n], u);
      } else {
        FinishedIsExecuted(cases, execute, m, steps[n], u, k);
      }
    }
  }

  lemma {:induction false} NewRowsAreExecuted(cases: seq<string>, execute: Execution, s: State, steps: seq<Step>,
                                              u: State)
    requires Distinct(cases) && Inv(cases, s) && Leads(cases, Tools(cases, execute), s, steps, u)
    ensures |s.attempts| <= |u.attempts|
    ensures forall k :: |s.attempts| <= k < |u.attempts| && u.attempts[k].status.Terminal? ==>
              Executed(execute, u.attempts[k])
  {
    HistoriesAreSafe(cases, Tools(cases, execute), s, steps, u);
    forall k | |s.attempts| <= k < |u.attempts| && u.attempts[k].status.Terminal?
      ensures Executed(execute, u.attempts[k])
    {
      RowsAreExecuted(cases, execute, s, steps, u, k);
    }
  }

  /** Deterministic tools make every completed run end with each case's own result, from any sound journal that
      holds no other results: the history of one invocation is such a history. */
  lemma {:induction false} DeterministicRun(cases: seq<string>, execute: Execution, result: string -> Record, s: State,
                                            steps: seq<Step>, u: State)
    requires Distinct(cases) && Inv(cases, s) && Leads(cases, Tools(cases, execute), s, steps, u) && u.completed
    requires forall c, ordinal: nat :: c in cases && execute(c, ordinal).Some? ==>
               execute(c, ordinal).value == result(c)
    requires AllGood(s.attempts, (c, record) => record == result(c))
    ensures LatestResults(u.attempts) == map c | c in cases :: result(c)
  {
    ToolsRecord(cases, execute, (c, record) => record == result(c));
    InterruptionsAreInvisible(cases, Tools(cases, execute), result, s, steps, u);
  }

  // The rows whose attempt failed before or in scoring.
  predicate FailedAttempt(a: Attempt) {
    && a.status.Terminal?
    && a.status.record.outcome in {UpstreamFailure, SemanticIneligible, ToolFailure, OracleFailure}
  }

  function FailedAttempts(t: Table): nat {
    if t == [] then 0 else FailedAttempts(t[..|t| - 1]) + if FailedAttempt(t[|t| - 1]) then 1 else 0
  }

  // These steps of the runner lead from `start` to s.
  ghost predicate Reached(cases: seq<string>, execute: Execution, start: State, steps: seq<Step>, s: State) {
    Leads(cases, Tools(cases, execute), start, steps, s)
  }

  lemma {:induction false} ReachedNext(cases: seq<string>, execute: Execution, s: State, steps: seq<Step>, m: State,
                                       step: Step, u: State)
    requires Reached(cases, execute, s, steps, m) && Takes(cases, m, step, u)
    requires step.Finish? ==> exists c, ordinal: nat ::
               RunsAttempt(cases, m, c, ordinal) && execute(c, ordinal) == Some(step.record)
    ensures Reached(cases, execute, s, steps + [step], u)
  {
    assert (steps + [step])[..|steps|] == steps;
  }

  lemma {:induction false} ReachedReuse(cases: seq<string>, execute: Execution, start: State, steps: seq<Step>,
                                        t: Table, completed: bool, retry: bool, base: Table, i: nat)
    requires i < |cases| && !MustRun(t, cases[i], retry)
    requires Reached(cases, execute, start, steps, State(t, completed, AtCase(retry, base, i)))
    ensures Reached(cases, execute, start, steps + [Reuse], State(t, completed, AtCase(retry, base, i + 1)))
  {
    ReachedNext(cases, execute, start, steps, State(t, completed, AtCase(retry, base, i)), Reuse,
                State(t, completed, AtCase(retry, base, i + 1)));
  }

  lemma {:induction false} ReachedBegin(cases: seq<string>, execute: Execution, start: State, steps: seq<Step>,
                                        t: Table, completed: bool, retry: bool, base: Table, i: nat, id: string)
    requires i < |cases| && MustRun(t, cases[i], retry) && !IdInUse(t, id)
    requires Reached(cases, execute, start, steps, State(t, completed, AtCase(retry, base, i)))
    ensures Reached(cases, execute, start, steps + [Step.Begin(id)],
                    State(Begun(t, id, cases[i]), completed, Executing(retry, base, i, id)))
  {
    ReachedNext(cases, execute, start, steps, State(t, completed, AtCase(retry, base, i)), Step.Begin(id),
                State(Begun(t, id, cases[i]), completed, Executing(retry, base, i, id)));
  }

  lemma {:induction false} ReachedFinish(cases: seq<string>, execute: Execution, start: State, steps: seq<Step>,
                                         t: Table, completed: bool, retry: bool, base: Table, i: nat, id: string,
                                         record: Record)
    requires Reached(cases, execute, start, steps, State(t, completed, Executing(retry, base, i, id)))
    requires i < |cases| && t != [] && execute(cases[i], t[|t| - 1].ordinal) == Some(record)
    ensures Reached(cases, execute, start, steps + [Step.Finish(record)],
                    State(Finished(t, id, record), completed, AtCase(retry, base, i + 1)))
  {
    assert RunsAttempt(cases, State(t, completed, Executing(retry, base, i, id)), cases[i], t[|t| - 1].ordinal);
    ReachedNext(cases, execute, start, steps, State(t, completed, Executing(retry, base, i, id)), Step.Finish(record),
                State(Finished(t, id, record), completed, AtCase(retry, base, i + 1)));
  }

  lemma {:induction false} ReachedCrash(cases: seq<string>, execute: Execution, start: State, steps: seq<Step>,
                                        s: State)
    requires Reached(cases, execute, start, steps, s)
    ensures Reached(cases, execute, start, steps + [Crash], State(s.attempts, s.completed, Idle))
  {
    ReachedNext(cases, execute, start, steps, s, Crash, State(s.attempts, s.completed, Idle));
  }

  lemma {:induction false} FinishedOnlyLast(before: Table, t: Table, id: string, record: Record)
    requires |t| == |before| + 1 && t[..|before|] == before && !IdInUse(before, id)
    requires t[|before|].id == id && t[|before|].status.Running?
    ensures Finished(t, id, record) == before + [t[|before|].(status := Terminal(record))]
  {
    var u := Finished(t, id, record);
    forall k | 0 <= k < |before| ensures u[k] == before[k] { assert t[k] == before[k] && before[k].id != id; }
  }

  // The table is `before` and a row with this record of the tools for this case.
  ghost predicate OneExecuted(execute: Execution, t: Table, before: Table, c: string, record: Record) {
    exists a :: t == before + [a] && a.caseId == c && Executed(execute, a) && a.status.record == record
  }

  lemma {:induction false} FinishedAttempt(execute: Execution, before: Table, id: string, c: string, record: Record)
    requires !IdInUse(before, id) && execute(c, NextOrdinal(before, c)) == Some(record)
    ensures OneExecuted(execute, Finished(Begun(before, id, c), id, record), before, c, record)
  {
    var t := Begun(before, id, c);
    FinishedOnlyLast(before, t, id, record);
    var a := t[|before|].(status := Terminal(record));
    assert Finished(t, id, record) == before + [a] && Executed(execute, a);
  }

  // The visit of one case: the record of the attempt that was executed, or None when an earlier
  // result is reused.
  method VisitCase(journal: ExecutionJournal, cases: seq<string>, i: nat, retry: bool, newId: nat -> string,
                   execute: Execution, ghost base: Table, ghost start: State,
                   ghost before: seq<Step>)
      returns (r: Result<Option<Record>, RunError>, ghost steps: seq<Step>)
    requires i < |cases|
    requires Reached(cases, execute, start, before, State(journal.attempts, journal.completed, AtCase(retry, base, i)))
    modifies journal
    ensures r.Err? ==> r.error != NotReconciled
                       && Reached(cases, execute, start, steps, State(journal.attempts, journal.completed, Idle))
    ensures r.Ok? ==> Reached(cases, execute, start, steps,
                            State(journal.attempts, journal.completed, AtCase(retry, base, i + 1)))
    ensures r.Ok? && r.value.None? ==> journal.attempts == old(journal.attempts)
    ensures r.Ok? && r.value.Some? ==>
              OneExecuted(execute, journal.attempts, old(journal.attempts), cases[i], r.value.value)
  {
    ghost var t, completed := journal.attempts, journal.completed;
    steps := before;
    var previous := journal.FindLatestTerminal(cases[i]);
    if previous.Some? && !(retry && Retryable(previous.value.status.record.outcome)) {
      ReachedReuse(cases, execute, start, steps, t, completed, retry, base, i);
      return Ok(None), steps + [Reuse];
    }
    var id := newId(|journal.attempts|);
    var ordinal := journal.Begin(id, cases[i]);
    if ordinal.Err? {
      ReachedCrash(cases, execute, start, steps, State(t, completed, AtCase(retry, base, i)));
      return Err(Refused(ordinal.error)), steps + [Crash];
    }
    ReachedBegin(cases, execute, start, steps, t, completed, retry, base, i, id);
    steps := steps + [Step.Begin(id)];
    t := journal.attempts;
    var record := execute(cases[i], ordinal.value);
    if record.None? {
      ReachedCrash(cases, execute, start, steps, State(t, completed, Executing(retry, base, i, id)));
      return Err(Died), steps + [Crash];
    }
    assert t[|t| - 1].id == id && t[|t| - 1].status.Running?;
    ReachedFinish(cases, execute, start, steps, t, completed, retry, base, i, id, record.value);
    FinishedAttempt(execute, old(journal.attempts), id, cases[i], record.value);
    var finished := journal.Finish(id, record.value);
    assert finished.Ok?;
    return Ok(record), steps + [Step.Finish(record.value)];
  }

  lemma {:induction false} ReachedFirstCase(cases: seq<string>, execute: Execution, start: State, retry: bool)
    requires start.phase.Idle?
    ensures Reached(cases, execute, start, [] + [Recover(retry)] + [Mark],
                  State(Recovered(start.attempts), false, AtCase(retry, Recovered(start.attempts), 0)))
  {
    var base := Recovered(start.attempts);
    var m := State(base, start.completed, Recovering(retry, base));
    ReachedNext(cases, execute, start, [], start, Recover(retry), m);
    ReachedNext(cases, execute, start, [] + [Recover(retry)], m, Mark, State(base, false, AtCase(retry, base, 0)));
  }

  lemma {:induction false} AfterLastCase(cases: seq<string>, execute: Execution, start: State, steps: seq<Step>,
                                         t: Table, completed: bool, retry: bool, base: Table)
    requires Distinct(cases) && Inv(cases, start)
    requires Reached(cases, execute, start, steps, State(t, completed, AtCase(retry, base, |cases|)))
    ensures |TerminalCases(t)| == |cases| && Added(t, base, Needed(base, cases, |cases|, retry))
    ensures |t| - |base| == |Needed(base, cases, |cases|, retry)|
    ensures Reached(cases, execute, start, steps + [Complete], State(t, true, Idle))
  {
    var now := State(t, completed, AtCase(retry, base, |cases|));
    HistoriesAreSafe(cases, Tools(cases, execute), start, steps, now);
    assert cases[..|cases|] == cases;
    TerminalCasesReconcile(cases, t);
    assert |CaseIds(t[|base|..])| == |t| - |base|;
    ReachedNext(cases, execute, start, steps, now, Complete, State(t, true, Idle));
  }

  // The rows after `before` hold what the tools made of them, and are counted.
  ghost predicate Ran(execute: Execution, t: Table, before: Table, p: Progress) {
    && |before| <= |t| && t[..|before|] == before
    && (forall k :: |before| <= k < |t| ==> Executed(execute, t[k]))
    && p.executed == |t| - |before| && p.failed == FailedAttempts(t[|before|..])
  }

  lemma {:induction false} RanOneMore(execute: Execution, t: Table, before: Table, p: Progress, a: Attempt)
    requires Ran(execute, t, before, p) && Executed(execute, a)
    ensures Ran(execute, t + [a], before,
                p.(executed := p.executed + 1,
                   failed := p.failed + if OperationalFailure(a.status.record.outcome) then 1 else 0))
  {
    assert (t + [a])[..|before|] == t[..|before|];
    assert (t + [a])[|before|..] == t[|before|..] + [a];
    assert (t[|before|..] + [a])[..|t| - |before|] == t[|before|..];
  }

  lemma {:induction false} RanVisited(execute: Execution, t: Table, u: Table, before: Table, p: Progress, c: string,
                                      record: Record)
    requires Ran(execute, t, before, p)
    requires OneExecuted(execute, u, t, c, record)
    ensures Ran(execute, u, before,
                p.(executed := p.executed + 1,
                   failed := p.failed + if OperationalFailure(record.outcome) then 1 else 0))
  {
    var a :| u == t + [a] && a.caseId == c && Executed(execute, a) && a.status.record == record;
    RanOneMore(execute, t, before, p, a);
  }

  // The loop over the cases.
  method VisitCases(journal: ExecutionJournal, cases: seq<string>, retry: bool, newId: nat -> string,
                    execute: Execution, ghost base: Table, ghost start: State,
                    ghost before: seq<Step>)
      returns (r: Result<Progress, RunError>, ghost steps: seq<Step>)
    requires Reached(cases, execute, start, before, State(journal.attempts, journal.completed, AtCase(retry, base, 0)))
    modifies journal
    ensures r.Err? ==> r.error != NotReconciled
                       && Reached(cases, execute, start, steps, State(journal.attempts, journal.completed, Idle))
    ensures r.Ok? ==> Reached(cases, execute, start, steps,
                            State(journal.attempts, journal.completed, AtCase(retry, base, |cases|)))
    ensures r.Ok? ==> r.value.executed + r.value.reused == |cases|
                      && Ran(execute, journal.attempts, old(journal.attempts), r.value)
  {
    steps := before;
    var executed, reused, failed := 0, 0, 0;
    for i := 0 to |cases|
      invariant Reached(cases, execute, start, steps,
                      State(journal.attempts, journal.completed, AtCase(retry, base, i)))
      invariant executed + reused == i
      invariant Ran(execute, journal.attempts, old(journal.attempts), Progress(executed, reused, failed))
    {
      ghost var t := journal.attempts;
      var visited: Result<Option<Record>, RunError>;
      visited, steps := VisitCase(journal, cases, i, retry, newId, execute, base, start, steps);
      if visited.Err? { return Err(visited.error), steps; }
      if visited.value.None? {
        reused := reused + 1;
      } else {
        RanVisited(execute, t, journal.attempts, old(journal.attempts), Progress(executed, reused, failed),
                   cases[i], visited.value.value);
        executed := executed + 1;
        if OperationalFailure(visited.value.value.outcome) { failed := failed + 1; }
      }
    }
    return Ok(Progress(executed, reused, failed)), steps;
  }

  /** One invocation of the serial runner over a journal in a sound state.  `execute` is the tools'
      result for an attempt, or None when the process dies while they run; `newId` is the attempt id
      drawn for the next row.  The invocation is a history of the state machine; when it returns
      normally it has executed exactly the cases that had to run and reused the others; the
      reconciliation error never occurs. */
  method RunOnce(journal: ExecutionJournal, cases: seq<string>, retry: bool, newId: nat -> string,
                 execute: Execution)
      returns (r: Result<Progress, RunError>, ghost steps: seq<Step>)
    requires Distinct(cases) && Inv(cases, State(journal.attempts, journal.completed, Idle))
    modifies journal
    ensures Leads(cases, Tools(cases, execute), old(State(journal.attempts, journal.completed, Idle)), steps,
                    State(journal.attempts, journal.completed, Idle))
    ensures r != Err(NotReconciled)
    ensures |old(journal.attempts)| <= |journal.attempts|
    ensures r.Ok? ==>
              forall k :: |old(journal.attempts)| <= k < |journal.attempts| ==> Executed(execute, journal.attempts[k])
    ensures forall k :: |old(journal.attempts)| <= k < |journal.attempts| && journal.attempts[k].status.Terminal? ==>
              Executed(execute, journal.attempts[k])
    ensures r.Ok? ==>
              && journal.completed && r.value.executed + r.value.reused == |cases|
              && r.value.failed == FailedAttempts(journal.attempts[|old(journal.attempts)|..])
              && Added(journal.attempts, Recovered(old(journal.attempts)),
                       Needed(Recovered(old(journal.attempts)), cases, |cases|, retry))
              && r.value.executed == |Needed(Recovered(old(journal.attempts)), cases, |cases|, retry)|
  {
    ghost var start := State(journal.attempts, journal.completed, Idle);
    ghost var base := Recovered(journal.attempts);
    ReachedFirstCase(cases, execute, start, retry);
    var interrupted := journal.RecoverRunning();
    journal.MarkRunning();
    steps := [] + [Recover(retry)] + [Mark];
    r, steps := VisitCases(journal, cases, retry, newId, execute, base, start, steps);
    if r.Err? {
      NewRowsAreExecuted(cases, execute, start, steps, State(journal.attempts, journal.completed, Idle));
      return;
    }
    AfterLastCase(cases, execute, start, steps, journal.attempts, journal.completed, retry, base);
    var completed := journal.CompletedCaseCount();
    if completed != |cases| {
      assert false;
      return Err(NotReconciled), steps;
    }
    journal.MarkCompleted();
    steps := steps + [Complete];
  }
}
