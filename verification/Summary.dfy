/** `ExecutionJournal.summary` in bigMoveBench/normalized_execution.py (573-732) and the pair-set
    gate of bigMoveBench/evaluate.py (41-45). */
module Summary {
  import opened Ordering
  import opened Scoring

  /** One row of the join of the cases with their latest terminal attempts. */
  datatype Row = Row(c: Case, record: Record)

  datatype CategoryCounts = CategoryCounts(completed: nat, eligible: nat, detected: nat, agreed: nat,
                                           reviewedAgreed: nat)

  datatype Passes = Passes(strict: nat, tolerant: nat, zeroMove: nat, incidental: nat)

  datatype Report = Report(counts: map<Outcome, nat>, reviewed: map<Outcome, nat>, stages: map<Stage, nat>,
                           groups: map<string, CategoryCounts>, passes: Passes)

  // ----- counting -----

  ghost function Count<T>(p: T -> bool, s: seq<T>): nat {
    if s == [] then 0 else Count(p, s[..|s| - 1]) + if p(s[|s| - 1]) then 1 else 0
  }

  lemma {:induction false} CountStep<T>(p: T -> bool, s: seq<T>, i: nat)
    requires i < |s|
    ensures Count(p, s[..i + 1]) == Count(p, s[..i]) + if p(s[i]) then 1 else 0
  {
    assert s[..i + 1][..i] == s[..i];
  }

  lemma {:induction false} CountMonotone<T>(p: T -> bool, q: T -> bool, s: seq<T>)
    requires forall x :: x in s && p(x) ==> q(x)
    ensures Count(p, s) <= Count(q, s) <= |s|
  {
    if s != [] {
      assert s[|s| - 1] in s;
      CountMonotone(p, q, s[..|s| - 1]);
    }
  }

  lemma {:induction false} CountSplit<T>(p: T -> bool, q: T -> bool, r: T -> bool, s: seq<T>)
    requires forall x :: x in s ==> (p(x) <==> q(x) || r(x)) && !(q(x) && r(x))
    ensures Count(p, s) == Count(q, s) + Count(r, s)
  {
    if s != [] {
      assert s[|s| - 1] in s;
      CountSplit(p, q, r, s[..|s| - 1]);
    }
  }

  lemma {:induction false} CountAll<T>(p: T -> bool, s: seq<T>)
    ensures Count(p, s) == |s| <==> forall x :: x in s ==> p(x)
    ensures Count(p, s) <= |s|
  {
    if s != [] {
      var n := |s| - 1;
      CountAll(p, s[..n]);
      assert s == s[..n] + [s[n]];
      assert forall x :: x in s <==> x in s[..n] || x == s[n];
    }
  }

  lemma {:induction false} CountNone<T>(p: T -> bool, s: seq<T>)
    ensures Count(p, s) == 0 <==> forall x :: x in s ==> !p(x)
  {
    if s != [] {
      var n := |s| - 1;
      CountNone(p, s[..n]);
      assert s == s[..n] + [s[n]];
      assert forall x :: x in s <==> x in s[..n] || x == s[n];
    }
  }

  function Indicator<K(==)>(x: K): K -> nat { k => if k == x then 1 else 0 }

  lemma {:induction false} IndicatorTotal<K>(x: K, keys: seq<K>)
    requires Distinct(keys)
    ensures Total(Indicator(x), keys) == if x in keys then 1 else 0
  {
    if keys != [] { IndicatorTotal(x, keys[1..]); }
  }

  ghost function Is<T, K>(classify: T -> K, k: K): T -> bool { x => classify(x) == k }

  ghost function Tally<T, K>(classify: T -> K, s: seq<T>): K -> nat { k => Count(Is(classify, k), s) }

  /** Conservation: when the keys are distinct and cover every class, the class counts sum to the
      number of rows. */
  lemma {:induction false} EveryRowIsCountedOnce<T, K>(classify: T -> K, keys: seq<K>, s: seq<T>)
    requires Distinct(keys) && forall x :: x in s ==> classify(x) in keys
    ensures Total(Tally(classify, s), keys) == |s|
  {
    if s == [] {
      TotalOfZero(Tally(classify, s), keys);
    } else {
      var n := |s| - 1;
      assert s[n] in s;
      EveryRowIsCountedOnce(classify, keys, s[..n]);
      IndicatorTotal(classify(s[n]), keys);
      TotalSplit(Tally(classify, s), Tally(classify, s[..n]), Indicator(classify(s[n])), keys);
    }
  }

  lemma {:induction false} TotalOfZero<K>(weight: K -> nat, keys: seq<K>)
    requires forall k :: weight(k) == 0
    ensures Total(weight, keys) == 0
  {
    if keys != [] { TotalOfZero(weight, keys[1..]); }
  }

  // ----- the specification of the accumulators -----

  function Zero(): CategoryCounts { CategoryCounts(0, 0, 0, 0, 0) }

  predicate InCategory(category: string, r: Row) { r.c.kind.Positive? && r.c.category == category }

  predicate IsEligible(category: string, r: Row) { InCategory(category, r) && r.record.semantic.Eligible? }

  predicate IsDetectedIn(category: string, r: Row) { InCategory(category, r) && IsDetected(r.record.outcome) }

  predicate Agrees(category: string, r: Row) { InCategory(category, r) && r.record.outcome.Pass? }

  predicate ReviewAgrees(category: string, r: Row) { InCategory(category, r) && ReviewedOutcome(r.record).Pass? }

  ghost function GroupOf(category: string, rows: seq<Row>): CategoryCounts {
    CategoryCounts(Count(r => InCategory(category, r), rows), Count(r => IsEligible(category, r), rows),
          Count(r => IsDetectedIn(category, r), rows), Count(r => Agrees(category, r), rows),
          Count(r => ReviewAgrees(category, r), rows))
  }

  predicate NegativePass(r: Row) { r.record.outcome.Pass? && r.c.kind.KnownFalsePositive? }

  predicate PositivePass(r: Row) { r.record.outcome.Pass? && r.c.kind.Positive? }

  ghost function PassesOf(rows: seq<Row>): Passes {
    Passes(Count(r => PositivePass(r) && !r.record.tolerant, rows),
           Count(r => PositivePass(r) && r.record.tolerant, rows),
           Count(r => NegativePass(r) && r.record.moveCount == 0, rows),
           Count(r => NegativePass(r) && r.record.moveCount > 0, rows))
  }

  function OutcomeKey(r: Row): Outcome { r.record.outcome }

  function ReviewedKey(r: Row): Outcome { ReviewedOutcome(r.record) }

  function StageKey(r: Row): Stage { r.record.stage }


  // The entries of m are the class counts of the rows, and classes without an entry are empty.
  ghost predicate Tallies<K(!new)>(m: map<K, nat>, key: Row -> K, rows: seq<Row>) {
    forall k :: Lookup(m, k) == Tally(key, rows)(k)
  }

  ghost predicate GroupsExact(groups: map<string, CategoryCounts>, rows: seq<Row>) {
    forall category :: category in groups ==> groups[category] == GroupOf(category, rows)
  }

  /** Every counter of the report is the number of rows it stands for. */
  ghost predicate Summarizes(report: Report, rows: seq<Row>) {
    && Tallies(report.counts, OutcomeKey, rows)
    && Tallies(report.reviewed, ReviewedKey, rows)
    && Tallies(report.stages, StageKey, rows)
    && GroupsExact(report.groups, rows)
    && report.passes == PassesOf(rows)
  }

  // ----- the accumulation -----

  function Initial(categories: set<string>): Report {
    Report(map o: Outcome | o in OUTCOMES :: 0, map o: Outcome | o in OUTCOMES :: 0, map[],
           map category | category in categories :: Zero(), Passes(0, 0, 0, 0))
  }

  function AddToGroup(g: CategoryCounts, r: Record): CategoryCounts {
    CategoryCounts(g.completed + 1, g.eligible + (if r.semantic.Eligible? then 1 else 0),
          g.detected + (if IsDetected(r.outcome) then 1 else 0), g.agreed + (if r.outcome.Pass? then 1 else 0),
          g.reviewedAgreed + (if ReviewedOutcome(r).Pass? then 1 else 0))
  }

  function AddToPasses(p: Passes, r: Row): Passes {
    if !r.record.outcome.Pass? then p
    else if r.c.kind.KnownFalsePositive? then
      if r.record.moveCount == 0 then p.(zeroMove := p.zeroMove + 1) else p.(incidental := p.incidental + 1)
    else if r.record.tolerant then p.(tolerant := p.tolerant + 1)
    else p.(strict := p.strict + 1)
  }

  function Bump<K(==)>(m: map<K, nat>, k: K): map<K, nat> { m[k := Lookup(m, k) + 1] }

  // The group of a positive row, updated; no row of a positive case lacks a group.
  function AddRow(groups: map<string, CategoryCounts>, r: Row): map<string, CategoryCounts>
    requires r.c.kind.Positive? ==> r.c.category in groups
  {
    if r.c.kind.Positive? then groups[r.c.category := AddToGroup(groups[r.c.category], r.record)] else groups
  }

  /** The loop over the rows.  The outcome tables start with a zero for every outcome and the groups
      are keyed by every category of the positive cases. */
  method Summarize(categories: set<string>, rows: seq<Row>) returns (report: Report)
    requires forall r :: r in rows && r.c.kind.Positive? ==> r.c.category in categories
    ensures Summarizes(report, rows) && report.groups.Keys == categories
    ensures forall o :: o in report.counts && o in report.reviewed
    ensures forall s :: s in report.stages ==> report.stages[s] > 0
  {
    report := Initial(categories);
    InitialKeys(categories);
    var i := 0;
    while i < |rows|
      invariant 0 <= i <= |rows|
      invariant Summarizes(report, rows[..i])
      invariant report.groups.Keys == categories
      invariant forall o :: o in report.counts && o in report.reviewed
      invariant forall s :: s in report.stages ==> report.stages[s] > 0
    {
      var r := rows[i];
      assert r in rows;
      SummarizesStep(report, rows, i);
      report := AddTo(report, r);
      i := i + 1;
    }
    assert rows[..i] == rows;
  }

  function AddTo(report: Report, r: Row): Report
    requires r.c.kind.Positive? ==> r.c.category in report.groups
  {
    Report(Bump(report.counts, OutcomeKey(r)), Bump(report.reviewed, ReviewedKey(r)),
           Bump(report.stages, StageKey(r)), AddRow(report.groups, r), AddToPasses(report.passes, r))
  }

  lemma {:induction false} SummarizesStep(report: Report, rows: seq<Row>, i: nat)
    requires i < |rows| && Summarizes(report, rows[..i])
    requires rows[i].c.kind.Positive? ==> rows[i].c.category in report.groups
    ensures Summarizes(AddTo(report, rows[i]), rows[..i + 1])
  {
    TalliesStep(report.counts, OutcomeKey, rows, i);
    TalliesStep(report.reviewed, ReviewedKey, rows, i);
    TalliesStep(report.stages, StageKey, rows, i);
    GroupsStep(report.groups, rows, i);
    PassesStep(rows, i);
  }

  lemma {:induction false} InitialKeys(categories: set<string>)
    ensures Summarizes(Initial(categories), [])
    ensures forall o :: o in Initial(categories).counts && o in Initial(categories).reviewed
  {
    forall o ensures o in OUTCOMES { OutcomesAreComplete(o); }
  }

  lemma {:induction false} OutcomesAreComplete(o: Outcome)
    ensures o in OUTCOMES
  {
    assert OUTCOMES[0].UpstreamFailure? && OUTCOMES[1].SemanticIneligible? && OUTCOMES[2].ToolFailure?;
    assert OUTCOMES[3].Miss? && OUTCOMES[4].FalsePositive? && OUTCOMES[5].WrongClassification?;
    assert OUTCOMES[6].OracleFailure? && OUTCOMES[7].Pass?;
  }

  lemma {:induction false} StagesAreComplete(s: Stage)
    ensures s in STAGES
  {
    assert STAGES[0].Selected? && STAGES[1].Classification? && STAGES[2].FalseAcceptance?;
    assert STAGES[3].CandidateGeneration? && STAGES[4].SelectionOrGranularity? && STAGES[5].RetrievalOrVerification?;
    assert STAGES[6].AtUpstream? && STAGES[7].AtSemantics? && STAGES[8].AtTool? && STAGES[9].AtOracle?;
  }

  lemma {:induction false} TalliesStep<K(!new)>(m: map<K, nat>, key: Row -> K, rows: seq<Row>, i: nat)
    requires i < |rows| && Tallies(m, key, rows[..i])
    ensures Tallies(Bump(m, key(rows[i])), key, rows[..i + 1])
  {
    forall k ensures Lookup(Bump(m, key(rows[i])), k) == Tally(key, rows[..i + 1])(k) {
      CountStep(Is(key, k), rows, i);
      assert Lookup(m, k) == Tally(key, rows[..i])(k);
    }
  }

  lemma {:induction false} GroupsStep(groups: map<string, CategoryCounts>, rows: seq<Row>, i: nat)
    requires i < |rows| && GroupsExact(groups, rows[..i])
    requires rows[i].c.kind.Positive? ==> rows[i].c.category in groups
    ensures GroupsExact(AddRow(groups, rows[i]), rows[..i + 1])
  {
    forall category | category in groups
      ensures AddRow(groups, rows[i])[category] == GroupOf(category, rows[..i + 1])
    {
      CountStep(r => InCategory(category, r), rows, i);
      CountStep(r => IsEligible(category, r), rows, i);
      CountStep(r => IsDetectedIn(category, r), rows, i);
      CountStep(r => Agrees(category, r), rows, i);
      CountStep(r => ReviewAgrees(category, r), rows, i);
    }
  }

  lemma {:induction false} PassesStep(rows: seq<Row>, i: nat)
    requires i < |rows|
    ensures PassesOf(rows[..i + 1]) == AddToPasses(PassesOf(rows[..i]), rows[i])
  {
    CountStep((r: Row) => PositivePass(r) && !r.record.tolerant, rows, i);
    CountStep((r: Row) => PositivePass(r) && r.record.tolerant, rows, i);
    CountStep((r: Row) => NegativePass(r) && r.record.moveCount == 0, rows, i);
    CountStep((r: Row) => NegativePass(r) && r.record.moveCount > 0, rows, i);
  }

  // ----- conservation -----

  ghost function TableTotal<K>(m: map<K, nat>, keys: seq<K>): nat { Total(k => Lookup(m, k), keys) }

  lemma {:induction false} TalliesSum<K(!new)>(m: map<K, nat>, key: Row -> K, keys: seq<K>, rows: seq<Row>)
    requires Tallies(m, key, rows) && Distinct(keys) && forall k :: k in keys
    ensures TableTotal(m, keys) == |rows|
  {
    EveryRowIsCountedOnce(key, keys, rows);
    TotalPointwise(k => Lookup(m, k), Tally(key, rows), keys);
  }

  /** The outcome counts, the reviewed counts and the diagnostic stages each sum to the number of
      rows, and the four kinds of pass sum to the passes. */
  lemma {:induction false} CountsAreConserved(report: Report, rows: seq<Row>)
    requires Summarizes(report, rows)
    ensures TableTotal(report.counts, OUTCOMES) == TableTotal(report.reviewed, OUTCOMES)
            == TableTotal(report.stages, STAGES) == |rows|
    ensures var p := report.passes;
            p.strict + p.tolerant + p.zeroMove + p.incidental == Lookup(report.counts, Pass)
  {
    forall o ensures o in OUTCOMES { OutcomesAreComplete(o); }
    forall s ensures s in STAGES { StagesAreComplete(s); }
    TalliesSum(report.counts, OutcomeKey, OUTCOMES, rows);
    TalliesSum(report.reviewed, ReviewedKey, OUTCOMES, rows);
    TalliesSum(report.stages, StageKey, STAGES, rows);
    PassesAreSplit(rows);
  }

  lemma {:induction false} PassesAreSplit(rows: seq<Row>)
    ensures var p := PassesOf(rows);
            p.strict + p.tolerant + p.zeroMove + p.incidental == Tally(OutcomeKey, rows)(Pass)
  {
    assert forall r: Row :: OutcomeKey(r) == r.record.outcome;
    CountSplit(Is(OutcomeKey, Pass), r => PositivePass(r), r => NegativePass(r), rows);
    CountSplit(r => PositivePass(r), (r: Row) => PositivePass(r) && !r.record.tolerant,
               (r: Row) => PositivePass(r) && r.record.tolerant, rows);
    CountSplit(r => NegativePass(r), (r: Row) => NegativePass(r) && r.record.moveCount == 0,
               (r: Row) => NegativePass(r) && r.record.moveCount > 0, rows);
  }

  ghost predicate AllCoupled(rows: seq<Row>) { forall r :: r in rows ==> Coupled(r.c.kind, r.record) }

  /** `eligible` is computed as completed minus two outcome counts; on journalled records that is the
      number of rows whose semantic status is eligible. */
  lemma {:induction false} DerivedEligibleIsExact(report: Report, rows: seq<Row>)
    requires Summarizes(report, rows) && AllCoupled(rows)
    ensures TableTotal(report.counts, OUTCOMES) - Lookup(report.counts, UpstreamFailure)
            - Lookup(report.counts, SemanticIneligible) == Count(EligibleRow, rows)
  {
    CountsAreConserved(report, rows);
    EligibleSplit(rows);
    assert Lookup(report.counts, UpstreamFailure) == Tally(OutcomeKey, rows)(UpstreamFailure);
    assert Lookup(report.counts, SemanticIneligible) == Tally(OutcomeKey, rows)(SemanticIneligible);
  }

  predicate EligibleRow(r: Row) { r.record.semantic.Eligible? }

  lemma {:induction false} TallyLast(o: Outcome, rows: seq<Row>)
    requires rows != []
    ensures Tally(OutcomeKey, rows)(o) ==
            Tally(OutcomeKey, rows[..|rows| - 1])(o) + if rows[|rows| - 1].record.outcome == o then 1 else 0
  {
    assert Is(OutcomeKey, o)(rows[|rows| - 1]) <==> rows[|rows| - 1].record.outcome == o;
  }

  lemma {:induction false} EligibleSplit(rows: seq<Row>)
    requires AllCoupled(rows)
    ensures |rows| == Count(EligibleRow, rows) + Tally(OutcomeKey, rows)(UpstreamFailure)
                      + Tally(OutcomeKey, rows)(SemanticIneligible)
  {
    if rows != [] {
      var n := |rows| - 1;
      assert rows[n] in rows;
      assert forall r :: r in rows[..n] ==> r in rows;
      EligibleSplit(rows[..n]);
      var last, before := rows[n], rows[..n];
      assert Coupled(last.c.kind, last.record);
      assert Count(EligibleRow, rows) == Count(EligibleRow, before) + if last.record.semantic.Eligible? then 1 else 0;
      TallyLast(UpstreamFailure, rows);
      TallyLast(SemanticIneligible, rows);
    }
  }

  /** The number of positive cases of a category that were selected, whether or not they ran. */
  ghost function SelectedIn(category: string, cases: seq<Case>): nat {
    Count((c: Case) => c.kind.Positive? && c.category == category, cases)
  }

  /** The rows of the join: the cases in order that have a latest terminal record. */
  function Join(cases: seq<Case>, latest: map<string, Record>): (rows: seq<Row>)
    ensures |rows| <= |cases|
  {
    if cases == [] then [] else
      var n := |cases| - 1;
      var before := Join(cases[..n], latest);
      if cases[n].id in latest then before + [Row(cases[n], latest[cases[n].id])] else before
  }

  lemma {:induction false} JoinCounts(category: string, cases: seq<Case>, latest: map<string, Record>)
    ensures Count(r => InCategory(category, r), Join(cases, latest)) <= SelectedIn(category, cases)
  {
    if cases != [] {
      var n := |cases| - 1;
      JoinCounts(category, cases[..n], latest);
      var before := Join(cases[..n], latest);
      if cases[n].id in latest {
        var rows := Join(cases, latest);
        assert rows[..|before|] == before;
      }
    }
  }

  /** In every category agreed and reviewed agreed <= detected <= eligible <= completed <= selected. */
  lemma {:induction false} CategoryFunnel(report: Report, cases: seq<Case>, latest: map<string, Record>,
                                          category: string)
    requires Summarizes(report, Join(cases, latest)) && AllCoupled(Join(cases, latest))
    requires category in report.groups
    ensures var g := report.groups[category];
            && g.agreed <= g.detected && g.reviewedAgreed <= g.detected
            && g.detected <= g.eligible <= g.completed <= SelectedIn(category, cases)
  {
    var rows := Join(cases, latest);
    CountMonotone(r => Agrees(category, r), r => IsDetectedIn(category, r), rows);
    CountMonotone(r => ReviewAgrees(category, r), r => IsDetectedIn(category, r), rows);
    CountMonotone(r => IsDetectedIn(category, r), r => IsEligible(category, r), rows);
    CountMonotone(r => IsEligible(category, r), r => InCategory(category, r), rows);
    JoinCounts(category, cases, latest);
  }

  // ----- the gate -----

  /** `pair_set_passes`. */
  predicate GatePasses(type3: bool, report: Report, selected: nat) {
    if type3 then forall o | o in OUTCOMES :: OperationalFailure(o) ==> Lookup(report.counts, o) == 0
    else Lookup(report.counts, Pass) == selected
  }

  /** The gate of a pair set passes exactly when no case failed operationally (Type-3), and exactly
      when every selected case ran and passed (any other set). */
  lemma {:induction false} GatePassesIff(type3: bool, report: Report, cases: seq<Case>, latest: map<string, Record>)
    requires Summarizes(report, Join(cases, latest))
    ensures GatePasses(type3, report, |cases|) <==>
            if type3 then forall r :: r in Join(cases, latest) ==> !OperationalFailure(r.record.outcome)
            else forall c :: c in cases ==> c.id in latest && latest[c.id].outcome.Pass?
  {
    var rows := Join(cases, latest);
    if type3 {
      forall o
        ensures o in OUTCOMES
        ensures Lookup(report.counts, o) == 0 <==> forall r :: r in rows ==> r.record.outcome != o
      {
        OutcomesAreComplete(o);
        NoneHas(o, rows);
        assert Lookup(report.counts, o) == Tally(OutcomeKey, rows)(o);
      }
    } else {
      assert Lookup(report.counts, Pass) == Tally(OutcomeKey, rows)(Pass);
      PassingJoin(cases, latest);
    }
  }

  lemma {:induction false} NoneHas(o: Outcome, rows: seq<Row>)
    ensures Tally(OutcomeKey, rows)(o) == 0 <==> forall r :: r in rows ==> r.record.outcome != o
  {
    CountNone(Is(OutcomeKey, o), rows);
    assert forall r :: Is(OutcomeKey, o)(r) <==> r.record.outcome == o;
  }

  lemma {:induction false} PassingJoin(cases: seq<Case>, latest: map<string, Record>)
    ensures Tally(OutcomeKey, Join(cases, latest))(Pass) == |cases| <==>
            forall c :: c in cases ==> c.id in latest && latest[c.id].outcome.Pass?
    ensures Tally(OutcomeKey, Join(cases, latest))(Pass) <= |cases|
  {
    if cases != [] {
      var n := |cases| - 1;
      PassingJoin(cases[..n], latest);
      var before := Join(cases[..n], latest);
      if cases[n].id in latest {
        assert Join(cases, latest)[..|before|] == before;
        assert Is(OutcomeKey, Pass)(Row(cases[n], latest[cases[n].id])) <==> latest[cases[n].id].outcome == Pass;
      }
      assert cases == cases[..n] + [cases[n]];
      assert forall c :: c in cases <==> c in cases[..n] || c == cases[n];
    }
  }
}
