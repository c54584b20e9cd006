/** The outcome of one benchmark case: bigMoveBench/evaluate.py (22-70, 110-264) and `_execute_case`
    in bigMoveBench/normalized_execution.py (1032-1229). */
module Scoring {
  import opened Wrappers
  import opened Oracle

  datatype Outcome =
    | UpstreamFailure | SemanticIneligible | ToolFailure | Miss
    | FalsePositive | WrongClassification | OracleFailure | Pass

  datatype Semantic = Eligible | Ineligible | NotApplicable | NotChecked

  datatype Stage =
    | Selected | Classification | FalseAcceptance
    | CandidateGeneration | SelectionOrGranularity | RetrievalOrVerification
    | AtUpstream | AtSemantics | AtTool | AtOracle

  const OUTCOMES: seq<Outcome> := [
    UpstreamFailure, SemanticIneligible, ToolFailure, Miss,
    FalsePositive, WrongClassification, OracleFailure, Pass]

  const STAGES: seq<Stage> := [
    Selected, Classification, FalseAcceptance, CandidateGeneration, SelectionOrGranularity,
    RetrievalOrVerification, AtUpstream, AtSemantics, AtTool, AtOracle]

  predicate Retryable(o: Outcome) { o.UpstreamFailure? || o.ToolFailure? || o.OracleFailure? }

  predicate OperationalFailure(o: Outcome) { Retryable(o) || o.SemanticIneligible? }

  predicate IsDetected(o: Outcome) { o.Pass? || o.WrongClassification? }

  /** A case is a known false positive or a positive pair with the relationship the
      category rules expect (None when the rules reject the metadata). */
  datatype Kind = KnownFalsePositive | Positive(expected: Option<string>)

  datatype Case = Case(id: string, category: string, kind: Kind, texts: Option<Expected>, reviewed: Option<string>)

  /** results.json: readable, valid against the results schema, and then its atomic moves and the
      number of grouped candidate entries. */
  datatype Evidence = Evidence(readable: bool, valid: bool, moves: seq<Move>, entries: int)

  /** What the external tools did for one attempt. */
  datatype ToolRun = ToolRun(srcdiffAdmitted: bool, semantic: Semantic, srcmoveAdmitted: bool,
                             reviewWanted: bool, annotatedWritten: bool, evidence: Evidence)

  /** The journalled result.  `reviewed` is present only when a label correction was scored. */
  datatype Record = Record(outcome: Outcome, semantic: Semantic, reviewed: Option<Outcome>, stage: Stage,
                           tolerant: bool, moveCount: nat)

  /** `diagnostic_stage`. */
  function DiagnosticStage(o: Outcome, evidence: Evidence): Stage {
    match o
    case Pass => Selected
    case WrongClassification => Classification
    case FalsePositive => FalseAcceptance
    case UpstreamFailure => AtUpstream
    case SemanticIneligible => AtSemantics
    case ToolFailure => AtTool
    case OracleFailure => AtOracle
    case Miss =>
      if !evidence.valid then RetrievalOrVerification
      else if evidence.entries < 2 then CandidateGeneration
      else if evidence.moves != [] then SelectionOrGranularity
      else RetrievalOrVerification
  }

  function OutcomeOf(a: Assessment): Outcome {
    match a
    case Operational => OracleFailure
    case Missed(_) => Miss
    case Detected(_, _, _, classified) => if classified then Pass else WrongClassification
  }

  datatype Score = Score(outcome: Outcome, reviewed: Option<Outcome>, tolerant: bool)

  // Metadata that the oracle can use; None also when the results fail the schema.
  function Usable(c: Case, evidence: Evidence): Option<Expected> {
    if evidence.valid then c.texts else None
  }

  ghost function ScoreOf(repair: string -> string, c: Case, evidence: Evidence): Score {
    if !evidence.readable then Score(OracleFailure, None, false)
    else match c.kind
      case KnownFalsePositive =>
        var e := Usable(c, evidence);
        if e.None? then Score(OracleFailure, None, false)
        else if exists m :: m in evidence.moves && LinksText(repair, e.value, m) then Score(FalsePositive, None, false)
        else Score(Pass, None, false)
      case Positive(expected) =>
        if evidence.valid && expected.None? then Score(OracleFailure, None, false)
        else
          var e := Usable(c, evidence);
          var relationship := if expected.Some? then expected.value else "";
          var a := Assess(repair, e, evidence.moves, relationship);
          var reviewed :=
            if c.reviewed.None? then None
            else Some(OutcomeOf(Assess(repair, e, evidence.moves, c.reviewed.value)));
          Score(OutcomeOf(a), reviewed, a.Detected? && (a.from.EncodingTolerant? || a.to.EncodingTolerant?))
  }

  /** `_score_completed_case`. */
  method ScoreCompletedCase(repair: string -> string, c: Case, evidence: Evidence) returns (r: Score)
    ensures r == ScoreOf(repair, c, evidence)
  {
    if !evidence.readable { return Score(OracleFailure, None, false); }
    var e := Usable(c, evidence);
    if c.kind.KnownFalsePositive? {
      if e.None? { return Score(OracleFailure, None, false); }
      var found := FindWholeFragmentMatch(repair, e.value, evidence.moves);
      return Score(if found.Some? then FalsePositive else Pass, None, false);
    }
    if evidence.valid && c.kind.expected.None? { return Score(OracleFailure, None, false); }
    var relationship := if c.kind.expected.Some? then c.kind.expected.value else "";
    var a := AssessPositiveCase(repair, e, evidence.moves, relationship);
    var reviewed: Option<Outcome> := None;
    if c.reviewed.Some? {
      var b := AssessPositiveCase(repair, e, evidence.moves, c.reviewed.value);
      reviewed := Some(OutcomeOf(b));
    }
    return Score(OutcomeOf(a), reviewed, a.Detected? && (a.from.EncodingTolerant? || a.to.EncodingTolerant?));
  }

  function Unscored(o: Outcome, semantic: Semantic, evidence: Evidence): Record {
    Record(o, semantic, None, DiagnosticStage(o, evidence), false, 0)
  }

  ghost function RecordOf(repair: string -> string, c: Case, run: ToolRun): Record {
    if !run.srcdiffAdmitted then Unscored(UpstreamFailure, NotChecked, run.evidence)
    else if run.semantic != Eligible then Unscored(SemanticIneligible, run.semantic, run.evidence)
    else if !run.srcmoveAdmitted || (run.reviewWanted && !run.annotatedWritten) then
      Unscored(ToolFailure, Eligible, run.evidence)
    else
      var s := ScoreOf(repair, c, run.evidence);
      Record(s.outcome, Eligible, s.reviewed, DiagnosticStage(s.outcome, run.evidence), s.tolerant,
             |run.evidence.moves|)
  }

  // ----- what every journalled record satisfies -----

  /** The outcome that the reviewed counts use. */
  function ReviewedOutcome(r: Record): Outcome { if r.reviewed.Some? then r.reviewed.value else r.outcome }

  /** The coupling that the summary relies on. */
  ghost predicate Coupled(kind: Kind, r: Record) {
    && (r.semantic.Eligible? <==> !r.outcome.UpstreamFailure? && !r.outcome.SemanticIneligible?)
    && (IsDetected(ReviewedOutcome(r)) && kind.Positive? ==> IsDetected(r.outcome))
    && (IsDetected(r.outcome) ==> r.semantic.Eligible?)
    && (r.stage.Selected? <==> r.outcome.Pass?)
    && (r.stage.Classification? <==> r.outcome.WrongClassification?)
    && (r.stage.FalseAcceptance? <==> r.outcome.FalsePositive?)
    && (r.stage.CandidateGeneration? || r.stage.SelectionOrGranularity? || r.stage.RetrievalOrVerification?
        <==> r.outcome.Miss?)
    && (r.stage.AtUpstream? <==> r.outcome.UpstreamFailure?)
    && (r.stage.AtSemantics? <==> r.outcome.SemanticIneligible?)
    && (r.stage.AtTool? <==> r.outcome.ToolFailure?) && (r.stage.AtOracle? <==> r.outcome.OracleFailure?)
    && (r.outcome.FalsePositive? ==> kind.KnownFalsePositive?)
    && (r.outcome.Miss? || r.outcome.WrongClassification? ==> kind.Positive?)
  }

  /** Every record that `_execute_case` returns is coupled, whatever the tools did. */
  lemma {:induction false} RecordsAreCoupled(repair: string -> string, c: Case, run: ToolRun)
    ensures Coupled(c.kind, RecordOf(repair, c, run))
  {
    var r := RecordOf(repair, c, run);
    if c.kind.Positive? && r.reviewed.Some? {
      var relationship := if c.kind.expected.Some? then c.kind.expected.value else "";
      LabelKeepsDetection(repair, Usable(c, run.evidence), run.evidence.moves, relationship, c.reviewed.value);
    }
  }

  /** `_execute_case`, given what the tools did: the record is that of the first stage that stopped the case,
      or of its scoring, and it is coupled. */
  method ExecuteCase(repair: string -> string, c: Case, run: ToolRun) returns (r: Record)
    ensures r == RecordOf(repair, c, run) && Coupled(c.kind, r)
    ensures r.outcome == UpstreamFailure <==> !run.srcdiffAdmitted
    ensures r.outcome == SemanticIneligible <==> run.srcdiffAdmitted && run.semantic != Eligible
    ensures r.outcome == ToolFailure <==>
            && run.srcdiffAdmitted && run.semantic == Eligible
            && (!run.srcmoveAdmitted || (run.reviewWanted && !run.annotatedWritten))
    ensures r.reviewed.Some? ==> c.kind.Positive? && c.reviewed.Some? && r.semantic == Eligible
    ensures r.semantic == if run.srcdiffAdmitted then run.semantic else NotChecked
    ensures r.outcome in {UpstreamFailure, SemanticIneligible, ToolFailure} ==> r.moveCount == 0
    ensures r.outcome !in {UpstreamFailure, SemanticIneligible, ToolFailure} ==> r.moveCount == |run.evidence.moves|
    ensures r.tolerant ==> IsDetected(r.outcome) && c.kind.Positive?
  {
    RecordsAreCoupled(repair, c, run);
    var evidence := run.evidence;
    if !run.srcdiffAdmitted { return Unscored(UpstreamFailure, NotChecked, evidence); }
    if run.semantic != Eligible { return Unscored(SemanticIneligible, run.semantic, evidence); }
    if !run.srcmoveAdmitted || (run.reviewWanted && !run.annotatedWritten) {
      return Unscored(ToolFailure, Eligible, evidence);
    }
    var s := ScoreCompletedCase(repair, c, evidence);
    return Record(s.outcome, Eligible, s.reviewed, DiagnosticStage(s.outcome, evidence), s.tolerant,
                  |evidence.moves|);
  }

  /** When both labels are scored, they disagree at most about classification. */
  lemma {:induction false} ReviewChangesOnlyClassification(repair: string -> string, c: Case, run: ToolRun)
    ensures var r := RecordOf(repair, c, run);
            && (c.kind.Positive? && ReviewedOutcome(r) != r.outcome ==>
                  IsDetected(r.outcome) && IsDetected(ReviewedOutcome(r)))
            && (c.kind.KnownFalsePositive? ==> ReviewedOutcome(r) == r.outcome)
  {
    var r := RecordOf(repair, c, run);
    if c.kind.Positive? && r.reviewed.Some? {
      var relationship := if c.kind.expected.Some? then c.kind.expected.value else "";
      LabelKeepsDetection(repair, Usable(c, run.evidence), run.evidence.moves, relationship, c.reviewed.value);
    }
  }

  // The scoring oracle can judge the case.
  ghost predicate Judged(c: Case, evidence: Evidence) {
    && evidence.readable && Usable(c, evidence).Some?
    && (c.kind.Positive? ==> c.kind.expected.Some? && AllResolved(evidence.moves))
  }

  /** A case that cannot be judged is an oracle failure, and a known false positive that can is judged
      by whether some move links both complete texts. */
  lemma {:induction false} OutcomeOfNegative(repair: string -> string, c: Case, evidence: Evidence)
    requires c.kind.KnownFalsePositive?
    ensures ScoreOf(repair, c, evidence).outcome ==
            if !Judged(c, evidence) then OracleFailure
            else if exists m :: m in evidence.moves && LinksText(repair, c.texts.value, m) then FalsePositive
            else Pass
  {
  }

  lemma {:induction false} UnjudgedIsOracleFailure(repair: string -> string, c: Case, evidence: Evidence)
    requires c.kind.Positive? && !Judged(c, evidence)
    ensures ScoreOf(repair, c, evidence).outcome == OracleFailure
  {
  }

  lemma {:induction false} JudgedIsAssessed(repair: string -> string, c: Case, evidence: Evidence)
    requires c.kind.Positive? && Judged(c, evidence)
    ensures ScoreOf(repair, c, evidence).outcome ==
            OutcomeOf(Assess(repair, c.texts, evidence.moves, c.kind.expected.value))
  {
  }

  /** What each outcome of a positive case means, in terms of the reported moves. */
  lemma {:induction false} OutcomeOfPositive(repair: string -> string, c: Case, evidence: Evidence)
    requires c.kind.Positive?
    ensures ScoreOf(repair, c, evidence).outcome.OracleFailure? <==> !Judged(c, evidence)
    ensures Judged(c, evidence) ==>
              var o := ScoreOf(repair, c, evidence).outcome;
              && (o.Miss? <==> forall m :: m in evidence.moves ==> !Detects(repair, evidence.moves, c.texts.value, m))
              && (o.Pass? <==> exists m :: m in evidence.moves && Detects(repair, evidence.moves, c.texts.value, m)
                                            && m.relationship == c.kind.expected.value)
              && (o.Miss? || o.Pass? || o.WrongClassification?)
  {
    if Judged(c, evidence) {
      AssessmentIff(repair, c.texts.value, evidence.moves, c.kind.expected.value);
      JudgedIsAssessed(repair, c, evidence);
    } else {
      UnjudgedIsOracleFailure(repair, c, evidence);
    }
  }

  /** The reviewed outcome judges the same moves against the reviewed label. */
  lemma {:induction false} OutcomeOfReview(repair: string -> string, c: Case, evidence: Evidence)
    requires c.kind.Positive? && c.reviewed.Some? && Judged(c, evidence)
    ensures ScoreOf(repair, c, evidence).reviewed.Some?
    ensures var o := ScoreOf(repair, c, evidence).reviewed.value;
            && (o.Miss? <==> forall m :: m in evidence.moves ==> !Detects(repair, evidence.moves, c.texts.value, m))
            && (o.Pass? <==> exists m :: m in evidence.moves && Detects(repair, evidence.moves, c.texts.value, m)
                                          && m.relationship == c.reviewed.value)
            && (o.Miss? || o.Pass? || o.WrongClassification?)
  {
    AssessmentIff(repair, c.texts.value, evidence.moves, c.reviewed.value);
    ReviewIsAssessed(repair, c, evidence);
  }

  lemma {:induction false} ReviewIsAssessed(repair: string -> string, c: Case, evidence: Evidence)
    requires c.kind.Positive? && c.reviewed.Some? && Judged(c, evidence)
    ensures ScoreOf(repair, c, evidence).reviewed ==
            Some(OutcomeOf(Assess(repair, c.texts, evidence.moves, c.reviewed.value)))
  {
  }

  /** A miss is laid to the generation of candidates when fewer than two entries were grouped, to the selection
      when something else was reported, and to the retrieval otherwise. */
  lemma {:induction false} StageOfMiss(repair: string -> string, c: Case, run: ToolRun)
    requires RecordOf(repair, c, run).outcome == Miss
    ensures RecordOf(repair, c, run).stage ==
            if run.evidence.entries < 2 then CandidateGeneration
            else if |run.evidence.moves| > 0 then SelectionOrGranularity else RetrievalOrVerification
  {
    if c.kind.Positive? { OutcomeOfPositive(repair, c, run.evidence); }
  }

  /** For a known false positive the two parts of a result are judged independently: the whole passes
      exactly when both parts pass, so added moves can only turn a pass into a false positive. */
  lemma {:induction false} KnownFalsePositiveSplits(repair: string -> string, c: Case, evidence: Evidence,
                                                    more: seq<Move>)
    requires c.kind.KnownFalsePositive?
    ensures var whole := ScoreOf(repair, c, evidence.(moves := evidence.moves + more)).outcome;
            var a := ScoreOf(repair, c, evidence).outcome;
            var b := ScoreOf(repair, c, evidence.(moves := more)).outcome;
            && (whole.Pass? <==> a.Pass? && b.Pass?)
            && (whole.OracleFailure? <==> a.OracleFailure?)
            && (a.FalsePositive? ==> whole.FalsePositive?)
  {
    assert forall m :: m in evidence.moves + more <==> m in evidence.moves || m in more;
  }

  /** For a positive case, adding resolvable moves to a usable result never makes it worse: a pass
      stays a pass and a detection stays a detection. */
  lemma {:induction false} AddedMovesNeverHurt(repair: string -> string, c: Case, evidence: Evidence, more: seq<Move>)
    requires c.kind.Positive? && AllResolved(more) && forall m :: m in evidence.moves ==> m in more
    ensures var a := ScoreOf(repair, c, evidence);
            var b := ScoreOf(repair, c, evidence.(moves := more));
            && (a.outcome.Pass? ==> b.outcome.Pass?)
            && (IsDetected(a.outcome) ==> IsDetected(b.outcome))
            && (a.reviewed == Some(Pass) ==> b.reviewed == Some(Pass))
  {
    var e := Usable(c, evidence);
    if e.Some? && c.kind.expected.Some? {
      AddingMovesKeepsAPass(repair, e.value, evidence.moves, more, c.kind.expected.value);
      if c.reviewed.Some? {
        AddingMovesKeepsAPass(repair, e.value, evidence.moves, more, c.reviewed.value);
      }
    }
  }
}
