/** Order and counts of the reports (src/move_sequences.cpp, counted in src/pipeline.cpp). */
module ReportCounts {
  import opened Ordering
  import opened MoveSequences
  import opened Reports

  // ----- reports follow first appearance -----

  // Report r is first called for by move i.
  ghost predicate FirstAppears(moves: seq<Move>, r: Report, i: nat) {
    && i < |moves| && moves[i].id in r.members
    && forall j :: 0 <= j < i ==> moves[j].id !in r.members
  }

  /** The reports are listed in the order in which their first members appear among the moves. */
  lemma {:induction false} ReportsFollowFirstAppearance(all: seq<Move>, sequences: seq<Sequence>, n: nat)
      returns (positions: seq<nat>)
    requires WellFormed(all, sequences) && n <= |all|
    ensures |positions| == |ReportsOf(all[..n], sequences)|
    ensures forall a, b :: 0 <= a < b < |positions| ==> positions[a] < positions[b]
    ensures forall a :: 0 <= a < |positions| ==> positions[a] < n
    ensures forall a :: 0 <= a < |positions| ==> FirstAppears(all, ReportsOf(all[..n], sequences)[a], positions[a])
  {
    if n == 0 {
      positions := [];
    } else {
      positions := ReportsFollowFirstAppearance(all, sequences, n - 1);
      assert all[..n][..n - 1] == all[..n - 1];
      var k := Owner(sequences, all[n - 1].id);
      if !(k < |sequences| && sequences[k].id in EmittedIds(all[..n - 1], sequences)) {
        NewReportFirstAppears(all, sequences, n - 1);
        positions := positions + [n - 1];
      }
    }
  }

  lemma {:induction false} NewReportFirstAppears(all: seq<Move>, sequences: seq<Sequence>, n: nat)
    requires WellFormed(all, sequences) && n < |all|
    requires var k := Owner(sequences, all[n].id);
             !(k < |sequences| && sequences[k].id in EmittedIds(all[..n], sequences))
    ensures FirstAppears(all, ReportFor(sequences, all[n]), n)
  {
    var k := Owner(sequences, all[n].id);
    if k < |sequences| {
      EmittedElements(all, sequences, n, k);
      forall j | 0 <= j < n ensures all[j].id !in sequences[k].members {
        if all[j].id in sequences[k].members { OwnerIsUnique(all, sequences, k, all[j].id); }
      }
    }
  }

  // ----- the two histograms -----

  // by_id: the relationship of the first move with the id.
  function RelationshipOf(moves: seq<Move>, id: string): string {
    if moves == [] then ""
    else if moves[0].id == id then moves[0].relationship
    else RelationshipOf(moves[1..], id)
  }

  function OfKind(kind: string): Move -> nat {
    (m: Move) => if m.relationship == kind then 1 else 0
  }

  function IdOfKind(moves: seq<Move>, kind: string): string -> nat {
    (id: string) => if RelationshipOf(moves, id) == kind then 1 else 0
  }

  function FrontOfKind(moves: seq<Move>, kind: string): Report -> nat {
    (r: Report) => if r.members != [] && RelationshipOf(moves, r.members[0]) == kind then 1 else 0
  }

  /** The atomic moves of a relationship. */
  function AtomicCount(moves: seq<Move>, kind: string): nat { Total(OfKind(kind), moves) }

  /** `reported_content_relationships`: each report counts for the relationship of its first member. */
  function ReportedCount(moves: seq<Move>, reports: seq<Report>, kind: string): nat {
    Total(FrontOfKind(moves, kind), reports)
  }

  lemma {:induction false} RelationshipIsThatOfMove(moves: seq<Move>, m: Move)
    requires UniqueMoveIds(moves) && m in moves
    ensures RelationshipOf(moves, m.id) == m.relationship
  {
    if moves[0] != m {
      assert m in moves[1..];
      var i :| 0 <= i < |moves[1..]| && moves[1..][i] == m;
      assert moves[i + 1] == m;
      RelationshipIsThatOfMove(moves[1..], m);
    }
  }

  lemma {:induction false} AtomicCountById(all: seq<Move>, moves: seq<Move>, kind: string)
    requires UniqueMoveIds(all) && forall m :: m in moves ==> m in all
    ensures AtomicCount(moves, kind) == Total(IdOfKind(all, kind), IdsOf(moves))
  {
    if moves != [] {
      AtomicCountById(all, moves[1..], kind);
      assert IdsOf(moves)[1..] == IdsOf(moves[1..]);
      RelationshipIsThatOfMove(all, moves[0]);
    }
  }

  function MembersOfKind(moves: seq<Move>, kind: string): Report -> nat {
    (r: Report) => Total(IdOfKind(moves, kind), r.members)
  }

  lemma {:induction false} FlattenTotal(moves: seq<Move>, kind: string, reports: seq<Report>)
    ensures Total(IdOfKind(moves, kind), Flatten(reports)) == Total(MembersOfKind(moves, kind), reports)
  {
    if reports != [] {
      FlattenTotal(moves, kind, reports[1..]);
      TotalConcat(IdOfKind(moves, kind), reports[0].members, Flatten(reports[1..]));
    }
  }

  lemma {:induction false} UniformTotal(moves: seq<Move>, kind: string, members: seq<string>, relationship: string)
    requires forall id :: id in members ==> RelationshipOf(moves, id) == relationship
    ensures Total(IdOfKind(moves, kind), members) == if relationship == kind then |members| else 0
  {
    if members != [] { UniformTotal(moves, kind, members[1..], relationship); }
  }

  lemma {:induction false} SequenceMembersAreType1(moves: seq<Move>, sequences: seq<Sequence>, k: nat)
    requires WellFormed(moves, sequences) && k < |sequences|
    ensures forall id :: id in sequences[k].members ==> RelationshipOf(moves, id) == "type1"
  {
    forall id | id in sequences[k].members ensures RelationshipOf(moves, id) == "type1" {
      assert IsType1(moves, id);
      var m :| m in moves && m.id == id && m.relationship == "type1";
      RelationshipIsThatOfMove(moves, m);
    }
  }

  // The members a Type-1 report folds into its first one.
  function FoldedOfKind(kind: string): Report -> nat {
    (r: Report) => if kind == "type1" && |r.members| > 0 then |r.members| - 1 else 0
  }

  lemma {:induction false} ReportWeights(moves: seq<Move>, sequences: seq<Sequence>, kind: string, r: Report)
    requires WellFormed(moves, sequences) && r in ReportsOf(moves, sequences)
    ensures MembersOfKind(moves, kind)(r) == FrontOfKind(moves, kind)(r) + FoldedOfKind(kind)(r)
  {
    assert moves[..|moves|] == moves;
    ReportElements(moves, sequences, |moves|, r);
    var i :| 0 <= i < |moves| && ReportFor(sequences, moves[i]) == r;
    var k := Owner(sequences, moves[i].id);
    if k < |sequences| {
      SequenceMembersAreType1(moves, sequences, k);
      UniformTotal(moves, kind, r.members, "type1");
      assert r.members[0] in r.members;
    } else {
      UniformTotal(moves, kind, r.members, RelationshipOf(moves, moves[i].id));
    }
  }

  lemma {:induction false} CountsSplit(moves: seq<Move>, sequences: seq<Sequence>, kind: string)
    requires WellFormed(moves, sequences)
    ensures AtomicCount(moves, kind) ==
            ReportedCount(moves, ReportsOf(moves, sequences), kind)
            + Total(FoldedOfKind(kind), ReportsOf(moves, sequences))
  {
    var reports := ReportsOf(moves, sequences);
    AtomicCountById(moves, moves, kind);
    ReportsPartitionMoves(moves, sequences);
    TotalIgnoresOrder(IdOfKind(moves, kind), Flatten(reports), IdsOf(moves));
    FlattenTotal(moves, kind, reports);
    forall r | r in reports
      ensures MembersOfKind(moves, kind)(r) == FrontOfKind(moves, kind)(r) + FoldedOfKind(kind)(r)
    {
      ReportWeights(moves, sequences, kind, r);
    }
    TotalSplit(MembersOfKind(moves, kind), FrontOfKind(moves, kind), FoldedOfKind(kind), reports);
  }

  // ----- every sequence is reported once -----

  function Excess(): seq<string> -> nat {
    (members: seq<string>) => if |members| > 0 then |members| - 1 else 0
  }

  function MemberLists(sequences: seq<Sequence>): (r: seq<seq<string>>)
    ensures |r| == |sequences|
  {
    seq(|sequences|, k requires 0 <= k < |sequences| => sequences[k].members)
  }

  function ReportedLists(reports: seq<Report>): seq<seq<string>> {
    if reports == [] then []
    else (if reports[0].kind == SequenceMoveGroup then [reports[0].members] else []) + ReportedLists(reports[1..])
  }

  lemma {:induction false} ReportedListsElements(reports: seq<Report>, members: seq<string>)
    ensures members in ReportedLists(reports) <==>
              exists r :: r in reports && r.kind == SequenceMoveGroup && r.members == members
  {
    if reports != [] {
      ReportedListsElements(reports[1..], members);
      assert reports == [reports[0]] + reports[1..];
    }
  }

  lemma {:induction false} ReportedListsAreDistinct(reports: seq<Report>)
    requires DisjointMembers(reports) && forall r :: r in reports ==> r.members != []
    ensures Distinct(ReportedLists(reports))
  {
    if reports != [] {
      var rest := reports[1..];
      forall i, j, id | 0 <= i < j < |rest| && id in rest[i].members ensures id !in rest[j].members {
        assert rest[i] == reports[i + 1] && rest[j] == reports[j + 1];
      }
      ReportedListsAreDistinct(rest);
      ReportedListsElements(rest, reports[0].members);
      forall r | r in rest ensures r.members != reports[0].members {
        var j :| 0 <= j < |rest| && rest[j] == r;
        assert reports[j + 1] == r && reports[0].members[0] in reports[0].members;
      }
      DistinctConcat([reports[0].members], ReportedLists(rest));
    }
  }

  lemma {:induction false} FoldedIsExcess(reports: seq<Report>)
    requires forall r :: r in reports ==> r.kind == AtomicMoveGroup ==> |r.members| == 1
    ensures Total(FoldedOfKind("type1"), reports) == Total(Excess(), ReportedLists(reports))
  {
    if reports != [] {
      assert reports[0] in reports;
      FoldedIsExcess(reports[1..]);
      if reports[0].kind == SequenceMoveGroup {
        TotalConcat(Excess(), [reports[0].members], ReportedLists(reports[1..]));
        assert [reports[0].members][1..] == [];
      } else {
        assert [] + ReportedLists(reports[1..]) == ReportedLists(reports[1..]);
      }
    }
  }

  lemma {:induction false} EverySequenceIsReported(moves: seq<Move>, sequences: seq<Sequence>)
    requires WellFormed(moves, sequences)
    ensures multiset(ReportedLists(ReportsOf(moves, sequences))) == multiset(MemberLists(sequences))
  {
    var reports := ReportsOf(moves, sequences);
    var lists := MemberLists(sequences);
    assert moves[..|moves|] == moves;
    ReportsHaveDisjointMembers(moves, sequences);
    forall r | r in reports ensures r.members != [] {
      ReportElements(moves, sequences, |moves|, r);
      var i :| 0 <= i < |moves| && ReportFor(sequences, moves[i]) == r;
    }
    ReportedListsAreDistinct(reports);
    forall i, j | 0 <= i < j < |lists| ensures lists[i] != lists[j] {
      assert sequences[i].members[0] in sequences[i].members;
    }
    forall members ensures members in ReportedLists(reports) <==> members in lists {
      ReportedListsElements(reports, members);
      if members in ReportedLists(reports) {
        var r :| r in reports && r.kind == SequenceMoveGroup && r.members == members;
        ReportElements(moves, sequences, |moves|, r);
        var i :| 0 <= i < |moves| && ReportFor(sequences, moves[i]) == r;
        assert lists[Owner(sequences, moves[i].id)] == members;
      }
      if members in lists {
        var k :| 0 <= k < |lists| && lists[k] == members;
        SequenceHasReport(moves, sequences, k);
      }
    }
    DistinctSameElements(ReportedLists(reports), lists);
  }

  lemma {:induction false} SequenceHasReport(moves: seq<Move>, sequences: seq<Sequence>, k: nat)
    requires WellFormed(moves, sequences) && k < |sequences|
    ensures SequenceReport(sequences[k]) in ReportsOf(moves, sequences)
  {
    assert moves[..|moves|] == moves;
    var id := sequences[k].members[0];
    assert IsType1(moves, id);
    var m :| m in moves && m.id == id && m.relationship == "type1";
    var i :| 0 <= i < |moves| && moves[i] == m;
    OwnerIsUnique(moves, sequences, k, id);
    ReportElements(moves, sequences, |moves|, ReportFor(sequences, moves[i]));
  }

  /** The counting theorem: type2c and type3 are reported as often as they occur, and type1 loses
      exactly what the sequences fold together. */
  lemma {:induction false} ReportedCounts(moves: seq<Move>, sequences: seq<Sequence>, kind: string)
    requires WellFormed(moves, sequences)
    ensures kind != "type1" ==>
              ReportedCount(moves, ReportsOf(moves, sequences), kind) == AtomicCount(moves, kind)
    ensures ReportedCount(moves, ReportsOf(moves, sequences), "type1") + Total(Excess(), MemberLists(sequences)) ==
            AtomicCount(moves, "type1")
  {
    var reports := ReportsOf(moves, sequences);
    CountsSplit(moves, sequences, kind);
    if kind != "type1" { NothingFolded(kind, reports); }
    CountsSplit(moves, sequences, "type1");
    assert moves[..|moves|] == moves;
    forall r | r in reports ensures r.kind == AtomicMoveGroup ==> |r.members| == 1 {
      ReportElements(moves, sequences, |moves|, r);
      var i :| 0 <= i < |moves| && ReportFor(sequences, moves[i]) == r;
    }
    FoldedIsExcess(reports);
    EverySequenceIsReported(moves, sequences);
    TotalIgnoresOrder(Excess(), ReportedLists(reports), MemberLists(sequences));
  }

  lemma {:induction false} NothingFolded(kind: string, reports: seq<Report>)
    requires kind != "type1"
    ensures Total(FoldedOfKind(kind), reports) == 0
  {
    if reports != [] { NothingFolded(kind, reports[1..]); }
  }

  // ----- the counting loop of run_pipeline -----

  lemma {:induction false} RelationshipOfAppend(moves: seq<Move>, m: Move, id: string)
    ensures RelationshipOf(moves + [m], id) ==
            if id in IdsOf(moves) then RelationshipOf(moves, id) else if m.id == id then m.relationship else ""
  {
    if moves == [] {
      assert [m][1..] == [];
    } else {
      assert (moves + [m])[1..] == moves[1..] + [m];
      RelationshipOfAppend(moves[1..], m, id);
      assert IdsOf(moves) == [moves[0].id] + IdsOf(moves[1..]);
    }
  }

  method IndexById(moves: seq<Move>) returns (byId: map<string, string>)
    ensures byId.Keys == set id | id in IdsOf(moves)
    ensures forall id :: id in byId ==> byId[id] == RelationshipOf(moves, id)
  {
    byId := map[];
    for i := 0 to |moves|
      invariant byId.Keys == set id | id in IdsOf(moves[..i])
      invariant forall id :: id in byId ==> byId[id] == RelationshipOf(moves[..i], id)
    {
      assert moves[..i + 1] == moves[..i] + [moves[i]];
      assert IdsOf(moves[..i + 1]) == IdsOf(moves[..i]) + [moves[i].id];
      forall id ensures RelationshipOf(moves[..i + 1], id) ==
                        if id in IdsOf(moves[..i]) then RelationshipOf(moves[..i], id)
                        else if moves[i].id == id then moves[i].relationship else ""
      {
        RelationshipOfAppend(moves[..i], moves[i], id);
      }
      if moves[i].id !in byId { byId := byId[moves[i].id := moves[i].relationship]; }
    }
    assert moves[..|moves|] == moves;
  }

  method CountReported(moves: seq<Move>, reports: seq<Report>) returns (type1: nat, type2c: nat, type3: nat)
    requires forall r :: r in reports ==> r.members != [] && r.members[0] in IdsOf(moves)
    ensures type1 == ReportedCount(moves, reports, "type1")
    ensures type2c == ReportedCount(moves, reports, "type2c")
    ensures type3 == ReportedCount(moves, reports, "type3")
  {
    var byId := IndexById(moves);
    type1, type2c, type3 := 0, 0, 0;
    for i := 0 to |reports|
      invariant type1 == ReportedCount(moves, reports[..i], "type1")
      invariant type2c == ReportedCount(moves, reports[..i], "type2c")
      invariant type3 == ReportedCount(moves, reports[..i], "type3")
    {
      CountNext(moves, reports, i, "type1");
      CountNext(moves, reports, i, "type2c");
      CountNext(moves, reports, i, "type3");
      assert reports[i] in reports;
      var relationship := byId[reports[i].members[0]];
      if relationship == "type1" {
        type1 := type1 + 1;
      } else if relationship == "type2c" {
        type2c := type2c + 1;
      } else if relationship == "type3" {
        type3 := type3 + 1;
      }
    }
    assert reports[..|reports|] == reports;
  }

  lemma {:induction false} CountNext(moves: seq<Move>, reports: seq<Report>, i: nat, kind: string)
    requires i < |reports|
    ensures ReportedCount(moves, reports[..i + 1], kind) ==
            ReportedCount(moves, reports[..i], kind) + FrontOfKind(moves, kind)(reports[i])
  {
    assert reports[..i + 1] == reports[..i] + [reports[i]];
    TotalConcat(FrontOfKind(moves, kind), reports[..i], [reports[i]]);
  }
}
