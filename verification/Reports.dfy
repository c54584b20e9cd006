/** The report projection of src/move_sequences.cpp and its counts in src/pipeline.cpp: every
    selected move is reported exactly once, alone or inside its sequence. */
module Reports {
  import opened Ordering
  import opened MoveSequences
  import opened SequenceProperties

  datatype ReportKind = AtomicMoveGroup | SequenceMoveGroup

  datatype Report = Report(id: string, kind: ReportKind, members: seq<string>)

  // ----- the projection -----

  // The first sequence from `from` on that has the member, or |sequences|.
  function Owner(sequences: seq<Sequence>, id: string, from: nat := 0): (k: nat)
    requires from <= |sequences|
    ensures from <= k <= |sequences|
    ensures k < |sequences| ==> id in sequences[k].members
    ensures forall l :: from <= l < k ==> id !in sequences[l].members
    decreases |sequences| - from
  {
    if from == |sequences| || id in sequences[from].members then from else Owner(sequences, id, from + 1)
  }

  function ItemReport(m: Move): Report { Report("item:" + m.id, AtomicMoveGroup, [m.id]) }

  function SequenceReport(s: Sequence): Report { Report(s.id, SequenceMoveGroup, s.members) }

  function ReportFor(sequences: seq<Sequence>, m: Move): Report {
    var k := Owner(sequences, m.id);
    if k == |sequences| then ItemReport(m) else SequenceReport(sequences[k])
  }

  // The ids of the sequences already reported for a prefix of the moves.
  function EmittedIds(moves: seq<Move>, sequences: seq<Sequence>): set<string> {
    if moves == [] then {}
    else
      var n := |moves| - 1;
      var k := Owner(sequences, moves[n].id);
      EmittedIds(moves[..n], sequences) + if k < |sequences| then {sequences[k].id} else {}
  }

  /** `build_reported_moves`. */
  function ReportsOf(moves: seq<Move>, sequences: seq<Sequence>): seq<Report> {
    if moves == [] then []
    else
      var n := |moves| - 1;
      var k := Owner(sequences, moves[n].id);
      ReportsOf(moves[..n], sequences) +
      if k < |sequences| && sequences[k].id in EmittedIds(moves[..n], sequences) then []
      else [ReportFor(sequences, moves[n])]
  }

  lemma {:induction false} ReportsStep(moves: seq<Move>, sequences: seq<Sequence>, i: nat)
    requires i < |moves|
    ensures var k := Owner(sequences, moves[i].id);
            && EmittedIds(moves[..i + 1], sequences) ==
               EmittedIds(moves[..i], sequences) + (if k < |sequences| then {sequences[k].id} else {})
            && ReportsOf(moves[..i + 1], sequences) ==
               ReportsOf(moves[..i], sequences) +
               if k < |sequences| && sequences[k].id in EmittedIds(moves[..i], sequences) then []
               else [ReportFor(sequences, moves[i])]
  {
    assert moves[..i + 1][..i] == moves[..i];
  }

  // The first sequence of every member.
  method IndexOwners(sequences: seq<Sequence>) returns (owners: map<string, nat>)
    ensures forall id :: id in owners <==> Owner(sequences, id) < |sequences|
    ensures forall id :: id in owners ==> owners[id] == Owner(sequences, id)
  {
    owners := map[];
    for k := 0 to |sequences|
      invariant forall id :: id in owners <==> exists l :: 0 <= l < k && id in sequences[l].members
      invariant forall id :: id in owners ==> owners[id] == Owner(sequences, id)
    {
      var before := owners;
      for j := 0 to |sequences[k].members|
        invariant forall id :: id in owners <==> id in before || id in sequences[k].members[..j]
        invariant forall id :: id in owners ==> owners[id] == Owner(sequences, id)
      {
        // emplace keeps the first sequence of a member
        if sequences[k].members[j] !in owners { owners := owners[sequences[k].members[j] := k]; }
      }
      assert sequences[k].members[..|sequences[k].members|] == sequences[k].members;
    }
  }

  method BuildReportedMoves(moves: seq<Move>, sequences: seq<Sequence>) returns (reports: seq<Report>)
    ensures reports == ReportsOf(moves, sequences)
  {
    var owners := IndexOwners(sequences);
    reports := [];
    var emitted: set<string> := {};
    for i := 0 to |moves|
      invariant reports == ReportsOf(moves[..i], sequences)
      invariant emitted == EmittedIds(moves[..i], sequences)
    {
      ReportsStep(moves, sequences, i);
      var id := moves[i].id;
      if id in owners {
        var s := sequences[owners[id]];
        if s.id in emitted { continue; }
        emitted := emitted + {s.id};
        reports := reports + [Report(s.id, SequenceMoveGroup, s.members)];
      } else {
        reports := reports + [Report("item:" + id, AtomicMoveGroup, [id])];
      }
    }
    assert moves[..|moves|] == moves;
  }

  // ----- what the sequences of build_move_sequences look like to the projection -----

  function IdsOf(moves: seq<Move>): (r: seq<string>)
    ensures |r| == |moves|
  {
    seq(|moves|, i requires 0 <= i < |moves| => moves[i].id)
  }

  ghost predicate WellFormed(moves: seq<Move>, sequences: seq<Sequence>) {
    && UniqueMoveIds(moves)
    && (forall k :: 0 <= k < |sequences| ==>
          && |sequences[k].members| >= 2 && Distinct(sequences[k].members)
          && sequences[k].id == "sequence:" + sequences[k].members[0]
          && forall id :: id in sequences[k].members ==> IsType1(moves, id))
    && (forall k, l, id :: 0 <= k < l < |sequences| && id in sequences[k].members ==> id !in sequences[l].members)
  }

  ghost predicate IsType1(moves: seq<Move>, id: string) {
    exists m :: m in moves && m.id == id && m.relationship == "type1"
  }

  lemma {:induction false} BuiltSequencesAreWellFormed(registry: seq<Candidate>, groups: seq<Group>, moves: seq<Move>)
    requires UniqueMoveIds(moves)
    ensures WellFormed(moves, BuildSequences(registry, groups, moves))
  {
    var links := SortedLinks(registry, groups, moves);
    var sequences := BuildSequences(registry, groups, moves);
    SortedLinksArePrepared(registry, groups, moves);
    forall k | 0 <= k < |sequences|
      ensures |sequences[k].members| >= 2 && Distinct(sequences[k].members)
      ensures sequences[k].id == "sequence:" + sequences[k].members[0]
      ensures forall id :: id in sequences[k].members ==> IsType1(moves, id)
    {
      BuiltSequenceIsWellFormed(links, moves, k);
    }
    forall k, l, id | 0 <= k < l < |sequences| && id in sequences[k].members ensures id !in sequences[l].members {
      SequencesAreDisjoint(links, k, l, id);
    }
  }

  lemma {:induction false} RunMembers(links: seq<Link>, moves: seq<Move>, b: nat, e: nat)
    requires UniqueLinkIds(links) && b < e <= |links|
    requires forall l :: l in links ==> IsType1(moves, l.moveId)
    ensures Distinct(SequenceOf(links[b..e]).members)
    ensures forall id :: id in SequenceOf(links[b..e]).members ==> IsType1(moves, id)
  {
    var members := SequenceOf(links[b..e]).members;
    forall i | 0 <= i < |members| ensures members[i] == links[b + i].moveId && IsType1(moves, members[i]) {
      assert links[b + i] in links;
    }
  }

  lemma {:induction false} BuiltSequenceIsWellFormed(links: seq<Link>, moves: seq<Move>, k: nat)
    requires Prepared(links) && k < |SequencesFrom(links, 0)|
    requires forall l :: l in links ==> IsType1(moves, l.moveId)
    ensures var s := SequencesFrom(links, 0)[k];
            && |s.members| >= 2 && Distinct(s.members) && s.id == "sequence:" + s.members[0]
            && forall id :: id in s.members ==> IsType1(moves, id)
  {
    SequenceCount(links, 0);
    SequenceAt(links, 0, k);
    var b, e := Ranges(links, 0)[k].begin, Ranges(links, 0)[k].end;
    RunMembers(links, moves, b, e);
  }

  lemma {:induction false} OwnerIsUnique(moves: seq<Move>, sequences: seq<Sequence>, k: nat, id: string)
    requires WellFormed(moves, sequences) && k < |sequences| && id in sequences[k].members
    ensures Owner(sequences, id) == k
  {
  }

  lemma {:induction false} SequenceIdsDiffer(moves: seq<Move>, sequences: seq<Sequence>, k: nat, l: nat)
    requires WellFormed(moves, sequences) && k < |sequences| && l < |sequences| && k != l
    ensures sequences[k].id != sequences[l].id
  {
    var a, b := sequences[k].members[0], sequences[l].members[0];
    assert a in sequences[k].members && b in sequences[l].members;
    OwnerIsUnique(moves, sequences, k, a);
    OwnerIsUnique(moves, sequences, l, b);
    assert sequences[k].id[9..] == a && sequences[l].id[9..] == b;
  }

  // ----- which reports are made -----

  // Sequence k owns one of the first n moves.
  ghost predicate OwnsSome(all: seq<Move>, sequences: seq<Sequence>, n: nat, k: nat)
    requires n <= |all|
  {
    exists i :: 0 <= i < n && Owner(sequences, all[i].id) == k
  }

  lemma {:induction false} OwnsSomeNext(all: seq<Move>, sequences: seq<Sequence>, n: nat, k: nat)
    requires 0 < n <= |all|
    ensures OwnsSome(all, sequences, n, k) <==>
            OwnsSome(all, sequences, n - 1, k) || Owner(sequences, all[n - 1].id) == k
  {
  }

  lemma {:induction false} EmittedElements(all: seq<Move>, sequences: seq<Sequence>, n: nat, k: nat)
    requires WellFormed(all, sequences) && n <= |all| && k < |sequences|
    ensures sequences[k].id in EmittedIds(all[..n], sequences) <==> OwnsSome(all, sequences, n, k)
  {
    if n > 0 {
      EmittedElements(all, sequences, n - 1, k);
      OwnsSomeNext(all, sequences, n, k);
      assert all[..n][..n - 1] == all[..n - 1];
      var l := Owner(sequences, all[n - 1].id);
      if l < |sequences| && l != k { SequenceIdsDiffer(all, sequences, k, l); }
    }
  }

  // Moves of one sequence have one report.
  lemma {:induction false} SharedReport(sequences: seq<Sequence>, m: Move, m': Move)
    requires Owner(sequences, m.id) == Owner(sequences, m'.id) < |sequences|
    ensures ReportFor(sequences, m) == ReportFor(sequences, m')
  {
  }

  /** One of the first n moves calls for the report. */
  ghost predicate CalledFor(all: seq<Move>, sequences: seq<Sequence>, n: nat, r: Report)
    requires n <= |all|
  {
    exists i :: 0 <= i < n && ReportFor(sequences, all[i]) == r
  }

  lemma {:induction false} CalledForNext(all: seq<Move>, sequences: seq<Sequence>, n: nat, r: Report)
    requires n < |all|
    ensures CalledFor(all, sequences, n + 1, r) <==>
            CalledFor(all, sequences, n, r) || ReportFor(sequences, all[n]) == r
  {
  }

  // The last move adds its own report, or its sequence has been reported before.
  lemma {:induction false} LastReport(all: seq<Move>, sequences: seq<Sequence>, n: nat, r: Report)
    requires WellFormed(all, sequences) && n < |all|
    ensures r in ReportsOf(all[..n + 1], sequences) ==>
              r in ReportsOf(all[..n], sequences) || r == ReportFor(sequences, all[n])
    ensures r in ReportsOf(all[..n], sequences) ==> r in ReportsOf(all[..n + 1], sequences)
    ensures ReportFor(sequences, all[n]) in ReportsOf(all[..n + 1], sequences)
            || CalledFor(all, sequences, n, ReportFor(sequences, all[n]))
  {
    ReportsStep(all, sequences, n);
    var k := Owner(sequences, all[n].id);
    if k < |sequences| && sequences[k].id in EmittedIds(all[..n], sequences) {
      EmittedElements(all, sequences, n, k);
      var i :| 0 <= i < n && Owner(sequences, all[i].id) == k;
      SharedReport(sequences, all[i], all[n]);
    }
  }

  /** The reports are exactly those of the moves, whatever the order. */
  lemma {:induction false} ReportElements(all: seq<Move>, sequences: seq<Sequence>, n: nat, r: Report)
    requires WellFormed(all, sequences) && n <= |all|
    ensures r in ReportsOf(all[..n], sequences) <==> CalledFor(all, sequences, n, r)
  {
    if n > 0 {
      ReportElements(all, sequences, n - 1, r);
      LastReport(all, sequences, n - 1, r);
      CalledForNext(all, sequences, n - 1, r);
    }
  }

  lemma {:induction false} ReportIdShape(moves: seq<Move>, sequences: seq<Sequence>, m: Move)
    requires WellFormed(moves, sequences)
    ensures var k := Owner(sequences, m.id);
            var id := ReportFor(sequences, m).id;
            && id != ""
            && (k == |sequences| ==> id[0] == 'i' && |id| >= 5 && id[5..] == m.id)
            && (k < |sequences| ==> id[0] == 's')
  {
    assert ItemReport(m).id[5..] == m.id;
  }

  // Two different moves get the same report only through a shared sequence.
  lemma {:induction false} SameReportId(moves: seq<Move>, sequences: seq<Sequence>, i: nat, j: nat)
    requires WellFormed(moves, sequences) && i < |moves| && j < |moves| && i != j
    requires ReportFor(sequences, moves[i]).id == ReportFor(sequences, moves[j]).id
    ensures Owner(sequences, moves[i].id) < |sequences|
            && Owner(sequences, moves[j].id) == Owner(sequences, moves[i].id)
  {
    ReportIdShape(moves, sequences, moves[i]);
    ReportIdShape(moves, sequences, moves[j]);
    var k, l := Owner(sequences, moves[i].id), Owner(sequences, moves[j].id);
    if k < |sequences| && l < |sequences| && k != l { SequenceIdsDiffer(moves, sequences, k, l); }
  }

  ghost predicate UniqueReportIds(reports: seq<Report>) {
    forall i, j :: 0 <= i < j < |reports| ==> reports[i].id != reports[j].id
  }

  // A report that is appended has an id that no earlier report has.
  lemma {:induction false} NewReportId(all: seq<Move>, sequences: seq<Sequence>, n: nat, r: Report)
    requires WellFormed(all, sequences) && n < |all| && r in ReportsOf(all[..n], sequences)
    requires var k := Owner(sequences, all[n].id);
             k < |sequences| ==> sequences[k].id !in EmittedIds(all[..n], sequences)
    ensures r.id != ReportFor(sequences, all[n]).id
  {
    var k := Owner(sequences, all[n].id);
    ReportElements(all, sequences, n, r);
    var j :| 0 <= j < n && ReportFor(sequences, all[j]) == r;
    if k < |sequences| { EmittedElements(all, sequences, n, k); }
    assert k < |sequences| ==> Owner(sequences, all[j].id) != k;
    SameReportIdOnlyShared(all, sequences, j, n);
  }

  lemma {:induction false} SameReportIdOnlyShared(moves: seq<Move>, sequences: seq<Sequence>, i: nat, j: nat)
    requires WellFormed(moves, sequences) && i < |moves| && j < |moves| && i != j
    ensures ReportFor(sequences, moves[i]).id == ReportFor(sequences, moves[j]).id ==>
              Owner(sequences, moves[i].id) < |sequences|
              && Owner(sequences, moves[j].id) == Owner(sequences, moves[i].id)
  {
    if ReportFor(sequences, moves[i]).id == ReportFor(sequences, moves[j]).id { SameReportId(moves, sequences, i, j); }
  }

  lemma {:induction false} UniqueIdsAppend(reports: seq<Report>, r: Report)
    requires UniqueReportIds(reports) && forall i :: 0 <= i < |reports| ==> reports[i].id != r.id
    ensures UniqueReportIds(reports + [r])
  {
  }

  /** Report ids are unique. */
  lemma {:induction false} ReportIdsAreUnique(all: seq<Move>, sequences: seq<Sequence>, n: nat)
    requires WellFormed(all, sequences) && n <= |all|
    ensures UniqueReportIds(ReportsOf(all[..n], sequences))
  {
    if n > 0 {
      ReportIdsAreUnique(all, sequences, n - 1);
      ReportsStep(all, sequences, n - 1);
      var before := ReportsOf(all[..n - 1], sequences);
      var k := Owner(sequences, all[n - 1].id);
      if !(k < |sequences| && sequences[k].id in EmittedIds(all[..n - 1], sequences)) {
        forall i | 0 <= i < |before| ensures before[i].id != ReportFor(sequences, all[n - 1]).id {
          NewReportId(all, sequences, n - 1, before[i]);
        }
        UniqueIdsAppend(before, ReportFor(sequences, all[n - 1]));
      }
    }
  }

  // ----- the partition -----

  function Flatten(reports: seq<Report>): seq<string> {
    if reports == [] then [] else reports[0].members + Flatten(reports[1..])
  }

  lemma {:induction false} FlattenElements(reports: seq<Report>, id: string)
    ensures id in Flatten(reports) <==> exists r :: r in reports && id in r.members
  {
    if reports != [] {
      FlattenElements(reports[1..], id);
      assert reports == [reports[0]] + reports[1..];
    }
  }

  ghost predicate DisjointMembers(reports: seq<Report>) {
    && (forall r :: r in reports ==> Distinct(r.members))
    && (forall i, j, id :: 0 <= i < j < |reports| && id in reports[i].members ==> id !in reports[j].members)
  }

  lemma {:induction false} FlattenIsDistinct(reports: seq<Report>)
    requires DisjointMembers(reports)
    ensures Distinct(Flatten(reports))
  {
    if reports != [] {
      var rest := reports[1..];
      forall i, j, id | 0 <= i < j < |rest| && id in rest[i].members ensures id !in rest[j].members {
        assert rest[i] == reports[i + 1] && rest[j] == reports[j + 1];
      }
      FlattenIsDistinct(rest);
      assert reports[0] in reports;
      forall id | id in reports[0].members ensures id !in Flatten(rest) {
        FlattenElements(rest, id);
        forall r | r in rest ensures id !in r.members {
          var j :| 0 <= j < |rest| && rest[j] == r;
          assert reports[j + 1] == r;
        }
      }
      DistinctConcat(reports[0].members, Flatten(rest));
    }
  }

  // The report of a move is the only one that holds it.
  lemma {:induction false} MemberDeterminesReport(moves: seq<Move>, sequences: seq<Sequence>, i: nat, id: string)
    requires WellFormed(moves, sequences) && i < |moves| && id in ReportFor(sequences, moves[i]).members
    ensures exists m :: m in moves && m.id == id && ReportFor(sequences, m) == ReportFor(sequences, moves[i])
    ensures Distinct(ReportFor(sequences, moves[i]).members)
  {
    var k := Owner(sequences, moves[i].id);
    if k < |sequences| {
      assert IsType1(moves, id);
      var m :| m in moves && m.id == id && m.relationship == "type1";
      OwnerIsUnique(moves, sequences, k, id);
      assert ReportFor(sequences, m) == ReportFor(sequences, moves[i]);
    } else {
      assert moves[i] in moves;
    }
  }

  lemma {:induction false} MovesOfOneId(moves: seq<Move>, a: Move, b: Move)
    requires UniqueMoveIds(moves) && a in moves && b in moves && a.id == b.id
    ensures a == b
  {
    var i :| 0 <= i < |moves| && moves[i] == a;
    var j :| 0 <= j < |moves| && moves[j] == b;
  }

  lemma {:induction false} ReportsHaveDisjointMembers(moves: seq<Move>, sequences: seq<Sequence>)
    requires WellFormed(moves, sequences)
    ensures DisjointMembers(ReportsOf(moves, sequences))
  {
    var reports := ReportsOf(moves, sequences);
    assert moves[..|moves|] == moves;
    ReportIdsAreUnique(moves, sequences, |moves|);
    forall r | r in reports ensures Distinct(r.members) {
      ReportElements(moves, sequences, |moves|, r);
      var i :| 0 <= i < |moves| && ReportFor(sequences, moves[i]) == r;
      var k := Owner(sequences, moves[i].id);
    }
    forall a, b, id | 0 <= a < b < |reports| && id in reports[a].members ensures id !in reports[b].members {
      if id in reports[b].members { SameMemberSameReport(moves, sequences, reports[a], reports[b], id); }
    }
  }

  lemma {:induction false} ReportOfMember(moves: seq<Move>, sequences: seq<Sequence>, r: Report,
                                          id: string) returns (m: Move)
    requires WellFormed(moves, sequences) && r in ReportsOf(moves, sequences) && id in r.members
    ensures m in moves && m.id == id && ReportFor(sequences, m) == r
  {
    assert moves[..|moves|] == moves;
    ReportElements(moves, sequences, |moves|, r);
    var i :| 0 <= i < |moves| && ReportFor(sequences, moves[i]) == r;
    MemberDeterminesReport(moves, sequences, i, id);
    m :| m in moves && m.id == id && ReportFor(sequences, m) == r;
  }

  lemma {:induction false} SameMemberSameReport(moves: seq<Move>, sequences: seq<Sequence>, r: Report, q: Report,
                                                id: string)
    requires WellFormed(moves, sequences)
    requires r in ReportsOf(moves, sequences) && q in ReportsOf(moves, sequences) && id in r.members && id in q.members
    ensures r == q
  {
    var m := ReportOfMember(moves, sequences, r, id);
    var n := ReportOfMember(moves, sequences, q, id);
    MovesOfOneId(moves, m, n);
  }

  /** The partition theorem: listing the members of all reports lists every move id exactly once. */
  lemma {:induction false} ReportsPartitionMoves(moves: seq<Move>, sequences: seq<Sequence>)
    requires WellFormed(moves, sequences)
    ensures multiset(Flatten(ReportsOf(moves, sequences))) == multiset(IdsOf(moves))
    ensures UniqueReportIds(ReportsOf(moves, sequences))
  {
    var reports := ReportsOf(moves, sequences);
    assert moves[..|moves|] == moves;
    ReportIdsAreUnique(moves, sequences, |moves|);
    ReportsHaveDisjointMembers(moves, sequences);
    FlattenIsDistinct(reports);
    forall id ensures id in Flatten(reports) <==> id in IdsOf(moves) {
      FlattenElements(reports, id);
      if id in Flatten(reports) {
        var r :| r in reports && id in r.members;
        var m := ReportOfMember(moves, sequences, r, id);
        var j :| 0 <= j < |moves| && moves[j] == m;
        assert IdsOf(moves)[j] == id;
      }
      if id in IdsOf(moves) {
        var i :| 0 <= i < |moves| && moves[i].id == id;
        ReportElements(moves, sequences, |moves|, ReportFor(sequences, moves[i]));
        assert ReportFor(sequences, moves[i]) in reports;
      }
    }
    DistinctSameElements(Flatten(reports), IdsOf(moves));
  }
}
