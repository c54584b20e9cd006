/** The output checks of srcmove_runtime/results_schema.py against the sequences and reports that
    src/move_sequences.cpp produces. */
module ResultAdmission {
  import opened Ordering
  import opened MoveSequences
  import opened SequenceProperties
  import opened Reports
  import opened ReportCounts

  // ----- the checks -----

  ghost predicate SpanCounts(e: Endpoint, members: nat) {
    e.lastOrdinal - e.firstOrdinal + 1 == members
  }

  ghost predicate SpansApart(e: Endpoint, f: Endpoint) {
    || e.revisionFile != f.revisionFile || e.parentId != f.parentId
    || e.lastOrdinal < f.firstOrdinal || e.firstOrdinal > f.lastOrdinal
  }

  predicate HasEndpoint(m: Move, id: nat) { id in m.originals || id in m.modifieds }

  ghost predicate EndpointsOnce(m: Move) {
    Distinct(m.originals) && Distinct(m.modifieds) && forall id :: id in m.originals ==> id !in m.modifieds
  }

  /** Every candidate is an endpoint of at most one group, once. */
  ghost predicate EndpointsOwned(moves: seq<Move>) {
    && (forall m :: m in moves ==> EndpointsOnce(m))
    && (forall i, j, id :: 0 <= i < j < |moves| && HasEndpoint(moves[i], id) ==> !HasEndpoint(moves[j], id))
  }

  /** The correspondence status "selected_pair". */
  predicate SelectedPair(m: Move) { m.settled && |m.originals| == 1 && |m.modifieds| == 1 }

  ghost predicate PairsDistinct(moves: seq<Move>) {
    forall i, j :: 0 <= i < j < |moves| && SelectedPair(moves[i]) && SelectedPair(moves[j]) ==>
      !(moves[i].originals == moves[j].originals && moves[i].modifieds == moves[j].modifieds
        && moves[i].relationship == moves[j].relationship)
  }

  // The endpoints of a pair lie in the files of the spans.
  ghost predicate InFiles(registry: seq<Candidate>, m: Move, s: Sequence) {
    && |m.originals| == |m.modifieds| == 1 && m.originals[0] < |registry| && m.modifieds[0] < |registry|
    && registry[m.originals[0]].revisionFile == s.from.revisionFile
    && registry[m.modifieds[0]].revisionFile == s.to.revisionFile
  }

  // A member of a sequence is a selected pair in the files of its spans.
  ghost predicate MemberFits(registry: seq<Candidate>, moves: seq<Move>, s: Sequence, id: string) {
    forall m :: m in moves && m.id == id ==> SelectedPair(m) && InFiles(registry, m, s)
  }

  // One output item: its identity, its members, and for a sequence its span context.
  ghost predicate ItemAdmitted(registry: seq<Candidate>, moves: seq<Move>, sequences: seq<Sequence>, r: Report) {
    && Distinct(r.members)
    && (forall id :: id in r.members ==> id in IdsOf(moves))
    && match r.kind
       case AtomicMoveGroup => |r.members| == 1 && r.id == "item:" + r.members[0]
       case SequenceMoveGroup =>
         && |r.members| >= 2 && r.id == "sequence:" + r.members[0]
         && (forall id :: id in r.members ==> RelationshipOf(moves, id) == "type1")
         && (exists s :: s in sequences && s.id == r.id)
         && (forall s :: s in sequences && s.id == r.id ==>
               && SpanCounts(s.from, |r.members|) && SpanCounts(s.to, |r.members|)
               && forall id :: id in r.members ==> MemberFits(registry, moves, s, id))
  }

  ghost predicate PairApart(s: Sequence, t: Sequence) {
    SpansApart(s.from, t.from) && SpansApart(s.to, t.to)
  }

  ghost predicate SequenceSpansApart(sequences: seq<Sequence>) {
    forall k, l :: 0 <= k < l < |sequences| ==> PairApart(sequences[k], sequences[l])
  }

  /** The groups and the output items are admitted: unique identities, no endpoint and no pair selected
      twice, every group in exactly one item, every item well formed, and no two sequence spans of one
      parent overlap on either side. */
  ghost predicate OutputAdmitted(registry: seq<Candidate>, moves: seq<Move>, sequences: seq<Sequence>,
                                 reports: seq<Report>) {
    && UniqueMoveIds(moves) && UniqueReportIds(reports)
    && EndpointsOwned(moves) && PairsDistinct(moves)
    && (forall r :: r in reports ==> ItemAdmitted(registry, moves, sequences, r))
    && DisjointMembers(reports)
    && (forall id :: id in IdsOf(moves) ==> exists r :: r in reports && id in r.members)
    && SequenceSpansApart(sequences)
  }

  // ----- spans and sibling slots -----

  ghost predicate PairDistinct(links: seq<Link>, s: Sequence, t: Sequence) {
    forall a, b :: a in links && b in links && a.moveId in s.members && b.moveId in t.members ==>
      !SameSlot(a.from, b.from) && !SameSlot(a.to, b.to)
  }

  // Links of different sequences never occupy the same sibling of the same parent.
  ghost predicate SlotsDistinct(links: seq<Link>, sequences: seq<Sequence>) {
    forall k, l :: 0 <= k < l < |sequences| ==> PairDistinct(links, sequences[k], sequences[l])
  }

  ghost predicate Adjacent(links: seq<Link>, a: Link, b: Link) { Consecutive(a, b) && NothingBetween(links, a, b) }

  /** The link continues another one, or another one continues it, with no link sorting between them. */
  ghost predicate Joined(links: seq<Link>, l: Link) {
    exists k :: k in links && (Adjacent(links, k, l) || Adjacent(links, l, k))
  }

  /** No two joined links occupy the same sibling of the same parent, on either side. */
  ghost predicate SlotsFree(links: seq<Link>) {
    forall a, b :: a in links && b in links && a != b && Joined(links, a) && Joined(links, b) ==>
      !SameSlot(a.from, b.from) && !SameSlot(a.to, b.to)
  }

  lemma {:induction false} SpansMeetIffSlotsShared(run: seq<Link>, other: seq<Link>)
    requires |run| >= 2 && |other| >= 2 && Ordered(run) && Ordered(other)
    ensures !SpansApart(SequenceOf(run).from, SequenceOf(other).from) <==>
              exists i, j :: 0 <= i < |run| && 0 <= j < |other| && SameSlot(run[i].from, other[j].from)
    ensures !SpansApart(SequenceOf(run).to, SequenceOf(other).to) <==>
              exists i, j :: 0 <= i < |run| && 0 <= j < |other| && SameSlot(run[i].to, other[j].to)
  {
    RunSpan(run);
    RunSpan(other);
    RunSlots(run);
    RunSlots(other);
    if !SpansApart(SequenceOf(run).from, SequenceOf(other).from) {
      var a, b := run[0].from.ordinal, other[0].from.ordinal;
      if a <= b {
        assert SameSlot(run[b - a].from, other[0].from);
      } else {
        assert SameSlot(run[0].from, other[a - b].from);
      }
    }
    if !SpansApart(SequenceOf(run).to, SequenceOf(other).to) {
      var a, b := run[0].to.ordinal, other[0].to.ordinal;
      if a <= b { assert SameSlot(run[b - a].to, other[0].to); } else { assert SameSlot(run[0].to, other[a - b].to); }
    }
  }

  lemma {:induction false} RunSlots(run: seq<Link>)
    requires |run| >= 2 && Ordered(run)
    ensures forall i :: 0 <= i < |run| ==>
              && run[i].from.revisionFile == run[0].from.revisionFile && run[i].from.parentId == run[0].from.parentId
              && run[i].to.revisionFile == run[0].to.revisionFile && run[i].to.parentId == run[0].to.parentId
              && run[i].from.ordinal == run[0].from.ordinal + i && run[i].to.ordinal == run[0].to.ordinal + i
  {
    forall i | 0 <= i < |run|
      ensures && run[i].from.revisionFile == run[0].from.revisionFile && run[i].from.parentId == run[0].from.parentId
              && run[i].to.revisionFile == run[0].to.revisionFile && run[i].to.parentId == run[0].to.parentId
              && run[i].from.ordinal == run[0].from.ordinal + i && run[i].to.ordinal == run[0].to.ordinal + i
    {
      if i > 0 {
        var key, first := PartitionKey(run[i]), PartitionKey(run[0]);
        assert key[0] == first[0] && key[1] == first[1] && key[2] == first[2] && key[3] == first[3];
      }
    }
  }

  // The links of a sequence's members are the run it was made of.
  lemma {:induction false} LinkOfMember(links: seq<Link>, run: seq<Link>, a: Link) returns (i: nat)
    requires UniqueLinkIds(links) && run != [] && (forall l :: l in run ==> l in links) && a in links
    requires a.moveId in SequenceOf(run).members
    ensures i < |run| && run[i] == a
  {
    i :| 0 <= i < |run| && run[i].moveId == a.moveId;
    assert run[i] in links;
    var m :| 0 <= m < |links| && links[m] == run[i];
    var n :| 0 <= n < |links| && links[n] == a;
  }

  ghost predicate RunsDistinct(run: seq<Link>, other: seq<Link>) {
    forall i, j :: 0 <= i < |run| && 0 <= j < |other| ==>
      !SameSlot(run[i].from, other[j].from) && !SameSlot(run[i].to, other[j].to)
  }

  // A shared slot of two runs is a shared slot of two links, and back.
  lemma {:induction false} DistinctPairsGiveRuns(links: seq<Link>, run: seq<Link>, other: seq<Link>)
    requires run != [] && other != [] && forall l :: l in run || l in other ==> l in links
    requires PairDistinct(links, SequenceOf(run), SequenceOf(other))
    ensures RunsDistinct(run, other)
  {
    var s, t := SequenceOf(run), SequenceOf(other);
    forall i, j | 0 <= i < |run| && 0 <= j < |other|
      ensures !SameSlot(run[i].from, other[j].from) && !SameSlot(run[i].to, other[j].to)
    {
      assert s.members[i] == run[i].moveId && t.members[j] == other[j].moveId;
      assert run[i] in links && other[j] in links;
    }
  }

  lemma {:induction false} DistinctRunsGivePairs(links: seq<Link>, run: seq<Link>, other: seq<Link>)
    requires UniqueLinkIds(links) && run != [] && other != []
    requires (forall l :: l in run ==> l in links) && (forall l :: l in other ==> l in links)
    requires RunsDistinct(run, other)
    ensures PairDistinct(links, SequenceOf(run), SequenceOf(other))
  {
    var s, t := SequenceOf(run), SequenceOf(other);
    forall a, b | a in links && b in links && a.moveId in s.members && b.moveId in t.members
      ensures !SameSlot(a.from, b.from) && !SameSlot(a.to, b.to)
    {
      var i := LinkOfMember(links, run, a);
      var j := LinkOfMember(links, other, b);
    }
  }

  lemma {:induction false} RunsShareIff(links: seq<Link>, run: seq<Link>, other: seq<Link>)
    requires UniqueLinkIds(links) && run != [] && other != []
    requires (forall l :: l in run ==> l in links) && (forall l :: l in other ==> l in links)
    ensures PairDistinct(links, SequenceOf(run), SequenceOf(other)) <==> RunsDistinct(run, other)
  {
    if PairDistinct(links, SequenceOf(run), SequenceOf(other)) { DistinctPairsGiveRuns(links, run, other); }
    if RunsDistinct(run, other) { DistinctRunsGivePairs(links, run, other); }
  }

  lemma {:induction false} PairApartIff(links: seq<Link>, k: nat, l: nat)
    requires Prepared(links) && k < l < |SequencesFrom(links, 0)|
    ensures PairApart(SequencesFrom(links, 0)[k], SequencesFrom(links, 0)[l]) <==>
            PairDistinct(links, SequencesFrom(links, 0)[k], SequencesFrom(links, 0)[l])
  {
    var run := RunOfSequence(links, k);
    var other := RunOfSequence(links, l);
    SpansMeetIffSlotsShared(run, other);
    RunsShareIff(links, run, other);
  }

  // ----- joined links -----

  ghost predicate InSequence(sequences: seq<Sequence>, id: string, k: nat) {
    k < |sequences| && id in sequences[k].members
  }

  lemma {:induction false} NeighboursAreJoined(links: seq<Link>, i: nat)
    requires Prepared(links) && Continues(links, i)
    ensures Joined(links, links[i - 1]) && Joined(links, links[i])
  {
    ConsecutiveSorts(links, i - 1, i);
    assert Adjacent(links, links[i - 1], links[i]);
    assert links[i - 1] in links && links[i] in links;
  }

  lemma {:induction false} RunIsJoined(links: seq<Link>, b: nat, e: nat, i: nat)
    requires Prepared(links) && IsRun(links, b, e) && b + 2 <= e && b <= i < e
    ensures Joined(links, links[i])
  {
    NeighboursAreJoined(links, if i == b then i + 1 else i);
  }

  // The members of the sequences are exactly the joined links.
  lemma {:induction false} MembersAreJoined(links: seq<Link>, i: nat, k: nat)
    requires Prepared(links) && i < |links| && InSequence(SequencesFrom(links, 0), links[i].moveId, k)
    ensures Joined(links, links[i])
  {
    MemberIndex(links, k, i);
    SequenceAt(links, 0, k);
    RunIsJoined(links, Ranges(links, 0)[k].begin, Ranges(links, 0)[k].end, i);
  }

  lemma {:induction false} JoinedAreMembers(links: seq<Link>, i: nat) returns (k: nat)
    requires Prepared(links) && i < |links| && Joined(links, links[i])
    ensures InSequence(SequencesFrom(links, 0), links[i].moveId, k)
  {
    var l :| l in links && (Adjacent(links, l, links[i]) || Adjacent(links, links[i], l));
    var j :| 0 <= j < |links| && links[j] == l;
    var later: nat := if Adjacent(links, l, links[i]) then i else j;
    if later == i { ConsecutiveSorts(links, j, i); } else { ConsecutiveSorts(links, i, j); }
    assert Continues(links, later);
    k := RangeCovers(links, 0, later);
    SequenceCount(links, 0);
    MemberIndex(links, k, i);
  }

  lemma {:induction false} SlotsOfOneSequence(links: seq<Link>, i: nat, j: nat, k: nat)
    requires Prepared(links) && i < j < |links|
    requires InSequence(SequencesFrom(links, 0), links[i].moveId, k)
    requires InSequence(SequencesFrom(links, 0), links[j].moveId, k)
    ensures !SameSlot(links[i].from, links[j].from) && !SameSlot(links[i].to, links[j].to)
  {
    MemberIndex(links, k, i);
    MemberIndex(links, k, j);
    SequenceAt(links, 0, k);
    RunCountsUp(links, Ranges(links, 0)[k].begin, Ranges(links, 0)[k].end, i, j);
  }

  lemma {:induction false} DistinctImpliesFree(links: seq<Link>, i: nat, j: nat)
    requires Prepared(links) && SlotsDistinct(links, SequencesFrom(links, 0)) && i < j < |links|
    requires Joined(links, links[i]) && Joined(links, links[j])
    ensures !SameSlot(links[i].from, links[j].from) && !SameSlot(links[i].to, links[j].to)
  {
    var k := JoinedAreMembers(links, i);
    var l := JoinedAreMembers(links, j);
    if k == l {
      SlotsOfOneSequence(links, i, j, k);
    } else {
      var sequences := SequencesFrom(links, 0);
      assert PairDistinct(links, sequences[if k < l then k else l], sequences[if k < l then l else k]);
    }
  }

  lemma {:induction false} FreeImpliesDistinct(links: seq<Link>, k: nat, l: nat)
    requires Prepared(links) && SlotsFree(links) && k < l < |SequencesFrom(links, 0)|
    ensures PairDistinct(links, SequencesFrom(links, 0)[k], SequencesFrom(links, 0)[l])
  {
    var s, t := SequencesFrom(links, 0)[k], SequencesFrom(links, 0)[l];
    forall a, b | a in links && b in links && a.moveId in s.members && b.moveId in t.members
      ensures !SameSlot(a.from, b.from) && !SameSlot(a.to, b.to)
    {
      var i :| 0 <= i < |links| && links[i] == a;
      var j :| 0 <= j < |links| && links[j] == b;
      MembersAreJoined(links, i, k);
      MembersAreJoined(links, j, l);
      SequencesAreDisjoint(links, k, l, a.moveId);
    }
  }

  lemma {:induction false} DistinctSlotsAreFree(links: seq<Link>)
    requires Prepared(links) && SlotsDistinct(links, SequencesFrom(links, 0))
    ensures SlotsFree(links)
  {
    forall a, b | a in links && b in links && a != b && Joined(links, a) && Joined(links, b)
      ensures !SameSlot(a.from, b.from) && !SameSlot(a.to, b.to)
    {
      var i :| 0 <= i < |links| && links[i] == a;
      var j :| 0 <= j < |links| && links[j] == b;
      if i < j { DistinctImpliesFree(links, i, j); } else { DistinctImpliesFree(links, j, i); }
    }
  }

  lemma {:induction false} SlotsDistinctIff(links: seq<Link>)
    requires Prepared(links)
    ensures SlotsDistinct(links, SequencesFrom(links, 0)) <==> SlotsFree(links)
  {
    if SlotsDistinct(links, SequencesFrom(links, 0)) { DistinctSlotsAreFree(links); }
    if SlotsFree(links) {
      forall k, l | 0 <= k < l < |SequencesFrom(links, 0)|
        ensures PairDistinct(links, SequencesFrom(links, 0)[k], SequencesFrom(links, 0)[l])
      {
        FreeImpliesDistinct(links, k, l);
      }
    }
  }

  // ----- the producer meets the consumer -----

  /** The locators of a move are those of its endpoints. */
  ghost predicate EndpointsFit(registry: seq<Candidate>, moves: seq<Move>) {
    forall m :: m in moves ==>
      SideFits(registry, m.originals, m.fromXpaths) && SideFits(registry, m.modifieds, m.toXpaths)
  }

  ghost predicate SideFits(registry: seq<Candidate>, ids: seq<nat>, xpaths: seq<string>) {
    |ids| == |xpaths| && forall q :: 0 <= q < |ids| ==> ids[q] < |registry| && registry[ids[q]].xpath == xpaths[q]
  }

  /** A locator belongs to one file. */
  ghost predicate LocatorsNameFiles(registry: seq<Candidate>) {
    forall c, d :: c in registry && d in registry && c.xpath == d.xpath ==> c.revisionFile == d.revisionFile
  }

  ghost predicate Settled(moves: seq<Move>, id: string) { forall m :: m in moves && m.id == id ==> m.settled }

  // No member of a sequence belongs to a copy or to an unresolved residual.
  ghost predicate MembersSettled(moves: seq<Move>, sequences: seq<Sequence>) {
    forall k :: 0 <= k < |sequences| ==> MembersSettledAt(moves, sequences[k])
  }

  ghost predicate MembersSettledAt(moves: seq<Move>, s: Sequence) {
    forall id :: id in s.members ==> Settled(moves, id)
  }

  /** No joined link belongs to a copy or to an unresolved residual. */
  ghost predicate JoinedSettled(links: seq<Link>, moves: seq<Move>) {
    forall l :: l in links && Joined(links, l) ==> Settled(moves, l.moveId)
  }

  // The move of a link has one endpoint on each side, in the files of the link.
  lemma {:induction false} LinkedMoveInFiles(registry: seq<Candidate>, groups: seq<Group>, moves: seq<Move>, l: Link,
                                             m: Move)
    requires UniqueMoveIds(moves) && EndpointsFit(registry, moves) && LocatorsNameFiles(registry)
    requires l in SortedLinks(registry, groups, moves) && m in moves && m.id == l.moveId
    ensures |m.originals| == |m.modifieds| == 1 && m.originals[0] < |registry| && m.modifieds[0] < |registry|
    ensures registry[m.originals[0]].revisionFile == l.from.revisionFile
    ensures registry[m.modifieds[0]].revisionFile == l.to.revisionFile
  {
    var i := MoveOfLink(registry, groups, moves, l);
    var j :| 0 <= j < |moves| && moves[j] == m;
    assert i == j;
    assert SideFits(registry, m.originals, m.fromXpaths) && SideFits(registry, m.modifieds, m.toXpaths);
    assert registry[m.originals[0]] in registry && registry[m.modifieds[0]] in registry;
  }

  // A member of a built sequence fits exactly when it is settled.
  lemma {:induction false} MemberFitsIff(registry: seq<Candidate>, groups: seq<Group>, moves: seq<Move>, run: seq<Link>,
                                         id: string)
    requires UniqueMoveIds(moves) && EndpointsFit(registry, moves) && LocatorsNameFiles(registry)
    requires |run| >= 2 && Ordered(run) && forall l :: l in run ==> l in SortedLinks(registry, groups, moves)
    requires id in SequenceOf(run).members
    ensures MemberFits(registry, moves, SequenceOf(run), id) <==> Settled(moves, id)
  {
    RunSlots(run);
    var i :| 0 <= i < |run| && run[i].moveId == id;
    assert run[i] in run;
    forall m | m in moves && m.id == id ensures InFiles(registry, m, SequenceOf(run)) {
      LinkedMoveInFiles(registry, groups, moves, run[i], m);
    }
  }

  lemma {:induction false} MembersFitIff(registry: seq<Candidate>, groups: seq<Group>, moves: seq<Move>, k: nat)
    requires UniqueMoveIds(moves) && EndpointsFit(registry, moves) && LocatorsNameFiles(registry)
    requires k < |BuildSequences(registry, groups, moves)|
    ensures var s := BuildSequences(registry, groups, moves)[k];
            && (forall id :: id in s.members ==> (MemberFits(registry, moves, s, id) <==> Settled(moves, id)))
            && SpanCounts(s.from, |s.members|) && SpanCounts(s.to, |s.members|)
  {
    var s := BuildSequences(registry, groups, moves)[k];
    var run := SequenceShape(registry, groups, moves, k);
    forall id | id in s.members ensures MemberFits(registry, moves, s, id) <==> Settled(moves, id) {
      MemberFitsIff(registry, groups, moves, run, id);
    }
  }

  lemma {:induction false} ItemsAreAdmitted(registry: seq<Candidate>, groups: seq<Group>, moves: seq<Move>, r: Report)
    requires UniqueMoveIds(moves) && EndpointsFit(registry, moves) && LocatorsNameFiles(registry)
    requires MembersSettled(moves, BuildSequences(registry, groups, moves))
    requires r in ReportsOf(moves, BuildSequences(registry, groups, moves))
    ensures ItemAdmitted(registry, moves, BuildSequences(registry, groups, moves), r)
  {
    var sequences := BuildSequences(registry, groups, moves);
    BuiltSequencesAreWellFormed(registry, groups, moves);
    assert moves[..|moves|] == moves;
    ReportElements(moves, sequences, |moves|, r);
    var i :| 0 <= i < |moves| && ReportFor(sequences, moves[i]) == r;
    var k := Owner(sequences, moves[i].id);
    if k == |sequences| {
      assert IdsOf(moves)[i] == moves[i].id;
      AtomicItemIsAdmitted(registry, moves, sequences, moves[i]);
    } else {
      MembersFitIff(registry, groups, moves, k);
      assert MembersSettledAt(moves, sequences[k]);
      SequenceItemIsAdmitted(registry, moves, sequences, k);
    }
  }

  lemma {:induction false} AtomicItemIsAdmitted(registry: seq<Candidate>, moves: seq<Move>, sequences: seq<Sequence>,
                                                m: Move)
    requires m.id in IdsOf(moves)
    ensures ItemAdmitted(registry, moves, sequences, ItemReport(m))
  {
  }

  lemma {:induction false} SequenceItemIsAdmitted(registry: seq<Candidate>, moves: seq<Move>, sequences: seq<Sequence>,
                                                  k: nat)
    requires WellFormed(moves, sequences) && k < |sequences|
    requires SpanCounts(sequences[k].from, |sequences[k].members|)
             && SpanCounts(sequences[k].to, |sequences[k].members|)
    requires forall id :: id in sequences[k].members ==> MemberFits(registry, moves, sequences[k], id)
    ensures ItemAdmitted(registry, moves, sequences, SequenceReport(sequences[k]))
  {
    SequenceMembersAreType1(moves, sequences, k);
    Type1IdsAreMoves(moves, sequences[k].members);
    assert sequences[k] in sequences;
    forall s | s in sequences && s.id == sequences[k].id ensures s == sequences[k] {
      var l :| 0 <= l < |sequences| && sequences[l] == s;
      if l != k { SequenceIdsDiffer(moves, sequences, k, l); }
    }
  }

  // The report of a sequence is among the reports.
  lemma {:induction false} SequenceHasReport(moves: seq<Move>, sequences: seq<Sequence>, k: nat)
    requires WellFormed(moves, sequences) && k < |sequences|
    ensures SequenceReport(sequences[k]) in ReportsOf(moves, sequences)
  {
    var id := sequences[k].members[0];
    assert id in sequences[k].members;
    Type1IdsAreMoves(moves, sequences[k].members);
    var i :| 0 <= i < |moves| && IdsOf(moves)[i] == id;
    OwnerIsUnique(moves, sequences, k, id);
    assert ReportFor(sequences, moves[i]) == SequenceReport(sequences[k]);
    assert CalledFor(moves, sequences, |moves|, SequenceReport(sequences[k]));
    assert moves[..|moves|] == moves;
    ReportElements(moves, sequences, |moves|, SequenceReport(sequences[k]));
  }

  lemma {:induction false} AdmittedMembersAreSettled(registry: seq<Candidate>, groups: seq<Group>, moves: seq<Move>)
    requires UniqueMoveIds(moves) && EndpointsFit(registry, moves) && LocatorsNameFiles(registry)
    requires var sequences := BuildSequences(registry, groups, moves);
             forall r :: r in ReportsOf(moves, sequences) ==> ItemAdmitted(registry, moves, sequences, r)
    ensures MembersSettled(moves, BuildSequences(registry, groups, moves))
  {
    var sequences := BuildSequences(registry, groups, moves);
    BuiltSequencesAreWellFormed(registry, groups, moves);
    forall k | 0 <= k < |sequences| ensures MembersSettledAt(moves, sequences[k]) {
      SequenceHasReport(moves, sequences, k);
      MembersFitIff(registry, groups, moves, k);
      assert ItemAdmitted(registry, moves, sequences, SequenceReport(sequences[k]));
      assert sequences[k] in sequences;
    }
  }

  lemma {:induction false} Type1IdsAreMoves(moves: seq<Move>, members: seq<string>)
    requires forall id :: id in members ==> IsType1(moves, id)
    ensures forall id :: id in members ==> id in IdsOf(moves)
  {
    forall id | id in members ensures id in IdsOf(moves) {
      var m :| m in moves && m.id == id && m.relationship == "type1";
      var j :| 0 <= j < |moves| && moves[j] == m;
      assert IdsOf(moves)[j] == id;
    }
  }

  lemma {:induction false} EveryMoveIsReported(moves: seq<Move>, sequences: seq<Sequence>)
    requires WellFormed(moves, sequences)
    ensures forall id :: id in IdsOf(moves) ==> exists r :: r in ReportsOf(moves, sequences) && id in r.members
  {
    var reports := ReportsOf(moves, sequences);
    ReportsPartitionMoves(moves, sequences);
    SameElements(Flatten(reports), IdsOf(moves));
    forall id | id in IdsOf(moves) ensures exists r :: r in reports && id in r.members { FlattenElements(reports, id); }
  }

  /** What `build_move_sequences` and `build_reported_moves` produce passes the result validator if and
      only if no candidate is an endpoint twice, no joined link belongs to a copy or an unresolved
      residual, and no two joined links occupy the same sibling slot. */
  lemma {:induction false} OutputIsAdmittedIff(registry: seq<Candidate>, groups: seq<Group>, moves: seq<Move>)
    requires UniqueMoveIds(moves) && EndpointsFit(registry, moves) && LocatorsNameFiles(registry)
    ensures var sequences := BuildSequences(registry, groups, moves);
            var links := SortedLinks(registry, groups, moves);
            OutputAdmitted(registry, moves, sequences, ReportsOf(moves, sequences)) <==>
            EndpointsOwned(moves) && JoinedSettled(links, moves) && SlotsFree(links)
  {
    var links := SortedLinks(registry, groups, moves);
    SortedLinksArePrepared(registry, groups, moves);
    ItemChecksPass(registry, groups, moves);
    MembersSettledIff(links, moves);
    SpansApartIff(links);
    SlotsDistinctIff(links);
  }

  lemma {:induction false} MembersSettledIff(links: seq<Link>, moves: seq<Move>)
    requires Prepared(links)
    ensures MembersSettled(moves, SequencesFrom(links, 0)) <==> JoinedSettled(links, moves)
  {
    var sequences := SequencesFrom(links, 0);
    if MembersSettled(moves, sequences) {
      forall l | l in links && Joined(links, l) ensures Settled(moves, l.moveId) {
        var i :| 0 <= i < |links| && links[i] == l;
        var k := JoinedAreMembers(links, i);
        assert MembersSettledAt(moves, sequences[k]);
      }
    }
    if JoinedSettled(links, moves) {
      forall k | 0 <= k < |sequences| ensures MembersSettledAt(moves, sequences[k]) {
        forall id | id in sequences[k].members ensures Settled(moves, id) {
          var i := MemberLink(links, k, id);
          MembersAreJoined(links, i, k);
        }
      }
    }
  }

  lemma {:induction false} OwnedPairsAreDistinct(moves: seq<Move>)
    requires EndpointsOwned(moves)
    ensures PairsDistinct(moves)
  {
    forall i, j | 0 <= i < j < |moves| && SelectedPair(moves[i]) && SelectedPair(moves[j])
      ensures moves[i].originals != moves[j].originals
    {
      assert HasEndpoint(moves[i], moves[i].originals[0]);
    }
  }

  // The remaining checks always pass.
  lemma {:induction false} ItemChecksPass(registry: seq<Candidate>, groups: seq<Group>, moves: seq<Move>)
    requires UniqueMoveIds(moves) && EndpointsFit(registry, moves) && LocatorsNameFiles(registry)
    ensures var sequences := BuildSequences(registry, groups, moves);
            OutputAdmitted(registry, moves, sequences, ReportsOf(moves, sequences)) <==>
            EndpointsOwned(moves) && MembersSettled(moves, sequences) && SequenceSpansApart(sequences)
  {
    var sequences := BuildSequences(registry, groups, moves);
    var reports := ReportsOf(moves, sequences);
    BuiltSequencesAreWellFormed(registry, groups, moves);
    ReportsPartitionMoves(moves, sequences);
    ReportsHaveDisjointMembers(moves, sequences);
    EveryMoveIsReported(moves, sequences);
    if EndpointsOwned(moves) { OwnedPairsAreDistinct(moves); }
    if MembersSettled(moves, sequences) {
      forall r | r in reports ensures ItemAdmitted(registry, moves, sequences, r) {
        ItemsAreAdmitted(registry, groups, moves, r);
      }
    }
    if forall r :: r in reports ==> ItemAdmitted(registry, moves, sequences, r) {
      AdmittedMembersAreSettled(registry, groups, moves);
    }
  }

  lemma {:induction false} SpansApartIff(links: seq<Link>)
    requires Prepared(links)
    ensures SequenceSpansApart(SequencesFrom(links, 0)) <==> SlotsDistinct(links, SequencesFrom(links, 0))
  {
    var sequences := SequencesFrom(links, 0);
    forall k, l | 0 <= k < l < |sequences|
      ensures PairApart(sequences[k], sequences[l]) <==> PairDistinct(links, sequences[k], sequences[l])
    {
      PairApartIff(links, k, l);
    }
  }

  /** No two moves have one and the same target. */
  ghost predicate OwnTargets(moves: seq<Move>) {
    forall i, j :: 0 <= i < j < |moves| && |moves[i].toXpaths| == 1 ==> moves[i].toXpaths != moves[j].toXpaths
  }

  lemma {:induction false} OwnEndsGiveOwnSlots(registry: seq<Candidate>, groups: seq<Group>, moves: seq<Move>, a: Link,
                                               b: Link)
    requires UniqueMoveIds(moves) && SlotsNameXpaths(registry) && OwnSources(moves) && OwnTargets(moves)
    requires a in SortedLinks(registry, groups, moves) && b in SortedLinks(registry, groups, moves)
    requires a.moveId != b.moveId
    ensures !SameSlot(a.from, b.from) && !SameSlot(a.to, b.to)
  {
    var i := MoveOfLink(registry, groups, moves, a);
    var j := MoveOfLink(registry, groups, moves, b);
    if i < j { assert moves[i].fromXpaths != moves[j].fromXpaths && moves[i].toXpaths != moves[j].toXpaths; }
    if j < i { assert moves[j].fromXpaths != moves[i].fromXpaths && moves[j].toXpaths != moves[i].toXpaths; }
  }

  lemma {:induction false} OwnEndsFreeSlots(registry: seq<Candidate>, groups: seq<Group>, moves: seq<Move>)
    requires UniqueMoveIds(moves) && SlotsNameXpaths(registry) && OwnSources(moves) && OwnTargets(moves)
    ensures SlotsFree(SortedLinks(registry, groups, moves))
  {
    var links := SortedLinks(registry, groups, moves);
    SortedLinksArePrepared(registry, groups, moves);
    forall a, b | a in links && b in links && a != b ensures !SameSlot(a.from, b.from) && !SameSlot(a.to, b.to) {
      if a.moveId == b.moveId { LinksWithOneId(links, a, b); }
      OwnEndsGiveOwnSlots(registry, groups, moves, a, b);
    }
  }

  lemma {:induction false} LinksWithOneId(links: seq<Link>, a: Link, b: Link)
    requires UniqueLinkIds(links) && a in links && b in links && a.moveId == b.moveId
    ensures a == b
  {
    var i :| 0 <= i < |links| && links[i] == a;
    var j :| 0 <= j < |links| && links[j] == b;
  }
}
