/** What the sequences of src/move_sequences.cpp guarantee: shape, disjointness and global maximality. */
module SequenceProperties {
  import opened Wrappers
  import opened Ordering
  import opened MoveSequences

  // Neighbouring links of links[b..e] continue each other.
  ghost predicate IsRun(links: seq<Link>, b: nat, e: nat) {
    b <= e <= |links| && forall k :: b < k < e ==> Continues(links, k)
  }

  /** What `build_move_sequences` may rely on about the links it sorts. */
  ghost predicate Prepared(links: seq<Link>) {
    && Sorted(LinkLess, links) && StrictOrder(LinkLess) && TotalOn(LinkLess, links)
    && UniqueLinkIds(links)
    && forall l :: l in links ==> ReliableChild(l.from) && ReliableChild(l.to)
  }

  lemma {:induction false} SortKeepsUniqueIds(links: seq<Link>, sorted: seq<Link>)
    requires UniqueLinkIds(links) && multiset(links) == multiset(sorted)
    ensures UniqueLinkIds(sorted)
  {
    SameElements(links, sorted);
    forall i, j | 0 <= i < j < |links| ensures links[i] != links[j] { assert links[i].moveId != links[j].moveId; }
    DistinctIsMultisetProperty(links, sorted);
    forall i, j | 0 <= i < j < |sorted| ensures sorted[i].moveId != sorted[j].moveId {
      assert sorted[i] in links && sorted[j] in links && sorted[i] != sorted[j];
    }
  }

  lemma {:induction false} SortedLinksArePrepared(registry: seq<Candidate>, groups: seq<Group>, moves: seq<Move>)
    requires UniqueMoveIds(moves)
    ensures Prepared(SortedLinks(registry, groups, moves))
    ensures forall l :: l in SortedLinks(registry, groups, moves) ==>
              exists m :: m in moves && m.id == l.moveId && m.relationship == "type1"
  {
    var byFrom := ByFromXpath(registry, groups);
    var links := Links(registry, byFrom, moves);
    var sorted := SortedLinks(registry, groups, moves);
    LinksAreUnique(registry, byFrom, moves);
    LinksElements(registry, byFrom, moves);
    LinkLessIsOrder(links);
    SortSorts(LinkLess, links);
    SameElements(links, sorted);
    SortKeepsUniqueIds(links, sorted);
    forall l | l in sorted
      ensures ReliableChild(l.from) && ReliableChild(l.to)
      ensures exists m :: m in moves && m.id == l.moveId && m.relationship == "type1"
    {
      var m :| m in moves && LinkOf(registry, byFrom, m) == Some(l);
    }
  }

  // ----- ranges and sequences -----

  // The sequences of these ranges.
  function SequencesOf(links: seq<Link>, ranges: seq<Range>): (r: seq<Sequence>)
    requires forall k :: 0 <= k < |ranges| ==> ranges[k].begin < ranges[k].end <= |links|
    ensures |r| == |ranges|
    ensures forall k :: 0 <= k < |r| ==> r[k] == SequenceOf(links[ranges[k].begin..ranges[k].end])
  {
    seq(|ranges|, k requires 0 <= k < |ranges| => SequenceOf(links[ranges[k].begin..ranges[k].end]))
  }

  lemma {:induction false} SequencesAreRanges(links: seq<Link>, begin: nat)
    requires begin <= |links|
    ensures SequencesFrom(links, begin) == SequencesOf(links, Ranges(links, begin))
    decreases |links| - begin
  {
    if begin < |links| {
      var end := RunEnd(links, begin + 1);
      SequencesAreRanges(links, end);
      if end - begin >= 2 { FirstOfSequences(links, Range(begin, end), Ranges(links, end)); }
    }
  }

  lemma {:induction false} FirstOfSequences(links: seq<Link>, first: Range, rest: seq<Range>)
    requires first.begin < first.end <= |links|
    requires forall k :: 0 <= k < |rest| ==> rest[k].begin < rest[k].end <= |links|
    ensures SequencesOf(links, [first] + rest) == [SequenceOf(links[first.begin..first.end])] + SequencesOf(links, rest)
  {
  }

  lemma {:induction false} RangesAreRuns(links: seq<Link>, begin: nat, k: nat)
    requires begin <= |links| && k < |Ranges(links, begin)|
    ensures IsRun(links, Ranges(links, begin)[k].begin, Ranges(links, begin)[k].end)
    decreases |links| - begin
  {
    var end := RunEnd(links, begin + 1);
    var here := if end - begin >= 2 then 1 else 0;
    RangesStep(links, begin, k);
    if k >= here { RangesAreRuns(links, end, k - here); }
  }

  // Sequence k is range k, and that range is a run.
  lemma {:induction false} SequenceAt(links: seq<Link>, begin: nat, k: nat)
    requires begin <= |links| && k < |Ranges(links, begin)|
    ensures |SequencesFrom(links, begin)| == |Ranges(links, begin)|
    ensures var r := Ranges(links, begin)[k];
            SequencesFrom(links, begin)[k] == SequenceOf(links[r.begin..r.end]) && IsRun(links, r.begin, r.end)
  {
    SequencesAreRanges(links, begin);
    RangesAreRuns(links, begin, k);
  }

  lemma {:induction false} SequenceCount(links: seq<Link>, begin: nat)
    requires begin <= |links|
    ensures |SequencesFrom(links, begin)| == |Ranges(links, begin)|
  {
    SequencesAreRanges(links, begin);
  }

  lemma {:induction false} RangesStep(links: seq<Link>, begin: nat, k: nat)
    requires begin < |links| && k < |Ranges(links, begin)|
    ensures var end := RunEnd(links, begin + 1);
            var here := if end - begin >= 2 then 1 else 0;
            && (k < here ==> Ranges(links, begin)[k] == Range(begin, end))
            && (k >= here ==>
               k - here < |Ranges(links, end)| && Ranges(links, begin)[k] == Ranges(links, end)[k - here])
  {
  }

  lemma {:induction false} RangesStepBack(links: seq<Link>, begin: nat, k: nat)
    requires begin < |links|
    ensures var end := RunEnd(links, begin + 1);
            var here := if end - begin >= 2 then 1 else 0;
            && |Ranges(links, begin)| == |Ranges(links, end)| + here
            && (here == 1 ==> Ranges(links, begin)[0] == Range(begin, end))
            && (k < |Ranges(links, end)| ==> Ranges(links, begin)[k + here] == Ranges(links, end)[k])
  {
  }

  // No link is cut off from the link it continues.
  lemma {:induction false} RangeCovers(links: seq<Link>, begin: nat, i: nat) returns (k: nat)
    requires begin < i && Continues(links, i)
    ensures k < |Ranges(links, begin)| && Ranges(links, begin)[k].begin < i < Ranges(links, begin)[k].end
    decreases |links| - begin
  {
    var end := RunEnd(links, begin + 1);
    if i < end {
      RangesStepBack(links, begin, 0);
      k := 0;
    } else {
      assert i != end;
      k := RangeCoversLater(links, begin, end, i);
    }
  }

  lemma {:induction false} RangeCoversLater(links: seq<Link>, begin: nat, end: nat, i: nat) returns (k: nat)
    requires Continues(links, i) && begin < end < i && end == RunEnd(links, begin + 1)
    ensures k < |Ranges(links, begin)| && Ranges(links, begin)[k].begin < i < Ranges(links, begin)[k].end
    decreases |links| - begin, 0
  {
    var rest := RangeCovers(links, end, i);
    RangesStepBack(links, begin, rest);
    k := rest + if end - begin >= 2 then 1 else 0;
  }

  // Within a run the ordinals count up together and the spans stay apart.
  lemma {:induction false} RunCountsUp(links: seq<Link>, b: nat, e: nat, i: nat, j: nat)
    requires Prepared(links) && IsRun(links, b, e) && b <= i < j < e
    ensures PartitionKey(links[i]) == PartitionKey(links[j])
    ensures links[j].from.ordinal == links[i].from.ordinal + (j - i)
    ensures links[j].to.ordinal == links[i].to.ordinal + (j - i)
    ensures links[i].from.end < links[j].from.start && links[i].to.end < links[j].to.start
    decreases j - i
  {
    assert Continues(links, j);
    if i < j - 1 {
      assert ReliableChild(links[j - 1].from) && ReliableChild(links[j - 1].to);
      RunCountsUp(links, b, e, i, j - 1);
    }
  }

  ghost predicate Ordered(run: seq<Link>) {
    forall i, j :: 0 <= i < j < |run| ==>
      && PartitionKey(run[i]) == PartitionKey(run[j])
      && run[j].from.ordinal == run[i].from.ordinal + (j - i)
      && run[j].to.ordinal == run[i].to.ordinal + (j - i)
      && run[i].from.end < run[j].from.start
      && run[i].to.end < run[j].to.start
  }

  lemma {:induction false} RunIsOrdered(links: seq<Link>, b: nat, e: nat)
    requires Prepared(links) && IsRun(links, b, e)
    ensures Ordered(links[b..e])
  {
    var run := links[b..e];
    forall i, j | 0 <= i < j < |run|
      ensures && PartitionKey(run[i]) == PartitionKey(run[j])
              && run[j].from.ordinal == run[i].from.ordinal + (j - i)
              && run[j].to.ordinal == run[i].to.ordinal + (j - i)
              && run[i].from.end < run[j].from.start
              && run[i].to.end < run[j].to.start
    {
      RunCountsUp(links, b, e, b + i, b + j);
    }
  }

  /** The shape of a sequence: it is an ordered run of at least two selected links, whose members
      share both parents, lie apart and in order on both sides, and fill its ordinal span exactly. */
  lemma {:induction false} SequenceShape(registry: seq<Candidate>, groups: seq<Group>, moves: seq<Move>,
                                         k: nat) returns (run: seq<Link>)
    requires UniqueMoveIds(moves) && k < |BuildSequences(registry, groups, moves)|
    ensures |run| >= 2 && Ordered(run) && BuildSequences(registry, groups, moves)[k] == SequenceOf(run)
    ensures forall l :: l in run ==> l in SortedLinks(registry, groups, moves)
    ensures var s := BuildSequences(registry, groups, moves)[k];
            && s.from.lastOrdinal - s.from.firstOrdinal + 1 == |s.members|
            && s.to.lastOrdinal - s.to.firstOrdinal + 1 == |s.members|
            && s.from.firstOrdinal >= 1 && s.to.firstOrdinal >= 1
  {
    SortedLinksArePrepared(registry, groups, moves);
    run := RunOfSequence(SortedLinks(registry, groups, moves), k);
    RunSpan(run);
    assert run[0] in run;
  }

  lemma {:induction false} RunOfSequence(links: seq<Link>, k: nat) returns (run: seq<Link>)
    requires Prepared(links) && k < |SequencesFrom(links, 0)|
    ensures |run| >= 2 && Ordered(run) && SequencesFrom(links, 0)[k] == SequenceOf(run)
    ensures forall l :: l in run ==> l in links
  {
    SequenceCount(links, 0);
    SequenceAt(links, 0, k);
    var b, e := Ranges(links, 0)[k].begin, Ranges(links, 0)[k].end;
    run := links[b..e];
    RunIsOrdered(links, b, e);
  }

  lemma {:induction false} RunSpan(run: seq<Link>)
    requires |run| >= 2 && Ordered(run)
    ensures SequenceOf(run).from.lastOrdinal == SequenceOf(run).from.firstOrdinal + |run| - 1
    ensures SequenceOf(run).to.lastOrdinal == SequenceOf(run).to.firstOrdinal + |run| - 1
    ensures SequenceOf(run).from.firstOrdinal == run[0].from.ordinal
    ensures SequenceOf(run).to.firstOrdinal == run[0].to.ordinal
  {
  }

  // ----- sharing a sequence -----

  ghost predicate ShareSequence(sequences: seq<Sequence>, a: string, b: string) {
    exists k :: 0 <= k < |sequences| && a in sequences[k].members && b in sequences[k].members
  }

  // A link's move is a member of sequence k exactly when its index lies in range k.
  lemma {:induction false} MemberIndex(links: seq<Link>, k: nat, i: nat)
    requires UniqueLinkIds(links) && k < |SequencesFrom(links, 0)| && i < |links|
    ensures |SequencesFrom(links, 0)| == |Ranges(links, 0)|
    ensures links[i].moveId in SequencesFrom(links, 0)[k].members <==>
            Ranges(links, 0)[k].begin <= i < Ranges(links, 0)[k].end
  {
    SequenceCount(links, 0);
    SequenceAt(links, 0, k);
    RunMemberIndex(links, Ranges(links, 0)[k].begin, Ranges(links, 0)[k].end, i);
  }

  lemma {:induction false} RunMemberIndex(links: seq<Link>, b: nat, e: nat, i: nat)
    requires UniqueLinkIds(links) && b < e <= |links| && i < |links|
    ensures links[i].moveId in SequenceOf(links[b..e]).members <==> b <= i < e
  {
    var members := SequenceOf(links[b..e]).members;
    if b <= i < e { assert members[i - b] == links[i].moveId; }
    if links[i].moveId in members {
      var j :| 0 <= j < |members| && members[j] == links[i].moveId;
      assert links[b + j].moveId == links[i].moveId;
    }
  }

  // Every member of a sequence is the move of some link.
  lemma {:induction false} MemberLink(links: seq<Link>, k: nat, id: string) returns (i: nat)
    requires k < |SequencesFrom(links, 0)| && id in SequencesFrom(links, 0)[k].members
    ensures i < |links| && links[i].moveId == id
  {
    SequenceCount(links, 0);
    SequenceAt(links, 0, k);
    var members := SequencesFrom(links, 0)[k].members;
    var j :| 0 <= j < |members| && members[j] == id;
    i := Ranges(links, 0)[k].begin + j;
  }

  /** Every move belongs to at most one sequence. */
  lemma {:induction false} SequencesAreDisjoint(links: seq<Link>, k: nat, l: nat, id: string)
    requires UniqueLinkIds(links) && k < l < |SequencesFrom(links, 0)|
    ensures !(id in SequencesFrom(links, 0)[k].members && id in SequencesFrom(links, 0)[l].members)
  {
    if id in SequencesFrom(links, 0)[k].members {
      var i := MemberLink(links, k, id);
      MemberIndex(links, k, i);
      MemberIndex(links, l, i);
    }
  }

  lemma {:induction false} ConsecutiveNeighboursShare(links: seq<Link>, i: nat)
    requires UniqueLinkIds(links) && i + 1 < |links| && Consecutive(links[i], links[i + 1])
    ensures ShareSequence(SequencesFrom(links, 0), links[i].moveId, links[i + 1].moveId)
  {
    assert Continues(links, i + 1);
    SequenceCount(links, 0);
    var k := RangeCovers(links, 0, i + 1);
    MemberIndex(links, k, i);
    MemberIndex(links, k, i + 1);
  }

  lemma {:induction false} NeighboursShareIff(links: seq<Link>, i: nat)
    requires UniqueLinkIds(links) && i + 1 < |links|
    ensures ShareSequence(SequencesFrom(links, 0), links[i].moveId, links[i + 1].moveId) <==>
            Consecutive(links[i], links[i + 1])
  {
    var sequences, a, b := SequencesFrom(links, 0), links[i].moveId, links[i + 1].moveId;
    if Consecutive(links[i], links[i + 1]) { ConsecutiveNeighboursShare(links, i); }
    if ShareSequence(sequences, a, b) {
      var k :| 0 <= k < |sequences| && a in sequences[k].members && b in sequences[k].members;
      MemberIndex(links, k, i);
      MemberIndex(links, k, i + 1);
      SequenceAt(links, 0, k);
      assert Continues(links, i + 1);
    }
  }

  // Links further apart are never consecutive and together at once.
  lemma {:induction false} DistantLinksDoNotShare(links: seq<Link>, i: nat, j: nat)
    requires Prepared(links) && i + 1 < j < |links| && Consecutive(links[i], links[j])
    ensures !ShareSequence(SequencesFrom(links, 0), links[i].moveId, links[j].moveId)
  {
    var sequences := SequencesFrom(links, 0);
    forall k | 0 <= k < |sequences|
      ensures !(links[i].moveId in sequences[k].members && links[j].moveId in sequences[k].members)
    {
      MemberIndex(links, k, i);
      MemberIndex(links, k, j);
      var b, e := Ranges(links, 0)[k].begin, Ranges(links, 0)[k].end;
      if b <= i && j < e {
        SequenceAt(links, 0, k);
        RunCountsUp(links, b, e, i, j);
      }
    }
  }

  /** No selected link sorts strictly between two others. */
  ghost predicate NothingBetween(links: seq<Link>, a: Link, b: Link) {
    forall l :: l in links ==> !(LinkLess(a, l) && LinkLess(l, b))
  }

  lemma {:induction false} ConsecutiveSorts(links: seq<Link>, i: nat, j: nat)
    requires Prepared(links) && i < |links| && j < |links| && Consecutive(links[i], links[j])
    ensures i < j
    ensures NothingBetween(links, links[i], links[j]) <==> j == i + 1
  {
    assert LinkLess(links[i], links[j]);
    assert !LinkLess(links[i], links[i]);
    if i + 1 < j {
      assert links[i].moveId != links[i + 1].moveId && links[i + 1].moveId != links[j].moveId;
      assert links[i + 1] in links;
      assert LinkLess(links[i], links[i + 1]) && LinkLess(links[i + 1], links[j]);
    }
    if i + 1 == j {
      forall l | l in links ensures !(LinkLess(links[i], l) && LinkLess(l, links[j])) {
        var m :| 0 <= m < |links| && links[m] == l;
        assert m <= i || j <= m;
      }
    }
  }

  lemma {:induction false} ConsecutiveShareIffNext(links: seq<Link>, i: nat, j: nat)
    requires Prepared(links) && i < j < |links| && Consecutive(links[i], links[j])
    ensures ShareSequence(SequencesFrom(links, 0), links[i].moveId, links[j].moveId) <==> j == i + 1
  {
    if j == i + 1 { NeighboursShareIff(links, i); } else { DistantLinksDoNotShare(links, i, j); }
  }

  /** Global maximality, exactly: two links that continue each other land in one sequence if and
      only if no selected link sorts between them. */
  lemma {:induction false} ConsecutiveLinksShareIff(links: seq<Link>, a: Link, b: Link)
    requires Prepared(links) && a in links && b in links && Consecutive(a, b)
    ensures ShareSequence(SequencesFrom(links, 0), a.moveId, b.moveId) <==> NothingBetween(links, a, b)
  {
    var i :| 0 <= i < |links| && links[i] == a;
    var j :| 0 <= j < |links| && links[j] == b;
    ConsecutiveSorts(links, i, j);
    ConsecutiveShareIffNext(links, i, j);
  }

  /** No two links of one partition sit at the same source sibling. */
  ghost predicate DistinctSourceOrdinals(links: seq<Link>) {
    forall i, j :: 0 <= i < j < |links| && PartitionKey(links[i]) == PartitionKey(links[j]) ==>
      links[i].from.ordinal != links[j].from.ordinal
  }

  /** With distinct source ordinals in a partition, nothing ever sorts between consecutive links, so
      sequences are globally maximal. */
  lemma {:induction false} DistinctOrdinalsGiveMaximality(links: seq<Link>, a: Link, b: Link)
    requires Prepared(links) && DistinctSourceOrdinals(links)
    requires a in links && b in links && Consecutive(a, b)
    ensures ShareSequence(SequencesFrom(links, 0), a.moveId, b.moveId)
  {
    ListLessIsTotalOrder();
    forall l | l in links ensures !(LinkLess(a, l) && LinkLess(l, b)) {
      var i :| 0 <= i < |links| && links[i] == a;
      var j :| 0 <= j < |links| && links[j] == b;
      var m :| 0 <= m < |links| && links[m] == l;
      if PartitionKey(l) == PartitionKey(a) {
        assert m != i ==> l.from.ordinal != a.from.ordinal;
        assert m != j ==> l.from.ordinal != b.from.ordinal;
      }
    }
    ConsecutiveLinksShareIff(links, a, b);
  }

  // ----- on the inputs of the construction -----

  /** The sorted links are the links of the moves. */
  lemma {:induction false} SortedLinksElements(registry: seq<Candidate>, groups: seq<Group>, moves: seq<Move>)
    requires UniqueMoveIds(moves)
    ensures forall l :: l in SortedLinks(registry, groups, moves) <==>
              exists m :: m in moves && LinkOf(registry, ByFromXpath(registry, groups), m) == Some(l)
  {
    var byFrom := ByFromXpath(registry, groups);
    var links := Links(registry, byFrom, moves);
    LinksAreUnique(registry, byFrom, moves);
    LinksElements(registry, byFrom, moves);
    LinkLessIsOrder(links);
    SortSorts(LinkLess, links);
    SameElements(links, SortedLinks(registry, groups, moves));
  }

  ghost predicate SameSlot(c: Candidate, d: Candidate) {
    c.revisionFile == d.revisionFile && c.parentId == d.parentId && c.ordinal == d.ordinal
  }

  /** A sibling has one locator. */
  ghost predicate SlotsNameXpaths(registry: seq<Candidate>) {
    forall c, d :: c in registry && d in registry && SameSlot(c, d) ==> c.xpath == d.xpath
  }

  /** No two moves have one and the same source. */
  ghost predicate OwnSources(moves: seq<Move>) {
    forall i, j :: 0 <= i < j < |moves| && |moves[i].fromXpaths| == 1 ==> moves[i].fromXpaths != moves[j].fromXpaths
  }

  lemma {:induction false} LinkEnds(registry: seq<Candidate>, groups: seq<Group>, m: Move, l: Link)
    requires LinkOf(registry, ByFromXpath(registry, groups), m) == Some(l)
    ensures l.moveId == m.id && l.from in registry && l.to in registry
    ensures m.fromXpaths == [l.from.xpath] && m.toXpaths == [l.to.xpath]
  {
    var xpath := m.fromXpaths[0];
    ByFromXpathIsUnique(registry, groups, xpath);
    MatchingQualifies(registry, groups, xpath);
    var matching := Matching(registry, groups, xpath);
    assert |matching| == 1 && matching[0] in matching;
  }

  lemma {:induction false} MatchingQualifies(registry: seq<Candidate>, groups: seq<Group>, xpath: string)
    ensures forall g :: g in Matching(registry, groups, xpath) ==> g in groups && QualifiesFor(registry, g, xpath)
  {
    if groups != [] { MatchingQualifies(registry, groups[..|groups| - 1], xpath); }
  }

  // The move that a selected link was made for.
  lemma {:induction false} MoveOfLink(registry: seq<Candidate>, groups: seq<Group>, moves: seq<Move>, l: Link)
      returns (i: nat)
    requires UniqueMoveIds(moves) && l in SortedLinks(registry, groups, moves)
    ensures i < |moves| && moves[i].id == l.moveId && l.from in registry && l.to in registry
    ensures moves[i].fromXpaths == [l.from.xpath] && moves[i].toXpaths == [l.to.xpath]
  {
    SortedLinksElements(registry, groups, moves);
    var m :| m in moves && LinkOf(registry, ByFromXpath(registry, groups), m) == Some(l);
    LinkEnds(registry, groups, m, l);
    i :| 0 <= i < |moves| && moves[i] == m;
  }

  lemma {:induction false} LinksOfOwnSources(registry: seq<Candidate>, groups: seq<Group>, moves: seq<Move>,
                                             k: Link, l: Link)
    requires UniqueMoveIds(moves) && SlotsNameXpaths(registry) && OwnSources(moves) && k.moveId != l.moveId
    requires k in SortedLinks(registry, groups, moves) && l in SortedLinks(registry, groups, moves)
    ensures !SameSlot(k.from, l.from)
  {
    var i := MoveOfLink(registry, groups, moves, k);
    var j := MoveOfLink(registry, groups, moves, l);
    if i < j { assert moves[i].fromXpaths != moves[j].fromXpaths; }
    if j < i { assert moves[j].fromXpaths != moves[i].fromXpaths; }
  }

  /** When every move has a source of its own and a sibling has one locator, sequences are globally
      maximal whatever the moves and groups. */
  lemma {:induction false} OwnSourcesGiveMaximality(registry: seq<Candidate>, groups: seq<Group>, moves: seq<Move>,
                                                    a: Link, b: Link)
    requires UniqueMoveIds(moves) && SlotsNameXpaths(registry) && OwnSources(moves)
    requires a in SortedLinks(registry, groups, moves) && b in SortedLinks(registry, groups, moves) && Consecutive(a, b)
    ensures ShareSequence(BuildSequences(registry, groups, moves), a.moveId, b.moveId)
  {
    var links := SortedLinks(registry, groups, moves);
    SortedLinksArePrepared(registry, groups, moves);
    forall i, j | 0 <= i < j < |links| && PartitionKey(links[i]) == PartitionKey(links[j])
      ensures links[i].from.ordinal != links[j].from.ordinal
    {
      LinksOfOwnSources(registry, groups, moves, links[i], links[j]);
      var key, other := PartitionKey(links[i]), PartitionKey(links[j]);
      assert key[0] == other[0] && key[1] == other[1];
    }
    DistinctOrdinalsGiveMaximality(links, a, b);
  }
}
