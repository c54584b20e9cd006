/** Ordered move sequences (src/move_sequences.cpp).

    Selected one-to-one Type-1 moves of sibling statements are sorted by their place in the source
    and destination parents, and maximal runs of adjacent siblings become sequences. */
module MoveSequences {
  import opened Wrappers
  import opened Ordering

  datatype Role = DiffWrapper | SingleChildWrapper | MultiChildWrapper | StructuralChild

  datatype Candidate = Candidate(role: Role, contextReliable: bool, parentId: string, ordinal: nat,
                                 revisionFile: string, xpath: string, start: nat, end: nat)

  datatype MatchKind = Type1 | Type2 | Unmatched | Type3

  datatype GroupKind = Move1To1 | MovesMany | DeleteOnly | InsertOnly | CopyOrRepeat | Ambiguous

  /** A content group: registry ids of its deleted and inserted candidates.  It is settled unless it is a
      continuing-source copy or an unresolved residual. */
  datatype Group = Group(match_: MatchKind, kind: GroupKind, deletes: seq<nat>, inserts: seq<nat>, settled: bool)

  /** A selected move.  `originals` and `modifieds` are the registry ids of its endpoints, and it is settled
      when its group is. */
  datatype Move = Move(id: string, relationship: string, fromXpaths: seq<string>, toXpaths: seq<string>,
                       originals: seq<nat>, modifieds: seq<nat>, settled: bool)

  datatype Link = Link(moveId: string, from: Candidate, to: Candidate)

  datatype Endpoint = Endpoint(revisionFile: string, parentId: string, firstOrdinal: nat, lastOrdinal: nat,
                               memberXpaths: seq<string>)

  datatype Sequence = Sequence(id: string, members: seq<string>, from: Endpoint, to: Endpoint)

  // The links from `begin` up to `end`.
  datatype Range = Range(begin: nat, end: nat)

  const EMPTY_ENDPOINT := Endpoint("", "", 0, 0, [])

  // Groups name registered candidates.
  predicate IdsInRange(registry: seq<Candidate>, groups: seq<Group>) {
    forall g :: g in groups ==>
      (forall i :: 0 <= i < |g.deletes| ==> g.deletes[i] < |registry|) &&
      (forall i :: 0 <= i < |g.inserts| ==> g.inserts[i] < |registry|)
  }

  predicate ReliableChild(c: Candidate) {
    && c.role == StructuralChild && c.contextReliable && c.parentId != "" && c.ordinal != 0
    && c.revisionFile != "" && c.xpath != "" && c.start < c.end
  }

  function PartitionKey(l: Link): seq<string> {
    [l.from.revisionFile, l.from.parentId, l.to.revisionFile, l.to.parentId]
  }

  predicate Consecutive(previous: Link, next: Link) {
    && PartitionKey(previous) == PartitionKey(next)
    && next.from.ordinal > previous.from.ordinal && next.from.ordinal - previous.from.ordinal == 1
    && next.to.ordinal > previous.to.ordinal && next.to.ordinal - previous.to.ordinal == 1
    && previous.from.end < next.from.start
    && previous.to.end < next.to.start
  }

  // ----- selecting the links -----

  predicate Qualifies(registry: seq<Candidate>, g: Group) {
    && g.match_ == Type1 && g.kind == Move1To1 && |g.deletes| == 1 && |g.inserts| == 1
    && g.deletes[0] < |registry| && g.inserts[0] < |registry|
    && ReliableChild(registry[g.deletes[0]]) && ReliableChild(registry[g.inserts[0]])
  }

  predicate QualifiesFor(registry: seq<Candidate>, g: Group, xpath: string) {
    Qualifies(registry, g) && registry[g.deletes[0]].xpath == xpath
  }

  // A key is None once a second group claims it.
  function ByFromXpath(registry: seq<Candidate>, groups: seq<Group>): map<string, Option<Group>> {
    if groups == [] then map[]
    else
      var n := |groups| - 1;
      var m := ByFromXpath(registry, groups[..n]);
      if !Qualifies(registry, groups[n]) then m
      else
        var xpath := registry[groups[n].deletes[0]].xpath;
        m[xpath := if xpath in m then None else Some(groups[n])]
  }

  function LinkOf(registry: seq<Candidate>, byFrom: map<string, Option<Group>>, m: Move): Option<Link> {
    if m.relationship != "type1" || |m.fromXpaths| != 1 || |m.toXpaths| != 1 || m.id == "" then None
    else if m.fromXpaths[0] !in byFrom || byFrom[m.fromXpaths[0]] == None then None
    else
      var g := byFrom[m.fromXpaths[0]].value;
      if !Qualifies(registry, g) then None
      else
        var from, to := registry[g.deletes[0]], registry[g.inserts[0]];
        if to.xpath == m.toXpaths[0] then Some(Link(m.id, from, to)) else None
  }

  function Links(registry: seq<Candidate>, byFrom: map<string, Option<Group>>, moves: seq<Move>): seq<Link> {
    if moves == [] then []
    else
      var n := |moves| - 1;
      var link := LinkOf(registry, byFrom, moves[n]);
      Links(registry, byFrom, moves[..n]) + if link.Some? then [link.value] else []
  }

  // ----- the sort order -----

  predicate LinkLess(l: Link, r: Link) {
    || ListLess(PartitionKey(l), PartitionKey(r))
    || (PartitionKey(l) == PartitionKey(r) &&
        (|| l.from.ordinal < r.from.ordinal
         || (l.from.ordinal == r.from.ordinal &&
             (|| l.to.ordinal < r.to.ordinal
              || (l.to.ordinal == r.to.ordinal && StringLess(l.moveId, r.moveId))))))
  }

  ghost predicate UniqueLinkIds(links: seq<Link>) {
    forall i, j :: 0 <= i < j < |links| ==> links[i].moveId != links[j].moveId
  }

  lemma {:induction false} LinkLessIsOrder(links: seq<Link>)
    requires UniqueLinkIds(links)
    ensures StrictOrder(LinkLess) && TotalOn(LinkLess, links)
  {
    ListLessIsTotalOrder();
    StringLessIsTotalOrder();
    forall x, y | x in links && y in links && x != y ensures LinkLess(x, y) || LinkLess(y, x) {
      assert x.moveId != y.moveId;
    }
  }

  // ----- runs -----

  // Link i continues its predecessor.
  predicate Continues(links: seq<Link>, i: nat) {
    0 < i < |links| && Consecutive(links[i - 1], links[i])
  }

  // Where the run that starts before `end` stops.
  function RunEnd(links: seq<Link>, end: nat): (e: nat)
    requires 0 < end <= |links|
    ensures end <= e <= |links|
    ensures forall k :: end <= k < e ==> Continues(links, k)
    ensures !Continues(links, e)
    decreases |links| - end
  {
    if Continues(links, end) then RunEnd(links, end + 1) else end
  }

  function Froms(links: seq<Link>): (r: seq<Candidate>)
    ensures |r| == |links|
  {
    seq(|links|, i requires 0 <= i < |links| => links[i].from)
  }

  function Tos(links: seq<Link>): (r: seq<Candidate>)
    ensures |r| == |links|
  {
    seq(|links|, i requires 0 <= i < |links| => links[i].to)
  }

  function MemberIds(links: seq<Link>): (r: seq<string>)
    ensures |r| == |links|
  {
    seq(|links|, i requires 0 <= i < |links| => links[i].moveId)
  }

  // The context a run has on one side.
  function EndpointOf(members: seq<Candidate>): Endpoint
    requires members != []
  {
    Endpoint(members[0].revisionFile, members[0].parentId, members[0].ordinal, members[|members| - 1].ordinal,
             seq(|members|, i requires 0 <= i < |members| => members[i].xpath))
  }

  function SequenceOf(run: seq<Link>): Sequence
    requires run != []
  {
    Sequence("sequence:" + run[0].moveId, MemberIds(run), EndpointOf(Froms(run)), EndpointOf(Tos(run)))
  }

  // The maximal runs of at least two links from `begin` on, as index ranges.
  function Ranges(links: seq<Link>, begin: nat): (r: seq<Range>)
    requires begin <= |links|
    ensures forall k :: 0 <= k < |r| ==> begin <= r[k].begin && r[k].begin + 2 <= r[k].end <= |links|
    ensures forall k, l :: 0 <= k < l < |r| ==> r[k].end <= r[l].begin
    decreases |links| - begin
  {
    if begin == |links| then []
    else
      var end := RunEnd(links, begin + 1);
      (if end - begin >= 2 then [Range(begin, end)] else []) + Ranges(links, end)
  }

  // The sequences of the links from `begin` on.
  function SequencesFrom(links: seq<Link>, begin: nat): (r: seq<Sequence>)
    requires begin <= |links|
    decreases |links| - begin
  {
    if begin == |links| then []
    else
      var end := RunEnd(links, begin + 1);
      (if end - begin >= 2 then [SequenceOf(links[begin..end])] else []) + SequencesFrom(links, end)
  }

  function SortedLinks(registry: seq<Candidate>, groups: seq<Group>, moves: seq<Move>): seq<Link> {
    Sort(LinkLess, Links(registry, ByFromXpath(registry, groups), moves))
  }

  /** `build_move_sequences`. */
  function BuildSequences(registry: seq<Candidate>, groups: seq<Group>, moves: seq<Move>): seq<Sequence> {
    SequencesFrom(SortedLinks(registry, groups, moves), 0)
  }

  // ----- the duplicate-nulling map -----

  function Matching(registry: seq<Candidate>, groups: seq<Group>, xpath: string): seq<Group> {
    if groups == [] then []
    else
      var n := |groups| - 1;
      Matching(registry, groups[..n], xpath) + if QualifiesFor(registry, groups[n], xpath) then [groups[n]] else []
  }

  /** The map holds a group exactly for the xpaths that a single qualifying group deletes. */
  lemma {:induction false} ByFromXpathIsUnique(registry: seq<Candidate>, groups: seq<Group>, xpath: string)
    ensures var m := ByFromXpath(registry, groups);
            var matching := Matching(registry, groups, xpath);
            && (xpath in m <==> matching != [])
            && (xpath in m ==> m[xpath] == if |matching| == 1 then Some(matching[0]) else None)
  {
    if groups != [] { ByFromXpathIsUnique(registry, groups[..|groups| - 1], xpath); }
  }

  lemma {:induction false} MatchingCounts(registry: seq<Candidate>, groups: seq<Group>, xpath: string, g: Group)
    ensures multiset(Matching(registry, groups, xpath))[g] ==
            if QualifiesFor(registry, g, xpath) then multiset(groups)[g] else 0
  {
    if groups != [] {
      var n := |groups| - 1;
      MatchingCounts(registry, groups[..n], xpath, g);
      assert groups == groups[..n] + [groups[n]];
    }
  }

  lemma {:induction false} MatchingIgnoresOrder(registry: seq<Candidate>, a: seq<Group>, b: seq<Group>, xpath: string)
    requires multiset(a) == multiset(b)
    ensures multiset(Matching(registry, a, xpath)) == multiset(Matching(registry, b, xpath))
  {
    var s, t := multiset(Matching(registry, a, xpath)), multiset(Matching(registry, b, xpath));
    forall g ensures s[g] == t[g] {
      MatchingCounts(registry, a, xpath, g);
      MatchingCounts(registry, b, xpath, g);
    }
  }

  lemma {:induction false} KeyIgnoresOrder(registry: seq<Candidate>, a: seq<Group>, b: seq<Group>, xpath: string)
    requires multiset(a) == multiset(b)
    ensures var m, m' := ByFromXpath(registry, a), ByFromXpath(registry, b);
            (xpath in m <==> xpath in m') && (xpath in m ==> m[xpath] == m'[xpath])
  {
    var s, t := Matching(registry, a, xpath), Matching(registry, b, xpath);
    ByFromXpathIsUnique(registry, a, xpath);
    ByFromXpathIsUnique(registry, b, xpath);
    MatchingIgnoresOrder(registry, a, b, xpath);
    SameElements(s, t);
    if s != [] { assert s[0] in t; }
  }

  lemma {:induction false} MapIgnoresOrder(registry: seq<Candidate>, a: seq<Group>, b: seq<Group>)
    requires multiset(a) == multiset(b)
    ensures ByFromXpath(registry, a) == ByFromXpath(registry, b)
  {
    var m, m' := ByFromXpath(registry, a), ByFromXpath(registry, b);
    forall xpath ensures (xpath in m <==> xpath in m') && (xpath in m ==> m[xpath] == m'[xpath]) {
      KeyIgnoresOrder(registry, a, b, xpath);
    }
  }

  // ----- links are as unique as the moves -----

  ghost predicate UniqueMoveIds(moves: seq<Move>) {
    forall i, j :: 0 <= i < j < |moves| ==> moves[i].id != moves[j].id
  }

  lemma {:induction false} LinksElements(registry: seq<Candidate>, byFrom: map<string, Option<Group>>, moves: seq<Move>)
    ensures forall l :: l in Links(registry, byFrom, moves) <==>
              exists m :: m in moves && LinkOf(registry, byFrom, m) == Some(l)
  {
    if moves != [] {
      var n := |moves| - 1;
      LinksElements(registry, byFrom, moves[..n]);
      assert moves == moves[..n] + [moves[n]];
    }
  }

  lemma {:induction false} LinksAreUnique(registry: seq<Candidate>, byFrom: map<string, Option<Group>>,
                                          moves: seq<Move>)
    requires UniqueMoveIds(moves)
    ensures UniqueLinkIds(Links(registry, byFrom, moves))
  {
    if moves != [] {
      var n := |moves| - 1;
      LinksAreUnique(registry, byFrom, moves[..n]);
      LinksElements(registry, byFrom, moves[..n]);
      var before := Links(registry, byFrom, moves[..n]);
      forall i | 0 <= i < |before| ensures before[i].moveId != moves[n].id {
        assert before[i] in before;
        var m :| m in moves[..n] && LinkOf(registry, byFrom, m) == Some(before[i]);
      }
    }
  }

  lemma {:induction false} UniqueIdsAreDistinct(links: seq<Link>)
    requires UniqueLinkIds(links)
    ensures Distinct(links)
  {
  }

  lemma {:induction false} PermutedMovesKeepUniqueIds(a: seq<Move>, b: seq<Move>)
    requires UniqueMoveIds(a) && multiset(a) == multiset(b)
    ensures UniqueMoveIds(b)
  {
    SameElements(a, b);
    forall i, j | 0 <= i < j < |a| ensures a[i] != a[j] { assert a[i].id != a[j].id; }
    DistinctIsMultisetProperty(a, b);
    forall i, j | 0 <= i < j < |b| ensures b[i].id != b[j].id {
      assert b[i] in a && b[j] in a && b[i] != b[j];
    }
  }

  // ----- the input order does not matter -----

  lemma {:induction false} LinksIgnoreOrder(registry: seq<Candidate>, byFrom: map<string, Option<Group>>, a: seq<Move>,
                                            b: seq<Move>)
    requires UniqueMoveIds(a) && multiset(a) == multiset(b)
    ensures multiset(Links(registry, byFrom, a)) == multiset(Links(registry, byFrom, b))
  {
    PermutedMovesKeepUniqueIds(a, b);
    LinksAreUnique(registry, byFrom, a);
    LinksAreUnique(registry, byFrom, b);
    LinksElements(registry, byFrom, a);
    LinksElements(registry, byFrom, b);
    SameElements(a, b);
    UniqueIdsAreDistinct(Links(registry, byFrom, a));
    UniqueIdsAreDistinct(Links(registry, byFrom, b));
    DistinctSameElements(Links(registry, byFrom, a), Links(registry, byFrom, b));
  }

  /** With unique move ids the sequences depend on neither the order of the groups nor that of the
      moves. */
  lemma {:induction false} SequencesIgnoreInputOrder(registry: seq<Candidate>, groups: seq<Group>, groups': seq<Group>,
                                                     moves: seq<Move>, moves': seq<Move>)
    requires UniqueMoveIds(moves)
    requires multiset(groups) == multiset(groups') && multiset(moves) == multiset(moves')
    ensures BuildSequences(registry, groups, moves) == BuildSequences(registry, groups', moves')
  {
    MapIgnoresOrder(registry, groups, groups');
    var byFrom := ByFromXpath(registry, groups);
    LinksAreUnique(registry, byFrom, moves);
    LinkLessIsOrder(Links(registry, byFrom, moves));
    LinksIgnoreOrder(registry, byFrom, moves, moves');
    SortIgnoresOrder(LinkLess, Links(registry, byFrom, moves), Links(registry, byFrom, moves'));
  }

  // ----- the construction as the loops of the source -----

  // `append_endpoint`.
  function AppendEndpoint(e: Endpoint, c: Candidate): Endpoint {
    if e.memberXpaths == [] then Endpoint(c.revisionFile, c.parentId, c.ordinal, c.ordinal, [c.xpath])
    else e.(lastOrdinal := c.ordinal, memberXpaths := e.memberXpaths + [c.xpath])
  }

  lemma {:induction false} AppendExtendsEndpoint(members: seq<Candidate>, c: Candidate)
    ensures EndpointOf(members + [c]) ==
            AppendEndpoint(if members == [] then EMPTY_ENDPOINT else EndpointOf(members), c)
  {
  }

  method IndexGroups(registry: seq<Candidate>, groups: seq<Group>) returns (m: map<string, Option<Group>>)
    requires IdsInRange(registry, groups)
    ensures m == ByFromXpath(registry, groups)
  {
    m := map[];
    for i := 0 to |groups|
      invariant m == ByFromXpath(registry, groups[..i])
    {
      assert groups[..i + 1][..i] == groups[..i];
      var g := groups[i];
      if g.match_ != Type1 || g.kind != Move1To1 || |g.deletes| != 1 || |g.inserts| != 1 { continue; }
      assert g in groups;
      var from, to := registry[g.deletes[0]], registry[g.inserts[0]];
      if !ReliableChild(from) || !ReliableChild(to) { continue; }
      // emplace, or the null marker for a duplicate key
      if from.xpath !in m { m := m[from.xpath := Some(g)]; } else { m := m[from.xpath := None]; }
    }
    assert groups[..|groups|] == groups;
  }

  method CollectLinks(registry: seq<Candidate>, byFrom: map<string, Option<Group>>, moves: seq<Move>)
      returns (links: seq<Link>)
    ensures links == Links(registry, byFrom, moves)
  {
    links := [];
    for i := 0 to |moves|
      invariant links == Links(registry, byFrom, moves[..i])
    {
      assert moves[..i + 1][..i] == moves[..i];
      var link := LinkOf(registry, byFrom, moves[i]);
      if link.Some? { links := links + [link.value]; }
    }
    assert moves[..|moves|] == moves;
  }

  method RunSequence(links: seq<Link>, begin: nat, end: nat) returns (sequence: Sequence)
    requires begin < end <= |links|
    ensures sequence == SequenceOf(links[begin..end])
  {
    var members, from, to := [], EMPTY_ENDPOINT, EMPTY_ENDPOINT;
    for index := begin to end
      invariant members == MemberIds(links[begin..index])
      invariant from == if index == begin then EMPTY_ENDPOINT else EndpointOf(Froms(links[begin..index]))
      invariant to == if index == begin then EMPTY_ENDPOINT else EndpointOf(Tos(links[begin..index]))
    {
      var run := links[begin..index];
      assert links[begin..index + 1] == run + [links[index]];
      assert Froms(run + [links[index]]) == Froms(run) + [links[index].from];
      assert Tos(run + [links[index]]) == Tos(run) + [links[index].to];
      AppendExtendsEndpoint(Froms(run), links[index].from);
      AppendExtendsEndpoint(Tos(run), links[index].to);
      members := members + [links[index].moveId];
      from := AppendEndpoint(from, links[index].from);
      to := AppendEndpoint(to, links[index].to);
    }
    sequence := Sequence("sequence:" + links[begin].moveId, members, from, to);
  }

  method BuildMoveSequences(registry: seq<Candidate>, groups: seq<Group>, moves: seq<Move>)
      returns (sequences: seq<Sequence>)
    requires IdsInRange(registry, groups)
    ensures sequences == BuildSequences(registry, groups, moves)
  {
    var byFrom := IndexGroups(registry, groups);
    var links := CollectLinks(registry, byFrom, moves);
    sequences := CutRuns(Sort(LinkLess, links));
  }

  lemma {:induction false} SequencesStep(links: seq<Link>, begin: nat, done: seq<Sequence>)
    requires begin < |links|
    ensures var end := RunEnd(links, begin + 1);
            done + SequencesFrom(links, begin) ==
            (if end - begin >= 2 then done + [SequenceOf(links[begin..end])] else done) + SequencesFrom(links, end)
  {
  }

  method CutRuns(links: seq<Link>) returns (sequences: seq<Sequence>)
    ensures sequences == SequencesFrom(links, 0)
  {
    sequences := [];
    var begin := 0;
    while begin < |links|
      invariant begin <= |links|
      invariant sequences + SequencesFrom(links, begin) == SequencesFrom(links, 0)
    {
      var end := ScanRun(links, begin);
      SequencesStep(links, begin, sequences);
      if end - begin >= 2 {
        var sequence := RunSequence(links, begin, end);
        sequences := sequences + [sequence];
      }
      begin := end;
    }
  }

  // The inner loop: advance `end` while the links continue each other.
  method ScanRun(links: seq<Link>, begin: nat) returns (end: nat)
    requires begin < |links|
    ensures end == RunEnd(links, begin + 1)
  {
    end := begin + 1;
    while end < |links| && Consecutive(links[end - 1], links[end])
      invariant begin < end <= |links|
      invariant RunEnd(links, begin + 1) == RunEnd(links, end)
    {
      end := end + 1;
    }
  }
}
