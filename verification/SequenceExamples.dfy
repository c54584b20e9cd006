/** An input on which the claims about move sequences fail although the collector made its moves: three
    neighbouring statements that were moved together, and in a second unit of the same path a statement with
    the locator of the second one.  The alias has no reliable context, so only its own group is ignored; its
    move still finds the group of the statement by the locator. */
module SequenceExamples {
  import opened Wrappers
  import opened Ordering
  import opened MoveSequences
  import opened MoveCollection
  import opened SequenceProperties
  import opened SiblingSequences
  import opened Reports
  import opened ResultAdmission
  import opened CollectedOutput

  // The locator number n.
  function LocatorOf(n: nat): (r: string)
    ensures |r| == n + 1
  {
    if n == 0 then "/" else LocatorOf(n - 1) + "x"
  }

  // Group k is about this statement of the parent; groups 1 and 2 name the same one.
  function Place(k: nat): nat { if k == 0 then 1 else if k == 3 then 3 else 2 }

  // The alias stands in another unit.
  function Parent(k: nat): string { if k == 2 then "q" else "p" }

  function Start(k: nat): nat { if k == 2 then 100 else 10 * k }

  // The deleted candidate of group k; that of group 2 is the alias.
  function Source(k: nat): Candidate {
    Candidate(StructuralChild, k != 2, Parent(k), Place(k), "old", LocatorOf(Place(k)), Start(k), Start(k) + 1)
  }

  function Target(k: nat): Candidate {
    Candidate(StructuralChild, k != 2, Parent(k), Place(k), "new", LocatorOf(Place(k) + 3), Start(k) + 40,
              Start(k) + 41)
  }

  function ExampleRegistry(): (r: seq<Candidate>)
    ensures |r| == 8 && forall k :: 0 <= k < 4 ==> r[k] == Source(k) && r[4 + k] == Target(k)
  {
    [Source(0), Source(1), Source(2), Source(3), Target(0), Target(1), Target(2), Target(3)]
  }

  function PairGroup(k: nat): Group { Group(Type1, Move1To1, [k], [4 + k], true) }

  function ExampleGroups(): (r: seq<Group>)
    ensures |r| == 4 && forall k :: 0 <= k < 4 ==> r[k] == PairGroup(k)
  {
    [PairGroup(0), PairGroup(1), PairGroup(2), PairGroup(3)]
  }

  // The ids drawn for the groups.
  const IDS := ["a", "b", "c", "d"]

  lemma {:induction false} IdsAreOrdered()
    ensures forall j, k :: 0 <= j < |IDS| && 0 <= k < |IDS| ==> (StringLess(IDS[j], IDS[k]) <==> j < k)
    ensures Distinct(IDS) && "" !in IDS
  {
    forall j | 0 <= j < |IDS| ensures |IDS[j]| == 1 && IDS[j][0] == ['a', 'b', 'c', 'd'][j] {}
  }

  lemma {:induction false} RegistryElement(c: Candidate) returns (k: nat)
    requires c in ExampleRegistry()
    ensures k < 4 && (c == Source(k) || c == Target(k))
  {
    var i :| 0 <= i < 8 && ExampleRegistry()[i] == c;
    k := if i < 4 then i else i - 4;
    if i >= 4 { assert ExampleRegistry()[4 + k] == Target(k); }
  }

  /** The example has everything that a registry and its groups promise, but for the shared locators. */
  ghost predicate Producible(registry: seq<Candidate>, groups: seq<Group>) {
    && IdsInRange(registry, groups) && DisjointGroups(registry, groups) && KindsOk(groups)
    && (forall k :: 0 <= k < |groups| ==> OwnNodes(registry, groups[k]))
    && SlotsNameXpaths(registry) && LocatorsNameFiles(registry)
  }

  // Where the two candidates of a group start.
  lemma {:induction false} StartsOfPair(k: nat, id: nat)
    requires k < 4
    ensures Holds(PairGroup(k), id) <==> id == k || id == 4 + k
    ensures StartOf(ExampleRegistry(), k) == Start(k) && StartOf(ExampleRegistry(), 4 + k) == Start(k) + 40
  {
    assert ExampleRegistry()[4 + k] == Target(k);
  }

  lemma {:induction false} PairsAreApart(j: nat, k: nat)
    requires j < 4 && k < 4 && j != k
    ensures Apart(ExampleRegistry(), PairGroup(j), PairGroup(k))
  {
    forall a: nat, b: nat | Holds(PairGroup(j), a) && Holds(PairGroup(k), b)
      ensures StartOf(ExampleRegistry(), a) != StartOf(ExampleRegistry(), b)
    {
      StartsOfPair(j, a);
      StartsOfPair(k, b);
    }
  }

  lemma {:induction false} PairOwnsNodes(k: nat)
    requires k < 4
    ensures OwnNodes(ExampleRegistry(), PairGroup(k))
  {
    forall a: nat | Holds(PairGroup(k), a)
      ensures StartOf(ExampleRegistry(), a) == if a == k then Start(k) else Start(k) + 40
    {
      StartsOfPair(k, a);
    }
  }

  lemma {:induction false} GroupsAreProper()
    ensures IdsInRange(ExampleRegistry(), ExampleGroups()) && DisjointGroups(ExampleRegistry(), ExampleGroups())
    ensures KindsOk(ExampleGroups())
    ensures forall k :: 0 <= k < |ExampleGroups()| ==> OwnNodes(ExampleRegistry(), ExampleGroups()[k])
  {
    var registry, groups := ExampleRegistry(), ExampleGroups();
    forall g | g in groups ensures exists k :: 0 <= k < 4 && g == PairGroup(k) {
      var k :| 0 <= k < 4 && groups[k] == g;
    }
    forall j, k | 0 <= j < k < |groups| ensures Apart(registry, groups[j], groups[k]) { PairsAreApart(j, k); }
    forall k | 0 <= k < |groups| ensures OwnNodes(registry, groups[k]) { PairOwnsNodes(k); }
  }

  lemma {:induction false} RegistryIsProper()
    ensures SlotsNameXpaths(ExampleRegistry()) && LocatorsNameFiles(ExampleRegistry())
  {
    var registry := ExampleRegistry();
    forall c, d | c in registry && d in registry
      ensures SameSlot(c, d) ==> c.xpath == d.xpath
      ensures c.xpath == d.xpath ==> c.revisionFile == d.revisionFile
    {
      var j := RegistryElement(c);
      var k := RegistryElement(d);
      assert c.revisionFile == (if c == Source(j) then "old" else "new");
    }
  }

  // ----- the moves -----

  lemma {:induction false} SingleEndpoints(m: Move, d: nat, i: nat)
    requires EndpointsOnce(m)
    requires (forall id :: id in m.originals <==> id in [d]) && forall id :: id in m.modifieds <==> id in [i]
    ensures m.originals == [d] && m.modifieds == [i]
  {
    OneElement(m.originals, d);
    OneElement(m.modifieds, i);
  }

  lemma {:induction false} OneElement(ids: seq<nat>, d: nat)
    requires Distinct(ids) && forall id :: id in ids <==> id in [d]
    ensures ids == [d]
  {
    assert d in [d];
    forall q | 0 <= q < |ids| ensures ids[q] == d { assert ids[q] in [d]; }
    ConstantIsShort(ids, d);
  }

  lemma {:induction false} ConstantIsShort(ids: seq<nat>, d: nat)
    requires forall q :: 0 <= q < |ids| ==> ids[q] == d
    ensures Distinct(ids) ==> |ids| <= 1
  {
    assert |ids| > 1 ==> ids[0] == ids[1];
  }

  // The move of group k, with its endpoints.
  lemma {:induction false} ExampleEndpoints(moves: seq<Move>, k: nat) returns (m: Move)
    requires Collected(ExampleRegistry(), ExampleGroups(), IDS, moves) && k < 4
    ensures m in moves && m.id == IDS[k] && m.relationship == "type1" && m.originals == [k] && m.modifieds == [4 + k]
  {
    var registry, groups := ExampleRegistry(), ExampleGroups();
    GroupsAreProper();
    m := LinkedGroupHasMove(registry, groups, IDS, moves, k);
    MovesKeepTheirGroups(registry, groups, IDS, moves, m, k);
    GroupOfMove(registry, groups, IDS, moves, m, k);
    CollectedEndpointsAreOwned(registry, groups, IDS, moves);
    SingleEndpoints(m, k, 4 + k);
  }

  // Its locators.
  lemma {:induction false} ExampleMove(moves: seq<Move>, k: nat) returns (m: Move)
    requires Collected(ExampleRegistry(), ExampleGroups(), IDS, moves) && k < 4
    ensures m in moves && m.id == IDS[k] && m.relationship == "type1"
    ensures m.fromXpaths == [LocatorOf(Place(k))] && m.toXpaths == [LocatorOf(Place(k) + 3)]
  {
    m := ExampleEndpoints(moves, k);
    CollectedEndpointsFit(ExampleRegistry(), ExampleGroups(), IDS, moves);
    assert SideFits(ExampleRegistry(), m.originals, m.fromXpaths);
    assert SideFits(ExampleRegistry(), m.modifieds, m.toXpaths);
    assert ExampleRegistry()[4 + k] == Target(k);
  }

  // A collected move is the move of one of the groups.
  lemma {:induction false} MoveIsExample(moves: seq<Move>, m: Move) returns (k: nat)
    requires Collected(ExampleRegistry(), ExampleGroups(), IDS, moves) && m in moves
    ensures k < 4 && m.id == IDS[k] && m.relationship == "type1"
    ensures m.fromXpaths == [LocatorOf(Place(k))] && m.toXpaths == [LocatorOf(Place(k) + 3)]
  {
    k := MoveHasGroup(ExampleRegistry(), ExampleGroups(), IDS, moves, m);
    var m' := ExampleMove(moves, k);
    CollectedEndpointsFit(ExampleRegistry(), ExampleGroups(), IDS, moves);
  }

  // ----- the links -----

  // Group 2 is not reliable, so every locator has one group.
  function GroupFor(k: nat): nat { if k == 2 then 1 else k }

  lemma {:induction false} GroupQualifies(k: nat)
    requires k < 4
    ensures Qualifies(ExampleRegistry(), PairGroup(k)) <==> k != 2
  {
    assert ExampleRegistry()[4 + k] == Target(k);
  }

  // The link of move k.
  function ExampleLink(k: nat): Link
    requires k < 4
  {
    Link(IDS[k], Source(GroupFor(k)), Target(GroupFor(k)))
  }

  lemma {:induction false} MoveBecomesLink(m: Move, k: nat)
    requires k < 4 && m.id == IDS[k] && m.relationship == "type1"
    requires m.fromXpaths == [LocatorOf(Place(k))] && m.toXpaths == [LocatorOf(Place(k) + 3)]
    ensures LinkOf(ExampleRegistry(), ByFromXpath(ExampleRegistry(), ExampleGroups()), m) == Some(ExampleLink(k))
  {
    var registry, groups, xpath := ExampleRegistry(), ExampleGroups(), LocatorOf(Place(k));
    forall j | 0 <= j < 4 ensures QualifiesFor(registry, groups[j], xpath) <==> j == GroupFor(k) { GroupQualifies(j); }
    OnlyMatch(registry, groups, GroupFor(k), xpath);
    ByFromXpathIsUnique(registry, groups, xpath);
    IdsAreOrdered();
    assert registry[4 + GroupFor(k)] == Target(GroupFor(k));
    assert IDS[k] in IDS;
  }

  lemma {:induction false} LinkIsSelected(moves: seq<Move>, k: nat)
    requires Collected(ExampleRegistry(), ExampleGroups(), IDS, moves) && k < 4
    ensures ExampleLink(k) in SortedLinks(ExampleRegistry(), ExampleGroups(), moves)
  {
    var m := ExampleMove(moves, k);
    MoveBecomesLink(m, k);
    CollectedEndpointsFit(ExampleRegistry(), ExampleGroups(), IDS, moves);
    SortedLinksElements(ExampleRegistry(), ExampleGroups(), moves);
  }

  // A selected link is the link of one of the moves.
  lemma {:induction false} SelectedIsExample(moves: seq<Move>, l: Link) returns (k: nat)
    requires Collected(ExampleRegistry(), ExampleGroups(), IDS, moves)
    requires l in SortedLinks(ExampleRegistry(), ExampleGroups(), moves)
    ensures k < 4 && l == ExampleLink(k)
  {
    CollectedEndpointsFit(ExampleRegistry(), ExampleGroups(), IDS, moves);
    SortedLinksElements(ExampleRegistry(), ExampleGroups(), moves);
    var m :| m in moves && LinkOf(ExampleRegistry(), ByFromXpath(ExampleRegistry(), ExampleGroups()), m) == Some(l);
    k := MoveIsExample(moves, m);
    MoveBecomesLink(m, k);
  }

  // The links are ordered as their moves, and continue each other along the statements.
  lemma {:induction false} LinkOrder(j: nat, k: nat)
    requires j < 4 && k < 4
    ensures LinkLess(ExampleLink(j), ExampleLink(k)) <==> j < k
    ensures Consecutive(ExampleLink(j), ExampleLink(k)) <==> Place(k) == Place(j) + 1
  {
    IdsAreOrdered();
    ListLessIrreflexive(PartitionKey(ExampleLink(j)));
    assert PartitionKey(ExampleLink(j)) == PartitionKey(ExampleLink(k));
  }

  // Links k and k + 1 are joined unless they are of the same statement.
  lemma {:induction false} NeighboursJoin(moves: seq<Move>, k: nat)
    requires Collected(ExampleRegistry(), ExampleGroups(), IDS, moves) && k < 3 && k != 1
    ensures var links := SortedLinks(ExampleRegistry(), ExampleGroups(), moves);
            Joined(links, ExampleLink(k)) && Joined(links, ExampleLink(k + 1))
  {
    var links := SortedLinks(ExampleRegistry(), ExampleGroups(), moves);
    var a, b := ExampleLink(k), ExampleLink(k + 1);
    LinkIsSelected(moves, k);
    LinkIsSelected(moves, k + 1);
    LinkOrder(k, k + 1);
    forall l | l in links ensures !(LinkLess(a, l) && LinkLess(l, b)) {
      var i := SelectedIsExample(moves, l);
      LinkOrder(k, i);
      LinkOrder(i, k + 1);
    }
    assert Adjacent(links, a, b);
  }

  // ----- the results -----

  /** Collected moves need not have globally maximal sequences: the move of an alias sorts between two links
      that continue each other and separates them. */
  method MaximalityCanFail()
      returns (registry: seq<Candidate>, groups: seq<Group>, moves: seq<Move>, a: Link, b: Link)
    ensures Producible(registry, groups) && Collected(registry, groups, IDS, moves)
    ensures a in SortedLinks(registry, groups, moves) && b in SortedLinks(registry, groups, moves) && Consecutive(a, b)
    ensures !ShareSequence(BuildSequences(registry, groups, moves), a.moveId, b.moveId)
  {
    registry, groups := ExampleRegistry(), ExampleGroups();
    GroupsAreProper();
    RegistryIsProper();
    IdsAreOrdered();
    moves := CollectMoveResults(registry, groups, IDS);
    a, b := ExampleLink(0), ExampleLink(2);
    AliasSeparates(moves);
  }

  lemma {:induction false} AliasSeparates(moves: seq<Move>)
    requires Collected(ExampleRegistry(), ExampleGroups(), IDS, moves)
    ensures var links := SortedLinks(ExampleRegistry(), ExampleGroups(), moves);
            ExampleLink(0) in links && ExampleLink(2) in links && Consecutive(ExampleLink(0), ExampleLink(2))
    ensures !ShareSequence(BuildSequences(ExampleRegistry(), ExampleGroups(), moves), IDS[0], IDS[2])
  {
    var registry, groups := ExampleRegistry(), ExampleGroups();
    var links := SortedLinks(registry, groups, moves);
    LinkIsSelected(moves, 0);
    LinkIsSelected(moves, 1);
    LinkIsSelected(moves, 2);
    LinkOrder(0, 1);
    LinkOrder(1, 2);
    LinkOrder(0, 2);
    CollectedEndpointsFit(registry, groups, IDS, moves);
    SortedLinksArePrepared(registry, groups, moves);
    ConsecutiveLinksShareIff(links, ExampleLink(0), ExampleLink(2));
  }

  /** The output for collected moves need not be admitted: the statement and its alias are joined to different
      neighbours, and both spans hold the statement.  Every other check passes. */
  method OutputCanBeRejected() returns (registry: seq<Candidate>, groups: seq<Group>, moves: seq<Move>)
    ensures Producible(registry, groups) && Collected(registry, groups, IDS, moves)
    ensures var sequences := BuildSequences(registry, groups, moves);
            && EndpointsOwned(moves) && MembersSettled(moves, sequences) && !SequenceSpansApart(sequences)
            && !OutputAdmitted(registry, moves, sequences, ReportsOf(moves, sequences))
  {
    registry, groups := ExampleRegistry(), ExampleGroups();
    GroupsAreProper();
    RegistryIsProper();
    IdsAreOrdered();
    moves := CollectMoveResults(registry, groups, IDS);
    AliasSpansMeet(moves);
  }

  lemma {:induction false} AliasSpansMeet(moves: seq<Move>)
    requires Collected(ExampleRegistry(), ExampleGroups(), IDS, moves)
    ensures var sequences := BuildSequences(ExampleRegistry(), ExampleGroups(), moves);
            && EndpointsOwned(moves) && MembersSettled(moves, sequences) && !SequenceSpansApart(sequences)
            && !OutputAdmitted(ExampleRegistry(), moves, sequences, ReportsOf(moves, sequences))
  {
    var registry, groups := ExampleRegistry(), ExampleGroups();
    RegistryIsProper();
    AliasSharesSlot(moves);
    LinksAreSettled(moves);
    CollectedOutputIsAdmittedIff(registry, groups, IDS, moves);
    CollectedEndpointsFit(registry, groups, IDS, moves);
    CollectedEndpointsAreOwned(registry, groups, IDS, moves);
    SortedLinksArePrepared(registry, groups, moves);
    MembersSettledIff(SortedLinks(registry, groups, moves), moves);
    ItemChecksPass(registry, groups, moves);
  }

  // The links of the statement and of its alias are joined, and share its slot.
  lemma {:induction false} AliasSharesSlot(moves: seq<Move>)
    requires Collected(ExampleRegistry(), ExampleGroups(), IDS, moves)
    ensures !SlotsFree(SortedLinks(ExampleRegistry(), ExampleGroups(), moves))
  {
    NeighboursJoin(moves, 0);
    NeighboursJoin(moves, 2);
    LinkIsSelected(moves, 1);
    LinkIsSelected(moves, 2);
    IdsAreOrdered();
    assert SameSlot(ExampleLink(1).from, ExampleLink(2).from);
  }

  lemma {:induction false} LinksAreSettled(moves: seq<Move>)
    requires Collected(ExampleRegistry(), ExampleGroups(), IDS, moves)
    ensures JoinedSettled(SortedLinks(ExampleRegistry(), ExampleGroups(), moves), moves)
  {
    forall m | m in moves ensures m.settled {
      var k := MoveHasGroup(ExampleRegistry(), ExampleGroups(), IDS, moves, m);
    }
  }
}
