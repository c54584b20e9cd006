/** The sequences of src/move_sequences.cpp in terms of moves, groups and candidates alone: which sibling moves
    share a sequence, and what a sequence says about its members. */
module SiblingSequences {
  import opened Wrappers
  import opened Ordering
  import opened MoveSequences
  import opened SequenceProperties

  /** Candidate d is the next sibling of c: the same file and parent, the next ordinal, and a later span. */
  predicate NextSibling(c: Candidate, d: Candidate) {
    c.revisionFile == d.revisionFile && c.parentId == d.parentId && d.ordinal == c.ordinal + 1 && c.end < d.start
  }

  /** The link leads from one of the two sibling slots of a and b to a place, or has an id, that sorts
      between them. */
  predicate Separates(l: Link, a: Link, b: Link) {
    && l.from.revisionFile == a.from.revisionFile && l.from.parentId == a.from.parentId
    && l.to.revisionFile == a.to.revisionFile && l.to.parentId == a.to.parentId
    && (|| (l.from.ordinal == a.from.ordinal &&
            (l.to.ordinal > a.to.ordinal || (l.to.ordinal == a.to.ordinal && StringLess(a.moveId, l.moveId))))
        || (l.from.ordinal == b.from.ordinal &&
            (l.to.ordinal < b.to.ordinal || (l.to.ordinal == b.to.ordinal && StringLess(l.moveId, b.moveId)))))
  }

  lemma {:induction false} SeparatesIff(l: Link, a: Link, b: Link)
    requires NextSibling(a.from, b.from) && NextSibling(a.to, b.to)
    ensures LinkLess(a, l) && LinkLess(l, b) <==> Separates(l, a, b)
  {
    var p, q, r := PartitionKey(a), PartitionKey(l), PartitionKey(b);
    assert p == r;
    ListLessIsTotalOrder();
    assert ListLess(p, q) && ListLess(q, r) ==> ListLess(p, p);
    assert p == q ==> p[0] == q[0] && p[1] == q[1] && p[2] == q[2] && p[3] == q[3];
  }

  /** Links of next siblings on both sides share a sequence if and only if no selected link separates them. */
  lemma {:induction false} SiblingLinksShareIff(links: seq<Link>, a: Link, b: Link)
    requires Prepared(links) && a in links && b in links
    requires NextSibling(a.from, b.from) && NextSibling(a.to, b.to)
    ensures ShareSequence(SequencesFrom(links, 0), a.moveId, b.moveId) <==>
            forall l :: l in links ==> !Separates(l, a, b)
  {
    assert Consecutive(a, b);
    ConsecutiveLinksShareIff(links, a, b);
    forall l ensures LinkLess(a, l) && LinkLess(l, b) <==> Separates(l, a, b) { SeparatesIff(l, a, b); }
  }

  // ----- from moves and groups -----

  /** A structural child with a known parent, place and span. */
  predicate Placed(c: Candidate) {
    && c.role.StructuralChild? && c.contextReliable && c.parentId != "" && c.ordinal >= 1
    && c.revisionFile != "" && c.xpath != "" && c.start < c.end
  }

  /** Group k pairs one placed candidate with one placed candidate, and no other group deletes one
      candidate with the same locator. */
  ghost predicate PairsUniquely(registry: seq<Candidate>, groups: seq<Group>, k: nat, from: Candidate, to: Candidate) {
    && k < |groups| && groups[k].match_.Type1? && groups[k].kind.Move1To1?
    && |groups[k].deletes| == 1 && |groups[k].inserts| == 1
    && groups[k].deletes[0] < |registry| && registry[groups[k].deletes[0]] == from
    && groups[k].inserts[0] < |registry| && registry[groups[k].inserts[0]] == to
    && Placed(from) && Placed(to)
    && forall j :: 0 <= j < |groups| && j != k && |groups[j].deletes| == 1 && groups[j].deletes[0] < |registry| ==>
         registry[groups[j].deletes[0]].xpath != from.xpath
  }

  /** The move is a Type-1 move from the one candidate to the other. */
  predicate MovesPair(m: Move, from: Candidate, to: Candidate) {
    m.relationship == "type1" && m.id != "" && m.fromXpaths == [from.xpath] && m.toXpaths == [to.xpath]
  }

  lemma {:induction false} OnlyMatch(registry: seq<Candidate>, groups: seq<Group>, k: nat, xpath: string)
    requires k < |groups| && QualifiesFor(registry, groups[k], xpath)
    requires forall j :: 0 <= j < |groups| && j != k ==> !QualifiesFor(registry, groups[j], xpath)
    ensures Matching(registry, groups, xpath) == [groups[k]]
  {
    var n := |groups| - 1;
    if k < n {
      OnlyMatch(registry, groups[..n], k, xpath);
    } else {
      NoMatch(registry, groups[..n], xpath);
    }
  }

  lemma {:induction false} NoMatch(registry: seq<Candidate>, groups: seq<Group>, xpath: string)
    requires forall j :: 0 <= j < |groups| ==> !QualifiesFor(registry, groups[j], xpath)
    ensures Matching(registry, groups, xpath) == []
  {
    if groups != [] { NoMatch(registry, groups[..|groups| - 1], xpath); }
  }

  /** The move of a group that pairs its candidates uniquely is selected, with these ends. */
  lemma {:induction false} PairIsSelected(registry: seq<Candidate>, groups: seq<Group>, moves: seq<Move>, k: nat,
                                          m: Move, from: Candidate, to: Candidate)
    requires UniqueMoveIds(moves) && m in moves && MovesPair(m, from, to)
    requires PairsUniquely(registry, groups, k, from, to)
    ensures Link(m.id, from, to) in SortedLinks(registry, groups, moves)
  {
    forall j | 0 <= j < |groups| && j != k ensures !QualifiesFor(registry, groups[j], from.xpath) {}
    OnlyMatch(registry, groups, k, from.xpath);
    ByFromXpathIsUnique(registry, groups, from.xpath);
    SortedLinksElements(registry, groups, moves);
    assert LinkOf(registry, ByFromXpath(registry, groups), m) == Some(Link(m.id, from, to));
  }

  /** Moves of next siblings to next siblings share a sequence, when every move has a source of its own and a
      sibling has one locator. */
  lemma {:induction false} SiblingMovesShareASequence(registry: seq<Candidate>, groups: seq<Group>, moves: seq<Move>,
                                                      m: Move, k: nat, from: Candidate, to: Candidate,
                                                      m': Move, k': nat, from': Candidate, to': Candidate)
    requires UniqueMoveIds(moves) && SlotsNameXpaths(registry) && OwnSources(moves) && m in moves && m' in moves
    requires PairsUniquely(registry, groups, k, from, to) && MovesPair(m, from, to)
    requires PairsUniquely(registry, groups, k', from', to') && MovesPair(m', from', to')
    requires NextSibling(from, from') && NextSibling(to, to')
    ensures exists s :: s in BuildSequences(registry, groups, moves) && m.id in s.members && m'.id in s.members
  {
    PairIsSelected(registry, groups, moves, k, m, from, to);
    PairIsSelected(registry, groups, moves, k', m', from', to');
    var a, b := Link(m.id, from, to), Link(m'.id, from', to');
    assert Consecutive(a, b);
    OwnSourcesGiveMaximality(registry, groups, moves, a, b);
    var sequences := BuildSequences(registry, groups, moves);
    var q :| 0 <= q < |sequences| && m.id in sequences[q].members && m'.id in sequences[q].members;
    assert sequences[q] in sequences;
  }

  // ----- what a sequence says -----

  /** Candidate c is member i of the endpoint. */
  predicate IsMember(e: Endpoint, i: nat, c: Candidate) {
    && i < |e.memberXpaths| && e.memberXpaths[i] == c.xpath && c.revisionFile == e.revisionFile
    && c.parentId == e.parentId && c.ordinal == e.firstOrdinal + i
  }

  lemma {:induction false} RunMembers(run: seq<Link>, i: nat)
    requires |run| >= 2 && Ordered(run) && i < |run|
    ensures var s := SequenceOf(run);
            IsMember(s.from, i, run[i].from) && IsMember(s.to, i, run[i].to) && s.members[i] == run[i].moveId
  {
    if i > 0 {
      var p, q := PartitionKey(run[0]), PartitionKey(run[i]);
      assert p[0] == q[0] && p[1] == q[1] && p[2] == q[2] && p[3] == q[3];
    }
  }

  // The group and candidates that a link was made from.
  lemma {:induction false} LinkIsPair(registry: seq<Candidate>, groups: seq<Group>, moves: seq<Move>, l: Link)
      returns (m: Move, g: Group)
    requires UniqueMoveIds(moves) && l in SortedLinks(registry, groups, moves)
    ensures m in moves && m.id == l.moveId && MovesPair(m, l.from, l.to)
    ensures g in groups && g.match_.Type1? && g.kind.Move1To1? && |g.deletes| == 1 && |g.inserts| == 1
    ensures g.deletes[0] < |registry| && registry[g.deletes[0]] == l.from
    ensures g.inserts[0] < |registry| && registry[g.inserts[0]] == l.to
    ensures Placed(l.from) && Placed(l.to)
  {
    SortedLinksElements(registry, groups, moves);
    var byFrom := ByFromXpath(registry, groups);
    m :| m in moves && LinkOf(registry, byFrom, m) == Some(l);
    var xpath := m.fromXpaths[0];
    g := byFrom[xpath].value;
    ByFromXpathIsUnique(registry, groups, xpath);
    MatchingQualifies(registry, groups, xpath);
    assert g in Matching(registry, groups, xpath);
  }

  /** Every member of a sequence is a Type-1 move of a one-to-one pair of placed candidates, which stand at
      their places in the two spans; the spans list their locators in the order of the members. */
  lemma {:induction false} SequenceMember(registry: seq<Candidate>, groups: seq<Group>, moves: seq<Move>, k: nat,
                                          i: nat) returns (m: Move, g: Group)
    requires UniqueMoveIds(moves) && k < |BuildSequences(registry, groups, moves)|
    requires i < |BuildSequences(registry, groups, moves)[k].members|
    ensures var s := BuildSequences(registry, groups, moves)[k];
            && |s.from.memberXpaths| == |s.to.memberXpaths| == |s.members|
            && s.id == "sequence:" + s.members[0]
            && m in moves && m.id == s.members[i]
            && g in groups && g.match_.Type1? && g.kind.Move1To1? && |g.deletes| == 1 && |g.inserts| == 1
            && g.deletes[0] < |registry| && g.inserts[0] < |registry|
            && var from, to := registry[g.deletes[0]], registry[g.inserts[0]];
               && MovesPair(m, from, to) && Placed(from) && Placed(to)
               && IsMember(s.from, i, from) && IsMember(s.to, i, to)
  {
    var run := SequenceShape(registry, groups, moves, k);
    RunMembers(run, i);
    m, g := LinkIsPair(registry, groups, moves, run[i]);
  }
}
