/** What the aggregation guarantees for the moves that the collector makes of content groups
    (src/move_registry/content_group_builder.cpp 54-120, src/writer/annotation_plan.cpp,
    src/writer/annotation_writer.cpp, src/move_sequences.cpp, srcmove_runtime/results_schema.py). */
module CollectedOutput {
  import opened Wrappers
  import opened Ordering
  import opened MoveSequences
  import opened MoveCollection
  import opened SequenceProperties
  import opened Reports
  import opened ResultAdmission

  // ----- what a group is -----

  /** `classify_counts`. */
  function ClassifyCounts(deletes: nat, inserts: nat): GroupKind {
    if deletes == 0 && inserts == 0 then Ambiguous
    else if inserts == 0 then DeleteOnly
    else if deletes == 0 then InsertOnly
    else if deletes == 1 && inserts == 1 then Move1To1
    else if deletes == inserts then MovesMany
    else CopyOrRepeat
  }

  /** `add_group` gives every group its kind. */
  ghost predicate KindsOk(groups: seq<Group>) {
    forall g :: g in groups ==> g.kind == if g.settled then ClassifyCounts(|g.deletes|, |g.inserts|) else CopyOrRepeat
  }

  /** The kind of a group of so many deleted and inserted candidates. */
  lemma {:induction false} KindsAreExact(deletes: nat, inserts: nat)
    ensures var kind := ClassifyCounts(deletes, inserts);
            && (kind.Move1To1? <==> deletes == inserts == 1)
            && (kind.MovesMany? <==> deletes == inserts && deletes >= 2)
            && (kind.CopyOrRepeat? <==> deletes >= 1 && inserts >= 1 && deletes != inserts)
            && (kind.DeleteOnly? <==> deletes >= 1 && inserts < 1)
            && (kind.InsertOnly? <==> inserts >= 1 && deletes < 1)
  {
  }

  predicate Holds(g: Group, id: nat) { id in g.deletes || id in g.inserts }

  // No candidate of one group starts where one of the other starts.
  ghost predicate Apart(registry: seq<Candidate>, g: Group, h: Group) {
    forall a: nat, b: nat :: Holds(g, a) && Holds(h, b) ==> StartOf(registry, a) != StartOf(registry, b)
  }

  /** No node belongs to two linked groups. */
  ghost predicate DisjointGroups(registry: seq<Candidate>, groups: seq<Group>) {
    forall k, l :: 0 <= k < l < |groups| && Linked(groups[k]) && Linked(groups[l]) ==>
      Apart(registry, groups[k], groups[l])
  }

  function StartOf(registry: seq<Candidate>, id: nat): nat { if id < |registry| then registry[id].start else 0 }

  /** A locator belongs to one node. */
  ghost predicate OwnLocators(registry: seq<Candidate>) {
    forall c, d :: c in registry && d in registry && c.xpath == d.xpath ==> c.start == d.start
  }

  // ----- the collected moves -----

  // The moves are entries of sound tags.
  lemma {:induction false} CollectedMoves(registry: seq<Candidate>, groups: seq<Group>, moveIds: seq<string>,
                                          moves: seq<Move>) returns (tags: Tags, starts: seq<nat>)
    requires Collected(registry, groups, moveIds, moves)
    ensures tags == MoveTags(registry, groups, moveIds) && TagsSound(registry, groups, moveIds, tags)
    ensures DocumentOrder(starts, tags) && Lists(moves, EntriesOf(tags, starts)) && UniqueMoveIds(moves)
    ensures forall m :: m in moves ==> EntryOk(tags, starts, m)
  {
    tags := MoveTags(registry, groups, moveIds);
    MoveTagsAreSound(registry, groups, moveIds);
    starts :| DocumentOrder(starts, tags) && Lists(moves, EntriesOf(tags, starts));
    EntriesAreOk(tags, starts);
  }

  // The tag behind an endpoint stands where the endpoint starts.
  lemma {:induction false} BackingTag(registry: seq<Candidate>, groups: seq<Group>, moveIds: seq<string>, tags: Tags,
                                      starts: seq<nat>, moveId: string, deleted: bool, id: nat, xpath: string)
    requires |groups| == |moveIds| && TagsSound(registry, groups, moveIds, tags)
    requires Backed(tags, starts, moveId, deleted, id, xpath)
    ensures id < |registry| && registry[id].xpath == xpath && registry[id].start in tags
    ensures var tag := tags[registry[id].start];
            tag.moveId == moveId && tag.deleted == deleted && tag.id == id && tag.xpath == xpath
  {
    var s :| s in starts && s in tags && tags[s].moveId == moveId && tags[s].deleted == deleted
             && tags[s].id == id && tags[s].xpath == xpath;
    var k: nat :| TagFrom(registry, groups, moveIds, tags[s], k);
  }

  /** The locators of a collected move are those of its endpoints. */
  lemma {:induction false} CollectedEndpointsFit(registry: seq<Candidate>, groups: seq<Group>, moveIds: seq<string>,
                                                 moves: seq<Move>)
    requires Collected(registry, groups, moveIds, moves)
    ensures UniqueMoveIds(moves) && EndpointsFit(registry, moves)
  {
    var tags, starts := CollectedMoves(registry, groups, moveIds, moves);
    forall m | m in moves
      ensures SideFits(registry, m.originals, m.fromXpaths) && SideFits(registry, m.modifieds, m.toXpaths)
    {
      assert EntryOk(tags, starts, m);
      forall q | 0 <= q < |m.originals|
        ensures m.originals[q] < |registry| && registry[m.originals[q]].xpath == m.fromXpaths[q]
      {
        BackingTag(registry, groups, moveIds, tags, starts, m.id, true, m.originals[q], m.fromXpaths[q]);
      }
      forall q | 0 <= q < |m.modifieds|
        ensures m.modifieds[q] < |registry| && registry[m.modifieds[q]].xpath == m.toXpaths[q]
      {
        BackingTag(registry, groups, moveIds, tags, starts, m.id, false, m.modifieds[q], m.toXpaths[q]);
      }
    }
  }

  // ----- every endpoint has one owner -----

  ghost predicate StartsMatch(registry: seq<Candidate>, tags: Tags) {
    forall s :: s in tags ==> tags[s].id < |registry| && registry[tags[s].id].start == s
  }

  // The endpoints of the move start at some of these nodes.
  ghost predicate StartsWithin(registry: seq<Candidate>, m: Move, starts: seq<nat>) {
    forall id: nat :: HasEndpoint(m, id) ==> id < |registry| && registry[id].start in starts
  }

  ghost predicate OwnOnce(registry: seq<Candidate>, entries: Entries, starts: seq<nat>) {
    forall w :: w in entries ==> EndpointsOnce(entries[w]) && StartsWithin(registry, entries[w], starts)
  }

  lemma {:induction false} AppendOwnsOnce(registry: seq<Candidate>, entries: Entries, tag: Tag, starts: seq<nat>)
    requires tag.id < |registry| && registry[tag.id].start !in starts && OwnOnce(registry, entries, starts)
    ensures OwnOnce(registry, Appended(entries, tag), starts + [registry[tag.id].start])
  {
    var after := Appended(entries, tag);
    forall w | w in after
      ensures EndpointsOnce(after[w]) && StartsWithin(registry, after[w], starts + [registry[tag.id].start])
    {
      if w in entries { assert !HasEndpoint(entries[w], tag.id); }
      forall id: nat | HasEndpoint(after[w], id)
        ensures id < |registry| && registry[id].start in starts + [registry[tag.id].start]
      {
        assert id == tag.id || (w in entries && HasEndpoint(entries[w], id));
      }
    }
  }

  lemma {:induction false} EntriesOwnOnce(registry: seq<Candidate>, tags: Tags, starts: seq<nat>)
    requires StartsMatch(registry, tags) && forall i :: 0 <= i < |starts| ==> starts[i] in tags
    requires forall i, j :: 0 <= i < j < |starts| ==> starts[i] < starts[j]
    ensures OwnOnce(registry, EntriesOf(tags, starts), starts)
  {
    if starts != [] {
      var n := |starts| - 1;
      EntriesOwnOnce(registry, tags, starts[..n]);
      assert starts[n] in tags && starts[n] !in starts[..n];
      AppendOwnsOnce(registry, EntriesOf(tags, starts[..n]), tags[starts[n]], starts[..n]);
      assert starts == starts[..n] + [starts[n]];
    }
  }

  // The tag at the start of an endpoint is one of its move.
  lemma {:induction false} EndpointTag(registry: seq<Candidate>, groups: seq<Group>, moveIds: seq<string>, tags: Tags,
                                       starts: seq<nat>, m: Move, id: nat)
    requires |groups| == |moveIds| && TagsSound(registry, groups, moveIds, tags) && EntryOk(tags, starts, m)
    requires HasEndpoint(m, id)
    ensures id < |registry| && registry[id].start in tags && tags[registry[id].start].moveId == m.id
  {
    if id in m.originals {
      var q :| 0 <= q < |m.originals| && m.originals[q] == id;
      BackingTag(registry, groups, moveIds, tags, starts, m.id, true, id, m.fromXpaths[q]);
    } else {
      var q :| 0 <= q < |m.modifieds| && m.modifieds[q] == id;
      BackingTag(registry, groups, moveIds, tags, starts, m.id, false, id, m.toXpaths[q]);
    }
  }

  /** In collected moves every candidate is an endpoint at most once, whatever the groups share. */
  lemma {:induction false} CollectedEndpointsAreOwned(registry: seq<Candidate>, groups: seq<Group>,
                                                      moveIds: seq<string>, moves: seq<Move>)
    requires Collected(registry, groups, moveIds, moves)
    ensures EndpointsOwned(moves)
  {
    var tags, starts := CollectedMoves(registry, groups, moveIds, moves);
    assert StartsMatch(registry, tags) by {
      forall s | s in tags ensures tags[s].id < |registry| {
        var k: nat :| TagFrom(registry, groups, moveIds, tags[s], k);
      }
    }
    EntriesOwnOnce(registry, tags, starts);
    forall m | m in moves ensures EndpointsOnce(m) { assert EntriesOf(tags, starts)[m.id] == m; }
    forall i, j, id: nat | 0 <= i < j < |moves| && HasEndpoint(moves[i], id) ensures !HasEndpoint(moves[j], id) {
      EndpointTag(registry, groups, moveIds, tags, starts, moves[i], id);
      if HasEndpoint(moves[j], id) { EndpointTag(registry, groups, moveIds, tags, starts, moves[j], id); }
    }
  }

  /** The output for collected moves passes the validator if and only if no joined link belongs to a copy or
      an unresolved residual, and no two joined links occupy the same sibling slot. */
  lemma {:induction false} CollectedOutputIsAdmittedIff(registry: seq<Candidate>, groups: seq<Group>,
                                                        moveIds: seq<string>, moves: seq<Move>)
    requires Collected(registry, groups, moveIds, moves) && LocatorsNameFiles(registry)
    ensures var sequences := BuildSequences(registry, groups, moves);
            var links := SortedLinks(registry, groups, moves);
            OutputAdmitted(registry, moves, sequences, ReportsOf(moves, sequences)) <==>
            JoinedSettled(links, moves) && SlotsFree(links)
  {
    CollectedEndpointsFit(registry, groups, moveIds, moves);
    CollectedEndpointsAreOwned(registry, groups, moveIds, moves);
    OutputIsAdmittedIff(registry, groups, moves);
  }

  // ----- with one locator per node -----

  // A move with one source has it at the node of its tag.
  lemma {:induction false} SingleEndpoint(registry: seq<Candidate>, groups: seq<Group>, moveIds: seq<string>,
                                          tags: Tags, starts: seq<nat>, m: Move, deleted: bool)
    requires |groups| == |moveIds| && TagsSound(registry, groups, moveIds, tags) && EntryOk(tags, starts, m)
    requires |if deleted then m.fromXpaths else m.toXpaths| == 1
    ensures var ids := if deleted then m.originals else m.modifieds;
            && |ids| == 1 && ids[0] < |registry| && registry[ids[0]].start in tags
            && registry[ids[0]].xpath == (if deleted then m.fromXpaths else m.toXpaths)[0]
            && tags[registry[ids[0]].start].moveId == m.id && tags[registry[ids[0]].start].deleted == deleted
  {
    if deleted {
      BackingTag(registry, groups, moveIds, tags, starts, m.id, true, m.originals[0], m.fromXpaths[0]);
    } else {
      BackingTag(registry, groups, moveIds, tags, starts, m.id, false, m.modifieds[0], m.toXpaths[0]);
    }
  }

  lemma {:induction false} SameEndpointSameMove(registry: seq<Candidate>, groups: seq<Group>, moveIds: seq<string>,
                                                tags: Tags, starts: seq<nat>, m: Move, m': Move, deleted: bool)
    requires |groups| == |moveIds| && TagsSound(registry, groups, moveIds, tags) && OwnLocators(registry)
    requires EntryOk(tags, starts, m) && EntryOk(tags, starts, m')
    requires |if deleted then m.fromXpaths else m.toXpaths| == 1
    requires (if deleted then m.fromXpaths else m.toXpaths) == (if deleted then m'.fromXpaths else m'.toXpaths)
    ensures m.id == m'.id
  {
    SingleEndpoint(registry, groups, moveIds, tags, starts, m, deleted);
    SingleEndpoint(registry, groups, moveIds, tags, starts, m', deleted);
    var a := if deleted then m.originals[0] else m.modifieds[0];
    var b := if deleted then m'.originals[0] else m'.modifieds[0];
    assert registry[a] in registry && registry[b] in registry;
  }

  /** When every node has a locator of its own, collected moves have sources and targets of their own. */
  lemma {:induction false} CollectedMovesOwnTheirEnds(registry: seq<Candidate>, groups: seq<Group>,
                                                      moveIds: seq<string>, moves: seq<Move>)
    requires Collected(registry, groups, moveIds, moves) && OwnLocators(registry)
    ensures OwnSources(moves) && OwnTargets(moves)
  {
    var tags, starts := CollectedMoves(registry, groups, moveIds, moves);
    forall i, j | 0 <= i < j < |moves|
      ensures |moves[i].fromXpaths| == 1 ==> moves[i].fromXpaths != moves[j].fromXpaths
      ensures |moves[i].toXpaths| == 1 ==> moves[i].toXpaths != moves[j].toXpaths
    {
      assert moves[i] in moves && moves[j] in moves;
      if |moves[i].fromXpaths| == 1 && moves[i].fromXpaths == moves[j].fromXpaths {
        SameEndpointSameMove(registry, groups, moveIds, tags, starts, moves[i], moves[j], true);
      }
      if |moves[i].toXpaths| == 1 && moves[i].toXpaths == moves[j].toXpaths {
        SameEndpointSameMove(registry, groups, moveIds, tags, starts, moves[i], moves[j], false);
      }
    }
  }

  /** Then sequences are globally maximal: links that continue each other always share a sequence. */
  lemma {:induction false} CollectedSequencesAreMaximal(registry: seq<Candidate>, groups: seq<Group>,
                                                        moveIds: seq<string>, moves: seq<Move>, a: Link, b: Link)
    requires Collected(registry, groups, moveIds, moves) && OwnLocators(registry) && SlotsNameXpaths(registry)
    requires a in SortedLinks(registry, groups, moves) && b in SortedLinks(registry, groups, moves) && Consecutive(a, b)
    ensures ShareSequence(BuildSequences(registry, groups, moves), a.moveId, b.moveId)
  {
    CollectedEndpointsFit(registry, groups, moveIds, moves);
    CollectedMovesOwnTheirEnds(registry, groups, moveIds, moves);
    OwnSourcesGiveMaximality(registry, groups, moves, a, b);
  }

  // The group that a link is made of.
  lemma {:induction false} GroupOfLink(registry: seq<Candidate>, groups: seq<Group>, m: Move, l: Link) returns (j: nat)
    requires LinkOf(registry, ByFromXpath(registry, groups), m) == Some(l)
    ensures j < |groups| && Qualifies(registry, groups[j]) && m.fromXpaths == [registry[groups[j].deletes[0]].xpath]
  {
    var xpath := m.fromXpaths[0];
    ByFromXpathIsUnique(registry, groups, xpath);
    MatchingQualifies(registry, groups, xpath);
    var matching := Matching(registry, groups, xpath);
    assert |matching| == 1 && matching[0] in matching;
    j :| 0 <= j < |groups| && groups[j] == matching[0];
  }

  // The drawn id belongs to one group.
  lemma {:induction false} MoveIdsName(moveIds: seq<string>, k: nat, l: nat)
    requires Distinct(moveIds) && k < |moveIds| && l < |moveIds| && moveIds[k] == moveIds[l]
    ensures k == l
  {
  }

  // The node of a candidate of a linked group is tagged for that group.
  lemma {:induction false} TagOfGroup(registry: seq<Candidate>, groups: seq<Group>, moveIds: seq<string>, tags: Tags,
                                      k: nat, d: nat)
    requires |groups| == |moveIds| && IdsInRange(registry, groups) && DisjointGroups(registry, groups)
    requires TagsSound(registry, groups, moveIds, tags) && k < |groups| && Linked(groups[k]) && Holds(groups[k], d)
    requires StartOf(registry, d) in tags
    ensures TagFrom(registry, groups, moveIds, tags[StartOf(registry, d)], k)
  {
    var tag := tags[StartOf(registry, d)];
    var l: nat :| TagFrom(registry, groups, moveIds, tag, l);
    assert Holds(groups[l], tag.id) && StartOf(registry, tag.id) == StartOf(registry, d);
    assert k < l ==> !Apart(registry, groups[k], groups[l]);
    assert l < k ==> !Apart(registry, groups[l], groups[k]);
  }

  // The scalar fields of a move are those of the group its id was drawn for.
  lemma {:induction false} MoveOfGroup(registry: seq<Candidate>, groups: seq<Group>, moveIds: seq<string>, tags: Tags,
                                       starts: seq<nat>, m: Move) returns (k: nat)
    requires |groups| == |moveIds| && TagsSound(registry, groups, moveIds, tags) && EntryOk(tags, starts, m)
    ensures k < |groups| && Linked(groups[k]) && m.id == moveIds[k] && m.settled == groups[k].settled
    ensures m.relationship == RelationshipName(groups[k].match_)
  {
    var s :| s in starts && s in tags && tags[s].moveId == m.id
             && tags[s].relationship == m.relationship && tags[s].settled == m.settled;
    k :| TagFrom(registry, groups, moveIds, tags[s], k);
  }

  lemma {:induction false} SettledMove(registry: seq<Candidate>, groups: seq<Group>, moveIds: seq<string>, tags: Tags,
                                       starts: seq<nat>, m: Move, j: nat)
    requires |groups| == |moveIds| && TagsSound(registry, groups, moveIds, tags) && EntryOk(tags, starts, m)
    requires Distinct(moveIds) && j < |groups| && m.id == moveIds[j]
    ensures m.settled == groups[j].settled
  {
    var k := MoveOfGroup(registry, groups, moveIds, tags, starts, m);
    MoveIdsName(moveIds, j, k);
  }

  /** With one locator per node and disjoint groups, a link belongs to the group it is made of, which is
      neither a copy nor a residual. */
  lemma {:induction false} CollectedLinksAreSettled(registry: seq<Candidate>, groups: seq<Group>, moveIds: seq<string>,
                                                    moves: seq<Move>, l: Link)
    requires Collected(registry, groups, moveIds, moves) && OwnLocators(registry)
    requires DisjointGroups(registry, groups) && KindsOk(groups) && l in SortedLinks(registry, groups, moves)
    ensures Settled(moves, l.moveId)
  {
    var tags, starts := CollectedMoves(registry, groups, moveIds, moves);
    SortedLinksElements(registry, groups, moves);
    var m :| m in moves && LinkOf(registry, ByFromXpath(registry, groups), m) == Some(l);
    var j := GroupOfLink(registry, groups, m, l);
    var d := groups[j].deletes[0];
    SingleEndpoint(registry, groups, moveIds, tags, starts, m, true);
    var id := m.originals[0];
    assert registry[id] in registry && registry[d] in registry;
    assert Holds(groups[j], d) && StartOf(registry, d) == registry[id].start;
    TagOfGroup(registry, groups, moveIds, tags, j, d);
    SettledMove(registry, groups, moveIds, tags, starts, m, j);
    assert groups[j] in groups;
  }

  /** With one locator per node and disjoint groups the output always passes the validator. */
  lemma {:induction false} CollectedOutputIsAdmitted(registry: seq<Candidate>, groups: seq<Group>, moveIds: seq<string>,
                                                     moves: seq<Move>)
    requires Collected(registry, groups, moveIds, moves) && OwnLocators(registry)
    requires DisjointGroups(registry, groups) && KindsOk(groups)
    requires SlotsNameXpaths(registry) && LocatorsNameFiles(registry)
    ensures var sequences := BuildSequences(registry, groups, moves);
            OutputAdmitted(registry, moves, sequences, ReportsOf(moves, sequences))
  {
    CollectedEndpointsFit(registry, groups, moveIds, moves);
    CollectedMovesOwnTheirEnds(registry, groups, moveIds, moves);
    OwnEndsFreeSlots(registry, groups, moves);
    forall l | l in SortedLinks(registry, groups, moves) ensures Settled(moves, l.moveId) {
      CollectedLinksAreSettled(registry, groups, moveIds, moves, l);
    }
    CollectedOutputIsAdmittedIff(registry, groups, moveIds, moves);
  }

  // ----- one move per linked group -----

  lemma {:induction false} SideTagsAreComplete(tags: Tags, registry: seq<Candidate>, g: Group, moveId: string,
                                               deleted: bool, ids: seq<nat>)
    requires Registered(registry, ids)
    ensures var after := SideTags(tags, registry, g, moveId, deleted, ids);
            (forall s :: s in tags ==> s in after) && forall i :: 0 <= i < |ids| ==> registry[ids[i]].start in after
  {
    if ids != [] { SideTagsAreComplete(tags, registry, g, moveId, deleted, ids[..|ids| - 1]); }
  }

  // Every candidate of a linked group starts at a tagged node.
  lemma {:induction false} MoveTagsAreComplete(registry: seq<Candidate>, groups: seq<Group>, moveIds: seq<string>,
                                               k: nat, id: nat)
    requires |groups| == |moveIds| && IdsInRange(registry, groups) && k < |groups|
    requires Linked(groups[k]) && Holds(groups[k], id)
    ensures id < |registry| && registry[id].start in MoveTags(registry, groups, moveIds)
  {
    var n := |groups| - 1;
    assert forall g :: g in groups[..n] ==> g in groups;
    assert groups[n] in groups;
    var before := MoveTags(registry, groups[..n], moveIds[..n]);
    var mid := SideTags(before, registry, groups[n], moveIds[n], true, groups[n].deletes);
    SideTagsAreComplete(before, registry, groups[n], moveIds[n], true, groups[n].deletes);
    SideTagsAreComplete(mid, registry, groups[n], moveIds[n], false, groups[n].inserts);
    if k < n {
      MoveTagsAreComplete(registry, groups[..n], moveIds[..n], k, id);
    } else if id in groups[n].deletes {
      var i :| 0 <= i < |groups[n].deletes| && groups[n].deletes[i] == id;
    } else {
      var i :| 0 <= i < |groups[n].inserts| && groups[n].inserts[i] == id;
    }
  }

  // A candidate of a linked group is listed by the entry of the group.
  lemma {:induction false} GroupTagIsListed(registry: seq<Candidate>, groups: seq<Group>, moveIds: seq<string>,
                                            tags: Tags, starts: seq<nat>, k: nat, id: nat) returns (tag: Tag)
    requires |groups| == |moveIds| && IdsInRange(registry, groups) && DisjointGroups(registry, groups)
    requires tags == MoveTags(registry, groups, moveIds) && DocumentOrder(starts, tags)
    requires k < |groups| && Linked(groups[k]) && Holds(groups[k], id)
    ensures TagFrom(registry, groups, moveIds, tag, k) && StartOf(registry, tag.id) == StartOf(registry, id)
    ensures Listed(EntriesOf(tags, starts), tag)
  {
    MoveTagsAreSound(registry, groups, moveIds);
    MoveTagsAreComplete(registry, groups, moveIds, k, id);
    TagOfGroup(registry, groups, moveIds, tags, k, id);
    EveryTagIsListed(tags, starts);
    tag := tags[StartOf(registry, id)];
    var i :| 0 <= i < |starts| && starts[i] == StartOf(registry, id);
  }

  // The entry of a linked group.
  lemma {:induction false} LinkedGroupHasMove(registry: seq<Candidate>, groups: seq<Group>, moveIds: seq<string>,
                                              moves: seq<Move>, k: nat) returns (m: Move)
    requires Collected(registry, groups, moveIds, moves) && DisjointGroups(registry, groups)
    requires k < |groups| && Linked(groups[k])
    ensures m in moves && m.id == moveIds[k]
  {
    var tags := MoveTags(registry, groups, moveIds);
    var starts :| DocumentOrder(starts, tags) && Lists(moves, EntriesOf(tags, starts));
    var tag := GroupTagIsListed(registry, groups, moveIds, tags, starts, k, groups[k].deletes[0]);
    EntriesKnowTheirIds(tags, starts);
    m := EntriesOf(tags, starts)[moveIds[k]];
  }

  // The group of a collected move.
  lemma {:induction false} MoveHasGroup(registry: seq<Candidate>, groups: seq<Group>, moveIds: seq<string>,
                                        moves: seq<Move>, m: Move) returns (k: nat)
    requires Collected(registry, groups, moveIds, moves) && m in moves
    ensures k < |groups| && Linked(groups[k]) && m.id == moveIds[k] && m.settled == groups[k].settled
    ensures m.relationship == RelationshipName(groups[k].match_)
  {
    var tags, starts := CollectedMoves(registry, groups, moveIds, moves);
    k := MoveOfGroup(registry, groups, moveIds, tags, starts, m);
  }

  /** The collector makes one move of every linked group and no other: with disjoint groups, an id is that of
      a move exactly when it was drawn for a linked group. */
  lemma {:induction false} OneMovePerGroup(registry: seq<Candidate>, groups: seq<Group>, moveIds: seq<string>,
                                           moves: seq<Move>, w: string)
    requires Collected(registry, groups, moveIds, moves) && DisjointGroups(registry, groups)
    ensures (exists m :: m in moves && m.id == w) <==>
            exists k :: 0 <= k < |groups| && moveIds[k] == w && groups[k].deletes != [] && groups[k].inserts != []
  {
    if m :| m in moves && m.id == w { var k := MoveHasGroup(registry, groups, moveIds, moves, m); }
    if k :| 0 <= k < |groups| && moveIds[k] == w && Linked(groups[k]) {
      var m := LinkedGroupHasMove(registry, groups, moveIds, moves, k);
    }
  }

  /** The candidates of the group start at different nodes. */
  ghost predicate OwnNodes(registry: seq<Candidate>, g: Group) {
    && (forall a: nat, b: nat :: Holds(g, a) && Holds(g, b) && StartOf(registry, a) == StartOf(registry, b) ==> a == b)
    && (forall id :: id in g.deletes ==> id !in g.inserts)
  }

  // What a tag with the id drawn for a group stands for is one of that group.
  lemma {:induction false} BackedInGroup(registry: seq<Candidate>, groups: seq<Group>, moveIds: seq<string>,
                                         tags: Tags, starts: seq<nat>, k: nat, deleted: bool, id: nat, xpath: string)
    requires |groups| == |moveIds| && Distinct(moveIds) && TagsSound(registry, groups, moveIds, tags)
    requires k < |groups| && Backed(tags, starts, moveIds[k], deleted, id, xpath)
    ensures id in (if deleted then groups[k].deletes else groups[k].inserts)
  {
    var s :| s in starts && s in tags && tags[s].moveId == moveIds[k] && tags[s].deleted == deleted
             && tags[s].id == id && tags[s].xpath == xpath;
    var l: nat :| TagFrom(registry, groups, moveIds, tags[s], l);
    MoveIdsName(moveIds, k, l);
  }

  // An endpoint of the move of a group is one of the group.
  lemma {:induction false} EndpointOfGroup(registry: seq<Candidate>, groups: seq<Group>, moveIds: seq<string>,
                                           moves: seq<Move>, m: Move, k: nat, id: nat)
    requires Collected(registry, groups, moveIds, moves) && m in moves && k < |groups| && m.id == moveIds[k]
    ensures id in m.originals ==> id in groups[k].deletes
    ensures id in m.modifieds ==> id in groups[k].inserts
  {
    var tags, starts := CollectedMoves(registry, groups, moveIds, moves);
    assert EntryOk(tags, starts, m);
    if q :| 0 <= q < |m.originals| && m.originals[q] == id {
      BackedInGroup(registry, groups, moveIds, tags, starts, k, true, id, m.fromXpaths[q]);
    }
    if q :| 0 <= q < |m.modifieds| && m.modifieds[q] == id {
      BackedInGroup(registry, groups, moveIds, tags, starts, k, false, id, m.toXpaths[q]);
    }
  }

  // A candidate of a linked group is an endpoint of the move of the group.
  lemma {:induction false} GroupGivesEndpoint(registry: seq<Candidate>, groups: seq<Group>, moveIds: seq<string>,
                                              moves: seq<Move>, m: Move, k: nat, id: nat)
    requires Collected(registry, groups, moveIds, moves) && DisjointGroups(registry, groups) && m in moves
    requires k < |groups| && m.id == moveIds[k] && Linked(groups[k])
    requires OwnNodes(registry, groups[k]) && Holds(groups[k], id)
    ensures if id in groups[k].deletes then id in m.originals else id in m.modifieds
  {
    var tags := MoveTags(registry, groups, moveIds);
    var starts :| DocumentOrder(starts, tags) && Lists(moves, EntriesOf(tags, starts));
    var tag := GroupTagIsListed(registry, groups, moveIds, tags, starts, k, id);
    assert Holds(groups[k], tag.id);
    assert EntriesOf(tags, starts)[m.id] == m;
  }

  /** The endpoints of a move are exactly the candidates of its group: nothing is lost between a content
      group and the move that is reported for it. */
  lemma {:induction false} MovesKeepTheirGroups(registry: seq<Candidate>, groups: seq<Group>, moveIds: seq<string>,
                                                moves: seq<Move>, m: Move, k: nat)
    requires Collected(registry, groups, moveIds, moves) && DisjointGroups(registry, groups) && m in moves
    requires k < |groups| && m.id == moveIds[k] && OwnNodes(registry, groups[k])
    ensures forall id :: id in m.originals <==> id in groups[k].deletes
    ensures forall id :: id in m.modifieds <==> id in groups[k].inserts
    ensures m.settled == groups[k].settled
    ensures (m.relationship == "type1" <==> groups[k].match_.Type1?)
            && (m.relationship == "type2c" <==> groups[k].match_.Type2?)
            && (m.relationship == "type3" <==> groups[k].match_.Type3?)
            && (m.relationship == "unmatched" <==> groups[k].match_.Unmatched?)
  {
    GroupOfMove(registry, groups, moveIds, moves, m, k);
    forall id
      ensures (id in m.originals ==> id in groups[k].deletes) && (id in m.modifieds ==> id in groups[k].inserts)
    {
      EndpointOfGroup(registry, groups, moveIds, moves, m, k, id);
    }
    forall id: nat | Holds(groups[k], id)
      ensures if id in groups[k].deletes then id in m.originals else id in m.modifieds
    {
      GroupGivesEndpoint(registry, groups, moveIds, moves, m, k, id);
    }
  }

  // A move has the scalar fields of the group its id was drawn for.
  lemma {:induction false} GroupOfMove(registry: seq<Candidate>, groups: seq<Group>, moveIds: seq<string>,
                                       moves: seq<Move>, m: Move, k: nat)
    requires Collected(registry, groups, moveIds, moves) && m in moves && k < |groups| && m.id == moveIds[k]
    ensures Linked(groups[k]) && m.settled == groups[k].settled && m.relationship == RelationshipName(groups[k].match_)
  {
    var l := MoveHasGroup(registry, groups, moveIds, moves, m);
    MoveIdsName(moveIds, k, l);
  }
}
