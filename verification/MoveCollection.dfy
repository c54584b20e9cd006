/** The moves that the aggregation receives: the tags of src/writer/annotation_plan.cpp (34-140) and the
    results collected from them in src/writer/annotation_writer.cpp (69-111, 229-254).

    Every linked group draws one move id and tags its candidates by the node they start at; a node keeps
    its first tag.  The tags are then read in document order, and those of one move id become one move.
    The moves come out in an arbitrary order. */
module MoveCollection {
  import opened Ordering
  import opened MoveSequences

  datatype Tag = Tag(moveId: string, relationship: string, settled: bool, deleted: bool, id: nat, xpath: string)

  type Tags = map<nat, Tag>

  function RelationshipName(m: MatchKind): string {
    match m
    case Type1 => "type1"
    case Type2 => "type2c"
    case Type3 => "type3"
    case Unmatched => "unmatched"
  }

  predicate Linked(g: Group) { g.deletes != [] && g.inserts != [] }

  function TagOf(registry: seq<Candidate>, g: Group, moveId: string, deleted: bool, id: nat): Tag
    requires id < |registry|
  {
    Tag(moveId, RelationshipName(g.match_), g.settled, deleted, id, registry[id].xpath)
  }

  // ----- tagging -----

  predicate Registered(registry: seq<Candidate>, ids: seq<nat>) { forall i :: 0 <= i < |ids| ==> ids[i] < |registry| }

  // `emplace`: a node keeps its first tag.
  function Placed(tags: Tags, start: nat, tag: Tag): Tags { if start in tags then tags else tags[start := tag] }

  function SideTags(tags: Tags, registry: seq<Candidate>, g: Group, moveId: string, deleted: bool, ids: seq<nat>): Tags
    requires Registered(registry, ids)
  {
    if ids == [] then tags else
      var n := |ids| - 1;
      Placed(SideTags(tags, registry, g, moveId, deleted, ids[..n]), registry[ids[n]].start,
             TagOf(registry, g, moveId, deleted, ids[n]))
  }

  function GroupTags(tags: Tags, registry: seq<Candidate>, g: Group, moveId: string): Tags
    requires Registered(registry, g.deletes) && Registered(registry, g.inserts)
  {
    if !Linked(g) then tags
    else SideTags(SideTags(tags, registry, g, moveId, true, g.deletes), registry, g, moveId, false, g.inserts)
  }

  /** `build_move_tags`; moveIds[k] is the id drawn for group k. */
  function MoveTags(registry: seq<Candidate>, groups: seq<Group>, moveIds: seq<string>): Tags
    requires |groups| == |moveIds| && IdsInRange(registry, groups)
  {
    if groups == [] then map[] else
      var n := |groups| - 1;
      assert forall g :: g in groups[..n] ==> g in groups;
      assert groups[n] in groups;
      GroupTags(MoveTags(registry, groups[..n], moveIds[..n]), registry, groups[n], moveIds[n])
  }

  method AddSideTags(tags: Tags, registry: seq<Candidate>, g: Group, moveId: string, deleted: bool, ids: seq<nat>)
      returns (r: Tags)
    requires Registered(registry, ids)
    ensures r == SideTags(tags, registry, g, moveId, deleted, ids)
  {
    r := tags;
    for i := 0 to |ids|
      invariant r == SideTags(tags, registry, g, moveId, deleted, ids[..i])
    {
      assert ids[..i + 1][..i] == ids[..i];
      var start := registry[ids[i]].start;
      if start !in r { r := r[start := TagOf(registry, g, moveId, deleted, ids[i])]; }
    }
    assert ids[..|ids|] == ids;
  }

  method BuildMoveTags(registry: seq<Candidate>, groups: seq<Group>, moveIds: seq<string>) returns (tags: Tags)
    requires |groups| == |moveIds| && IdsInRange(registry, groups)
    ensures tags == MoveTags(registry, groups, moveIds)
  {
    tags := map[];
    for k := 0 to |groups|
      invariant tags == MoveTags(registry, groups[..k], moveIds[..k])
    {
      assert groups[..k + 1][..k] == groups[..k] && moveIds[..k + 1][..k] == moveIds[..k];
      var g := groups[k];
      assert g in groups;
      if !Linked(g) { continue; }
      tags := AddSideTags(tags, registry, g, moveIds[k], true, g.deletes);
      tags := AddSideTags(tags, registry, g, moveIds[k], false, g.inserts);
    }
    assert groups[..|groups|] == groups && moveIds[..|moveIds|] == moveIds;
  }

  // ----- what the tags say -----

  // The tag is one of group k for its candidate.
  ghost predicate TagFrom(registry: seq<Candidate>, groups: seq<Group>, moveIds: seq<string>, tag: Tag, k: nat)
    requires |groups| == |moveIds|
  {
    && k < |groups| && Linked(groups[k]) && tag.id < |registry|
    && tag == TagOf(registry, groups[k], moveIds[k], tag.deleted, tag.id)
    && tag.id in (if tag.deleted then groups[k].deletes else groups[k].inserts)
  }

  ghost predicate TagsSound(registry: seq<Candidate>, groups: seq<Group>, moveIds: seq<string>, tags: Tags)
    requires |groups| == |moveIds|
  {
    forall s :: s in tags ==>
      (exists k: nat :: TagFrom(registry, groups, moveIds, tags[s], k)) && registry[tags[s].id].start == s
  }

  lemma {:induction false} PlacedIsSound(registry: seq<Candidate>, groups: seq<Group>, moveIds: seq<string>, tags: Tags,
                                         tag: Tag, k: nat)
    requires |groups| == |moveIds| && TagsSound(registry, groups, moveIds, tags)
    requires TagFrom(registry, groups, moveIds, tag, k)
    ensures TagsSound(registry, groups, moveIds, Placed(tags, registry[tag.id].start, tag))
  {
  }

  lemma {:induction false} SideTagsAreSound(registry: seq<Candidate>, groups: seq<Group>, moveIds: seq<string>, k: nat,
                                            tags: Tags, deleted: bool, ids: seq<nat>)
    requires |groups| == |moveIds| && k < |groups| && Linked(groups[k]) && Registered(registry, ids)
    requires forall i :: 0 <= i < |ids| ==> ids[i] in (if deleted then groups[k].deletes else groups[k].inserts)
    requires TagsSound(registry, groups, moveIds, tags)
    ensures TagsSound(registry, groups, moveIds, SideTags(tags, registry, groups[k], moveIds[k], deleted, ids))
  {
    if ids != [] {
      var n := |ids| - 1;
      SideTagsAreSound(registry, groups, moveIds, k, tags, deleted, ids[..n]);
      PlacedIsSound(registry, groups, moveIds, SideTags(tags, registry, groups[k], moveIds[k], deleted, ids[..n]),
                    TagOf(registry, groups[k], moveIds[k], deleted, ids[n]), k);
    }
  }

  lemma {:induction false} SoundWithMoreGroups(registry: seq<Candidate>, groups: seq<Group>, moveIds: seq<string>,
                                               n: nat, tags: Tags)
    requires |groups| == |moveIds| && n <= |groups| && TagsSound(registry, groups[..n], moveIds[..n], tags)
    ensures TagsSound(registry, groups, moveIds, tags)
  {
    forall s | s in tags ensures exists k: nat :: TagFrom(registry, groups, moveIds, tags[s], k) {
      var k: nat :| TagFrom(registry, groups[..n], moveIds[..n], tags[s], k);
      assert TagFrom(registry, groups, moveIds, tags[s], k);
    }
  }

  /** Every tag stands at the node where its candidate starts and carries the move id of a linked group of
      that candidate. */
  lemma {:induction false} MoveTagsAreSound(registry: seq<Candidate>, groups: seq<Group>, moveIds: seq<string>)
    requires |groups| == |moveIds| && IdsInRange(registry, groups)
    ensures TagsSound(registry, groups, moveIds, MoveTags(registry, groups, moveIds))
  {
    if groups != [] {
      var n := |groups| - 1;
      assert forall g :: g in groups[..n] ==> g in groups;
      assert groups[n] in groups;
      MoveTagsAreSound(registry, groups[..n], moveIds[..n]);
      var before := MoveTags(registry, groups[..n], moveIds[..n]);
      SoundWithMoreGroups(registry, groups, moveIds, n, before);
      if Linked(groups[n]) {
        SideTagsAreSound(registry, groups, moveIds, n, before, true, groups[n].deletes);
        SideTagsAreSound(registry, groups, moveIds, n,
                         SideTags(before, registry, groups[n], moveIds[n], true, groups[n].deletes), false,
                         groups[n].inserts);
      }
    }
  }

  // ----- collecting -----

  type Entries = map<string, Move>

  // `append_move_result`.
  function Appended(entries: Entries, tag: Tag): Entries {
    var e := (if tag.moveId in entries then entries[tag.moveId] else Move(tag.moveId, "", [], [], [], [], true))
             .(relationship := tag.relationship, settled := tag.settled);
    entries[tag.moveId :=
      if tag.deleted then e.(originals := e.originals + [tag.id], fromXpaths := e.fromXpaths + [tag.xpath])
      else e.(modifieds := e.modifieds + [tag.id], toXpaths := e.toXpaths + [tag.xpath])]
  }

  function EntriesOf(tags: Tags, starts: seq<nat>): Entries
    requires forall i :: 0 <= i < |starts| ==> starts[i] in tags
  {
    if starts == [] then map[] else
      var n := |starts| - 1;
      Appended(EntriesOf(tags, starts[..n]), tags[starts[n]])
  }

  // The nodes with a tag, in document order.
  ghost predicate DocumentOrder(starts: seq<nat>, tags: Tags) {
    && (forall i, j :: 0 <= i < j < |starts| ==> starts[i] < starts[j])
    && (forall s :: s in starts <==> s in tags)
  }

  // The moves are the entries, each once.
  ghost predicate Lists(moves: seq<Move>, entries: Entries) {
    UniqueMoveIds(moves) && forall m :: m in moves <==> m.id in entries && entries[m.id] == m
  }

  /** What `collect_move_results` may return for these tags. */
  ghost predicate CollectedFrom(tags: Tags, moves: seq<Move>) {
    exists starts :: DocumentOrder(starts, tags) && Lists(moves, EntriesOf(tags, starts))
  }

  /** What the aggregation may receive for these groups and drawn ids. */
  ghost predicate Collected(registry: seq<Candidate>, groups: seq<Group>, moveIds: seq<string>, moves: seq<Move>) {
    && |groups| == |moveIds| && IdsInRange(registry, groups)
    && Distinct(moveIds) && "" !in moveIds
    && CollectedFrom(MoveTags(registry, groups, moveIds), moves)
  }

  method CollectMoveResults(registry: seq<Candidate>, groups: seq<Group>, moveIds: seq<string>)
      returns (moves: seq<Move>)
    requires |groups| == |moveIds| && IdsInRange(registry, groups) && Distinct(moveIds) && "" !in moveIds
    ensures Collected(registry, groups, moveIds, moves)
  {
    var tags := BuildMoveTags(registry, groups, moveIds);
    var starts := OrderedStarts(tags);
    var entries := CollectEntries(tags, starts);
    EntriesKnowTheirIds(tags, starts);
    moves := Materialize(entries);
  }

  // The tagged nodes, sorted.
  method OrderedStarts(tags: Tags) returns (starts: seq<nat>)
    ensures DocumentOrder(starts, tags)
  {
    var keys: set<nat>, listed: seq<nat> := tags.Keys, [];
    while keys != {}
      invariant Distinct(listed) && forall s :: s in tags <==> s in keys || s in listed
      invariant forall s :: s in keys ==> s !in listed
      decreases |keys|
    {
      var s :| s in keys;
      listed, keys := listed + [s], keys - {s};
    }
    starts := Sort((x: nat, y: nat) => x < y, listed);
    SortedStartsIncrease(listed, starts);
  }

  lemma {:induction false} SortedStartsIncrease(listed: seq<nat>, starts: seq<nat>)
    requires Distinct(listed) && starts == Sort((x: nat, y: nat) => x < y, listed)
    ensures forall i, j :: 0 <= i < j < |starts| ==> starts[i] < starts[j]
    ensures forall s :: s in starts <==> s in listed
  {
    var less := (x: nat, y: nat) => x < y;
    SortSorts(less, listed);
    SameElements(listed, starts);
    DistinctIsMultisetProperty(listed, starts);
    forall i, j | 0 <= i < j < |starts| ensures starts[i] < starts[j] { assert !less(starts[j], starts[i]); }
  }

  // The loop over the ordered tags.
  method CollectEntries(tags: Tags, starts: seq<nat>) returns (entries: Entries)
    requires forall i :: 0 <= i < |starts| ==> starts[i] in tags
    ensures entries == EntriesOf(tags, starts)
  {
    entries := map[];
    for i := 0 to |starts|
      invariant entries == EntriesOf(tags, starts[..i])
    {
      assert starts[..i + 1][..i] == starts[..i];
      entries := Appended(entries, tags[starts[i]]);
    }
    assert starts[..|starts|] == starts;
  }

  ghost predicate KnowTheirIds(entries: Entries) { forall w :: w in entries ==> entries[w].id == w }

  lemma {:induction false} EntriesKnowTheirIds(tags: Tags, starts: seq<nat>)
    requires forall i :: 0 <= i < |starts| ==> starts[i] in tags
    ensures KnowTheirIds(EntriesOf(tags, starts))
  {
    if starts != [] { EntriesKnowTheirIds(tags, starts[..|starts| - 1]); }
  }

  // `materialize_move_results`: the entries in the order of an unordered map.
  method Materialize(entries: Entries) returns (moves: seq<Move>)
    requires KnowTheirIds(entries)
    ensures Lists(moves, entries)
  {
    var keys := entries.Keys;
    moves := [];
    while keys != {}
      invariant keys <= entries.Keys && UniqueMoveIds(moves)
      invariant forall m :: m in moves <==> m.id in entries && m.id !in keys && entries[m.id] == m
      decreases |keys|
    {
      var w :| w in keys;
      assert forall m :: m in moves ==> m.id != w;
      moves, keys := moves + [entries[w]], keys - {w};
    }
  }

  // ----- what the moves say -----

  // A tag of the move stands behind the endpoint.
  ghost predicate Backed(tags: Tags, starts: seq<nat>, moveId: string, deleted: bool, id: nat, xpath: string) {
    exists s :: s in starts && s in tags && tags[s].moveId == moveId && tags[s].deleted == deleted
                && tags[s].id == id && tags[s].xpath == xpath
  }

  ghost predicate ScalarsFrom(tags: Tags, starts: seq<nat>, m: Move) {
    exists s :: s in starts && s in tags && tags[s].moveId == m.id
                && tags[s].relationship == m.relationship && tags[s].settled == m.settled
  }

  /** The endpoints of the move are its own tags, each once, with their locators. */
  ghost predicate EntryOk(tags: Tags, starts: seq<nat>, m: Move) {
    && |m.originals| == |m.fromXpaths| && |m.modifieds| == |m.toXpaths|
    && (forall q :: 0 <= q < |m.originals| ==> Backed(tags, starts, m.id, true, m.originals[q], m.fromXpaths[q]))
    && (forall q :: 0 <= q < |m.modifieds| ==> Backed(tags, starts, m.id, false, m.modifieds[q], m.toXpaths[q]))
    && ScalarsFrom(tags, starts, m)
  }

  lemma {:induction false} BackedByMore(tags: Tags, starts: seq<nat>, n: nat, moveId: string, deleted: bool, id: nat,
                                        xpath: string)
    requires n <= |starts| && Backed(tags, starts[..n], moveId, deleted, id, xpath)
    ensures Backed(tags, starts, moveId, deleted, id, xpath)
  {
    var s :| s in starts[..n] && s in tags && tags[s].moveId == moveId && tags[s].deleted == deleted
             && tags[s].id == id && tags[s].xpath == xpath;
    assert s in starts;
  }

  lemma {:induction false} OkWithMore(tags: Tags, starts: seq<nat>, n: nat, m: Move)
    requires n <= |starts| && EntryOk(tags, starts[..n], m)
    ensures EntryOk(tags, starts, m)
  {
    forall q | 0 <= q < |m.originals| ensures Backed(tags, starts, m.id, true, m.originals[q], m.fromXpaths[q]) {
      BackedByMore(tags, starts, n, m.id, true, m.originals[q], m.fromXpaths[q]);
    }
    forall q | 0 <= q < |m.modifieds| ensures Backed(tags, starts, m.id, false, m.modifieds[q], m.toXpaths[q]) {
      BackedByMore(tags, starts, n, m.id, false, m.modifieds[q], m.toXpaths[q]);
    }
    var s :| s in starts[..n] && s in tags && tags[s].moveId == m.id
             && tags[s].relationship == m.relationship && tags[s].settled == m.settled;
    assert s in starts;
  }

  lemma {:induction false} EntriesAreOk(tags: Tags, starts: seq<nat>)
    requires forall i :: 0 <= i < |starts| ==> starts[i] in tags
    ensures forall w :: w in EntriesOf(tags, starts) ==> EntryOk(tags, starts, EntriesOf(tags, starts)[w])
  {
    if starts != [] {
      var n := |starts| - 1;
      var before, tag := EntriesOf(tags, starts[..n]), tags[starts[n]];
      EntriesAreOk(tags, starts[..n]);
      EntriesKnowTheirIds(tags, starts[..n]);
      forall w | w in before ensures EntryOk(tags, starts, before[w]) { OkWithMore(tags, starts, n, before[w]); }
      AppendedIsOk(tags, starts, before, starts[n]);
    }
  }

  lemma {:induction false} AppendedIsOk(tags: Tags, starts: seq<nat>, before: Entries, start: nat)
    requires start in starts && start in tags && KnowTheirIds(before)
    requires forall w :: w in before ==> EntryOk(tags, starts, before[w])
    ensures forall w :: w in Appended(before, tags[start]) ==> EntryOk(tags, starts, Appended(before, tags[start])[w])
  {
    var tag := tags[start];
    assert Backed(tags, starts, tag.moveId, tag.deleted, tag.id, tag.xpath);
    assert ScalarsFrom(tags, starts, Appended(before, tag)[tag.moveId]);
  }

  // The entry of a tag's move lists the tag's candidate on its side.
  ghost predicate Listed(entries: Entries, tag: Tag) {
    tag.moveId in entries && tag.id in
      (if tag.deleted then entries[tag.moveId].originals else entries[tag.moveId].modifieds)
  }

  lemma {:induction false} EveryTagIsListed(tags: Tags, starts: seq<nat>)
    requires forall i :: 0 <= i < |starts| ==> starts[i] in tags
    ensures forall i :: 0 <= i < |starts| ==> Listed(EntriesOf(tags, starts), tags[starts[i]])
  {
    if starts != [] {
      var n := |starts| - 1;
      EveryTagIsListed(tags, starts[..n]);
      var before, tag := EntriesOf(tags, starts[..n]), tags[starts[n]];
      forall i | 0 <= i < |starts| ensures Listed(Appended(before, tag), tags[starts[i]]) {
        if i < n { assert starts[..n][i] == starts[i]; }
      }
    }
  }
}
