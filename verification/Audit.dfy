/** The population audit of bigMoveBench/audit.py (77-131) over an index built from the same catalog. */
module Audit {
  import opened Ordering
  import opened SelectionIndex
  import opened IndexProperties

  /** A frame that is in two categories. */
  datatype Edge = Edge(frame: string, left: Category, right: Category)

  datatype Membership = Membership(frame: string, category: Category)

  function Categories(m: set<Membership>, frame: string): set<Category> {
    set x | x in m && x.frame == frame :: x.category
  }

  function Frames(m: set<Membership>): set<string> { set x | x in m :: x.frame }

  function Within(m: set<Membership>, frames: set<string>): set<Membership> { set x | x in m && x.frame in frames }

  ghost predicate Joins(edges: seq<Edge>, frame: string, a: Category, b: Category) {
    Edge(frame, a, b) in edges || Edge(frame, b, a) in edges
  }

  /** The edges are the pairwise intersections of the categories. */
  ghost predicate EdgesOf(edges: seq<Edge>, m: set<Membership>) {
    && (forall e :: e in edges ==> e.left != e.right
                                   && Membership(e.frame, e.left) in m && Membership(e.frame, e.right) in m)
    && (forall f, a, b :: a != b && Membership(f, a) in m && Membership(f, b) in m ==> Joins(edges, f, a, b))
  }

  // ----- counting memberships -----

  lemma {:induction false} CategoriesCount(m: set<Membership>, frame: string, all: set<Category>)
    requires all == Categories(m, frame)
    ensures |Within(m, {frame})| == |all|
    decreases |all|
  {
    assert forall x :: x in m && x.frame == frame ==> x.category in Categories(m, frame);
    if all == {} {
      assert Within(m, {frame}) == {};
    } else {
      var c :| c in all;
      var smaller := m - {Membership(frame, c)};
      assert Categories(smaller, frame) == all - {c};
      CategoriesCount(smaller, frame, all - {c});
      assert Within(m, {frame}) == Within(smaller, {frame}) + {Membership(frame, c)};
    }
  }

  lemma {:induction false} WithinAdd(m: set<Membership>, frames: set<string>, frame: string)
    requires frame !in frames
    ensures |Within(m, frames + {frame})| == |Within(m, frames)| + |Categories(m, frame)|
  {
    CategoriesCount(m, frame, Categories(m, frame));
    assert Within(m, frames + {frame}) == Within(m, frames) + Within(m, {frame});
    assert Within(m, frames) !! Within(m, {frame});
  }

  lemma {:induction false} SingleMemberships(m: set<Membership>, frames: set<string>)
    requires forall f :: f in frames ==> |Categories(m, f)| == 1
    ensures |Within(m, frames)| == |frames|
  {
    if frames == {} {
      assert Within(m, frames) == {};
    } else {
      var f :| f in frames;
      SingleMemberships(m, frames - {f});
      WithinAdd(m, frames - {f}, f);
      assert frames - {f} + {f} == frames;
    }
  }

  // ----- the accounting -----

  // The memberships that the edges name.
  ghost predicate MembershipsOf(table: map<string, set<Category>>, edges: seq<Edge>) {
    && (forall f :: f in table <==> exists e :: e in edges && e.frame == f)
    && (forall f, c :: f in table ==>
          (c in table[f] <==> exists e :: e in edges && e.frame == f && (e.left == c || e.right == c)))
  }

  lemma {:induction false} MembershipsAreCategories(table: map<string, set<Category>>, edges: seq<Edge>,
                                                    m: set<Membership>)
    requires MembershipsOf(table, edges) && EdgesOf(edges, m)
    ensures forall f :: f in table ==> table[f] == Categories(m, f) && f in Frames(m)
    ensures forall f :: f in Frames(m) && f !in table ==> |Categories(m, f)| == 1
  {
    forall f | f in table ensures table[f] == Categories(m, f) && f in Frames(m) {
      var e :| e in edges && e.frame == f;
      assert Membership(f, e.left) in m && Membership(f, e.right) in m;
      forall c | c in Categories(m, f) ensures c in table[f] {
        assert Membership(f, c) in m;
        var other := if c == e.left then e.right else e.left;
        assert Joins(edges, f, c, other);
      }
    }
    forall f | f in Frames(m) && f !in table ensures |Categories(m, f)| == 1 {
      var x :| x in m && x.frame == f;
      assert forall a, b :: !Joins(edges, f, a, b);
      assert forall c :: c in Categories(m, f) ==> Membership(f, c) in m;
      assert Membership(f, x.category) in m;
      assert Categories(m, f) == {x.category};
    }
  }

  lemma {:induction false} MembershipsNext(table: map<string, set<Category>>, edges: seq<Edge>, e: Edge)
    requires MembershipsOf(table, edges)
    ensures var own := if e.frame in table then table[e.frame] else {};
            MembershipsOf(table[e.frame := own + {e.left, e.right}], edges + [e])
  {
    assert forall x :: x in edges + [e] <==> x in edges || x == e;
    assert forall f :: f !in table ==> forall x :: x in edges ==> x.frame != f;
  }

  method CollectMemberships(edges: seq<Edge>) returns (table: map<string, set<Category>>)
    ensures MembershipsOf(table, edges)
  {
    table := map[];
    for i := 0 to |edges|
      invariant MembershipsOf(table, edges[..i])
    {
      var e := edges[i];
      MembershipsNext(table, edges[..i], e);
      assert edges[..i + 1] == edges[..i] + [e];
      var own := if e.frame in table then table[e.frame] else {};
      table := table[e.frame := own + {e.left, e.right}];
    }
    assert edges[..|edges|] == edges;
  }

  /** The record of `overlap_accounting`; a pattern is the set of the categories of a frame. */
  datatype Accounting = Accounting(memberships: nat, distinct: int, multiple: nat, excess: int, disjoint: bool,
                                   patterns: map<set<Category>, nat>)

  function FramesWith(m: set<Membership>, frames: set<string>, pattern: set<Category>): set<string> {
    set f | f in frames && Categories(m, f) == pattern
  }

  // The patterns of these frames, each with the number of its frames.
  ghost predicate PatternsOf(patterns: map<set<Category>, nat>, m: set<Membership>, frames: set<string>) {
    forall p :: Lookup(patterns, p) == |FramesWith(m, frames, p)|
  }

  /** `overlap_accounting`: the excess memberships are exactly the memberships beyond one per frame, so
      total minus excess is the number of distinct frames, the cardinality of the union; and the patterns
      count the frames in several categories by the categories they are in. */
  method OverlapAccounting(total: nat, edges: seq<Edge>, ghost m: set<Membership>) returns (a: Accounting)
    requires EdgesOf(edges, m) && total == |m|
    ensures a.memberships == total && a.distinct == |Frames(m)| == total - a.excess
    ensures a.multiple == |Repeated(m)| && (a.disjoint <==> Repeated(m) == {})
    ensures PatternsOf(a.patterns, m, Repeated(m))
  {
    var table := CollectMemberships(edges);
    MembershipsAreCategories(table, edges, m);
    TableIsRepeated(edges, m, table);
    ExcessIsExact(m, table.Keys);
    var excess, patterns := TallyOverlaps(table, m);
    return Accounting(total, total - excess, |table.Keys|, excess, excess == 0, patterns);
  }

  lemma {:induction false} MoveFrame(frames: set<string>, seen: set<string>, f: string)
    requires f in frames && frames !! seen
    ensures (frames - {f}) + (seen + {f}) == frames + seen && (frames - {f}) !! (seen + {f})
    ensures |seen + {f}| == |seen| + 1 && |frames - {f}| < |frames|
  {
  }

  lemma {:induction false} FramesWithAdd(m: set<Membership>, seen: set<string>, f: string, pattern: set<Category>)
    requires f !in seen
    ensures |FramesWith(m, seen + {f}, pattern)| ==
            |FramesWith(m, seen, pattern)| + if Categories(m, f) == pattern then 1 else 0
  {
    var before := FramesWith(m, seen, pattern);
    if Categories(m, f) == pattern {
      assert FramesWith(m, seen + {f}, pattern) == before + {f};
    } else {
      assert FramesWith(m, seen + {f}, pattern) == before;
    }
  }

  function Tallied(patterns: map<set<Category>, nat>, own: set<Category>): map<set<Category>, nat> {
    patterns[own := Lookup(patterns, own) + 1]
  }

  lemma {:induction false} PatternAdd(m: set<Membership>, seen: set<string>, f: string,
                                      patterns: map<set<Category>, nat>, own: set<Category>)
    requires f !in seen && PatternsOf(patterns, m, seen) && own == Categories(m, f)
    ensures PatternsOf(Tallied(patterns, own), m, seen + {f})
  {
    forall p ensures Lookup(Tallied(patterns, own), p) == |FramesWith(m, seen + {f}, p)| {
      FramesWithAdd(m, seen, f, p);
      assert Lookup(patterns, p) == |FramesWith(m, seen, p)|;
    }
  }

  method TallyOverlaps(table: map<string, set<Category>>, ghost m: set<Membership>)
      returns (excess: int, patterns: map<set<Category>, nat>)
    requires forall f :: f in table ==> table[f] == Categories(m, f) && |table[f]| >= 2
    ensures excess == |Within(m, table.Keys)| - |table.Keys| && excess >= |table.Keys|
    ensures PatternsOf(patterns, m, table.Keys)
  {
    var frames := table.Keys;
    ghost var seen: set<string> := {};
    excess, patterns := 0, map[];
    assert Within(m, seen) == {} && forall p :: FramesWith(m, seen, p) == {};
    while frames != {}
      invariant frames + seen == table.Keys && frames !! seen
      invariant excess == |Within(m, seen)| - |seen| && excess >= |seen|
      invariant PatternsOf(patterns, m, seen)
      decreases |frames|
    {
      var f :| f in frames;
      WithinAdd(m, seen, f);
      PatternAdd(m, seen, f, patterns, table[f]);
      MoveFrame(frames, seen, f);
      excess := excess + |table[f]| - 1;
      patterns := Tallied(patterns, table[f]);
      frames := frames - {f};
      seen := seen + {f};
    }
    assert seen == table.Keys;
  }

  /** The frames in more than one category. */
  function Repeated(m: set<Membership>): set<string> { set x | x in m && |Categories(m, x.frame)| >= 2 :: x.frame }

  lemma {:induction false} TableIsRepeated(edges: seq<Edge>, m: set<Membership>, table: map<string, set<Category>>)
    requires MembershipsOf(table, edges) && EdgesOf(edges, m)
    ensures table.Keys == Repeated(m) && table.Keys <= Frames(m)
    ensures forall f :: f in table ==> |table[f]| >= 2
    ensures forall f :: f in Frames(m) && f !in table ==> |Categories(m, f)| == 1
  {
    MembershipsAreCategories(table, edges, m);
    forall f | f in table ensures f in Repeated(m) {
      AtLeastTwo(edges, m, table, f);
      var x :| x in m && x.frame == f;
    }
    assert forall f :: f in Repeated(m) ==> f in Frames(m);
  }

  lemma {:induction false} ExcessIsExact(m: set<Membership>, seen: set<string>)
    requires seen <= Frames(m) && forall f :: f in Frames(m) && f !in seen ==> |Categories(m, f)| == 1
    ensures |m| - (|Within(m, seen)| - |seen|) == |Frames(m)|
  {
    var rest := Frames(m) - seen;
    SingleMemberships(m, rest);
    assert m == Within(m, seen) + Within(m, rest) && Within(m, seen) !! Within(m, rest);
    assert Frames(m) == seen + rest;
  }

  lemma {:induction false} AtLeastTwo(edges: seq<Edge>, m: set<Membership>, table: map<string, set<Category>>,
                                      f: string)
    requires MembershipsOf(table, edges) && EdgesOf(edges, m) && f in table
    ensures |table[f]| >= 2
  {
    var e :| e in edges && e.frame == f;
    assert {e.left, e.right} <= table[f];
    TwoMembers(table[f], e.left, e.right);
  }

  lemma {:induction false} TwoMembers(s: set<Category>, a: Category, b: Category)
    requires a in s && b in s && a != b
    ensures |s| >= 2
  {
    assert {a, b} <= s;
    assert |s| == |s - {a, b}| + |{a, b}|;
  }

  // ----- the population of a built index -----

  function MembershipsIn(entries: seq<Entry>): (m: set<Membership>)
    ensures forall x :: x in m <==> exists e :: e in entries && x == Membership(e.frame, e.key.category)
  {
    set e | e in entries :: Membership(e.frame, e.key.category)
  }

  function Rank(c: Category): (r: nat)
    ensures r < |CATEGORIES| && CATEGORIES[r] == c
  {
    match c
    case FalsePositives => 0
    case Type1 => 1
    case Type2b => 2
    case Type2c => 3
    case Type3 => 4
  }

  /** The overlap query: the frames of one category that also occur in the other. */
  function SharedFrames(frames: seq<Entry>, m: set<Membership>, left: Category, right: Category): (r: seq<Edge>)
    ensures forall e :: e in r <==> e.left == left && e.right == right && Membership(e.frame, right) in m
                                    && Membership(e.frame, left) in MembershipsIn(frames)
  {
    if frames == [] then [] else
      var n := |frames| - 1;
      assert frames == frames[..n] + [frames[n]];
      var before := SharedFrames(frames[..n], m, left, right);
      if frames[n].key.category == left && Membership(frames[n].frame, right) in m
      then before + [Edge(frames[n].frame, left, right)] else before
  }

  predicate Earlier(a: Category, b: Category, i: nat, j: nat) { Rank(a) < i || (Rank(a) == i && Rank(b) < j) }

  // The pairs of categories before (i, j) in the order of the loops are joined.
  ghost predicate JoinedBefore(edges: seq<Edge>, m: set<Membership>, i: nat, j: nat) {
    && (forall e :: e in edges ==> Rank(e.left) < Rank(e.right)
                                   && Membership(e.frame, e.left) in m && Membership(e.frame, e.right) in m)
    && (forall f, a, b :: Rank(a) < Rank(b) && Earlier(a, b, i, j) && Membership(f, a) in m && Membership(f, b) in m ==>
          Edge(f, a, b) in edges)
  }

  lemma {:induction false} JoinPair(edges: seq<Edge>, entries: seq<Entry>, i: nat, j: nat)
    requires i < j < |CATEGORIES| && JoinedBefore(edges, MembershipsIn(entries), i, j)
    ensures JoinedBefore(edges + SharedFrames(entries, MembershipsIn(entries), CATEGORIES[i], CATEGORIES[j]),
                         MembershipsIn(entries), i, j + 1)
  {
    var m := MembershipsIn(entries);
    var more := edges + SharedFrames(entries, m, CATEGORIES[i], CATEGORIES[j]);
    assert Rank(CATEGORIES[i]) == i && Rank(CATEGORIES[j]) == j by { Ranks(i); Ranks(j); }
    forall f, a, b | Rank(a) == i && Rank(b) == j && Membership(f, a) in m && Membership(f, b) in m
      ensures Edge(f, a, b) in more
    {
      assert Edge(f, a, b) in SharedFrames(entries, m, CATEGORIES[i], CATEGORIES[j]);
    }
  }

  lemma {:induction false} Ranks(i: nat)
    requires i < |CATEGORIES|
    ensures Rank(CATEGORIES[i]) == i
  {
    assert CATEGORIES[0].FalsePositives? && CATEGORIES[1].Type1? && CATEGORIES[2].Type2b? && CATEGORIES[3].Type2c?
           && CATEGORIES[4].Type3?;
  }

  /** The loops over the pairs of categories collect the edges that the accounting needs. */
  method CollectEdges(entries: seq<Entry>) returns (edges: seq<Edge>)
    ensures EdgesOf(edges, MembershipsIn(entries))
  {
    edges := [];
    var m := MembershipsIn(entries);
    var i := 0;
    while i < |CATEGORIES|
      invariant 0 <= i <= |CATEGORIES| && JoinedBefore(edges, m, i, 0)
    {
      var j := i + 1;
      while j < |CATEGORIES|
        invariant i < j <= |CATEGORIES| && JoinedBefore(edges, m, i, j)
      {
        JoinPair(edges, entries, i, j);
        edges := edges + SharedFrames(entries, m, CATEGORIES[i], CATEGORIES[j]);
        j := j + 1;
      }
      i := i + 1;
    }
    forall f, a, b | a != b && Membership(f, a) in m && Membership(f, b) in m ensures Joins(edges, f, a, b) {
      assert CATEGORIES[Rank(a)] == a && CATEGORIES[Rank(b)] == b;
    }
  }

  /** The constraint UNIQUE(category, frame_id) of the frames table. */
  ghost predicate UniqueFrames(entries: seq<Entry>) {
    forall i, j :: 0 <= i < j < |entries| && entries[i].key.category == entries[j].key.category ==>
      entries[i].frame != entries[j].frame
  }

  lemma {:induction false} IncreasingFramesAreUnique(entries: seq<Entry>)
    requires FramesIncreaseByCategory(entries)
    ensures UniqueFrames(entries)
  {
    forall i, j | 0 <= i < j < |entries| && entries[i].key.category == entries[j].key.category
      ensures entries[i].frame != entries[j].frame
    {
      StringLessIrreflexive(entries[i].frame);
    }
  }

  lemma {:induction false} LastIsNew(entries: seq<Entry>)
    requires entries != [] && UniqueFrames(entries)
    ensures var n := |entries| - 1;
            Membership(entries[n].frame, entries[n].key.category) !in MembershipsIn(entries[..n])
  {
    var n := |entries| - 1;
    forall e | e in entries[..n]
      ensures Membership(e.frame, e.key.category) != Membership(entries[n].frame, entries[n].key.category)
    {
      var i :| 0 <= i < n && entries[i] == e;
    }
  }

  lemma {:induction false} MembershipsCount(entries: seq<Entry>)
    requires UniqueFrames(entries)
    ensures |MembershipsIn(entries)| == |entries|
  {
    if entries != [] {
      var n := |entries| - 1;
      MembershipsCount(entries[..n]);
      LastIsNew(entries);
      assert entries == entries[..n] + [entries[n]];
      assert MembershipsIn(entries) ==
             MembershipsIn(entries[..n]) + {Membership(entries[n].frame, entries[n].key.category)};
    }
  }

  // The frame of the last group has no entry before it.
  lemma {:induction false} LastFrameIsNew(groups: seq<FrameGroup>)
    requires groups != [] && FramesIncrease(groups)
    ensures groups[|groups| - 1].frame !in Frames(MembershipsIn(AllEntries(groups[..|groups| - 1])))
  {
    var n := |groups| - 1;
    StringLessIrreflexive(groups[n].frame);
    forall e | e in AllEntries(groups[..n]) ensures e.frame != groups[n].frame {
      EntryFrames(groups[..n], e);
      var i :| 0 <= i < n && groups[..n][i].frame == e.frame;
      assert StringLess(groups[i].frame, groups[n].frame);
    }
  }

  /** Every group without a conflict contributes one distinct frame, and no other frame occurs. */
  lemma {:induction false} FramesAreTheEligibleGroups(groups: seq<FrameGroup>)
    requires FramesIncrease(groups) && AllSupported(groups) && forall g :: g in groups ==> GroupOk(g)
    ensures |Frames(MembershipsIn(AllEntries(groups)))| + |Excluded(groups)| == |groups|
  {
    if groups != [] {
      var n := |groups| - 1;
      var g, before := groups[n], AllEntries(groups[..n]);
      assert forall x :: x in groups[..n] ==> x in groups;
      assert forall i :: 0 <= i < n ==> groups[..n][i] == groups[i];
      FramesAreTheEligibleGroups(groups[..n]);
      if !Conflicting(g) {
        assert g in groups;
        LastFrameIsNew(groups);
        SomeEntry(g);
        EntriesAreValid(g, CATEGORIES);
        FramesOfAppended(before, Entries(g, CATEGORIES), g.frame);
      }
    }
  }

  lemma {:induction false} FramesOfAppended(before: seq<Entry>, own: seq<Entry>, frame: string)
    requires own != [] && forall e :: e in own ==> e.frame == frame
    ensures Frames(MembershipsIn(before + own)) == Frames(MembershipsIn(before)) + {frame}
  {
    var all := MembershipsIn(before + own);
    assert own[0] in before + own;
    assert Membership(own[0].frame, own[0].key.category) in all;
    forall f ensures f in Frames(all) <==> f in Frames(MembershipsIn(before)) || f == frame {
      if f in Frames(MembershipsIn(before)) {
        var x :| x in MembershipsIn(before) && x.frame == f;
        assert x in all;
      }
    }
  }

  // A supported group has a row, hence a category, hence an entry.
  lemma {:induction false} SomeEntry(g: FrameGroup)
    requires GroupOk(g) && Supported(g)
    ensures Entries(g, CATEGORIES) != []
  {
    GroupIsConserved(g);
    assert g.rows[0] in g.rows;
  }

  // ----- the audit -----

  /** The rows of the frames table without their positions. */
  function StoredEntries(frames: seq<FrameRow>): (r: seq<Entry>)
    ensures |r| == |frames| && forall i :: 0 <= i < |r| ==> r[i] == frames[i].entry
  {
    seq(|frames|, i requires 0 <= i < |frames| => frames[i].entry)
  }

  /** `GROUP BY category, band` over the frames table. */
  function Observed(entries: seq<Entry>): map<Key, Counts> {
    map k | k in (set e | e in entries :: e.key) :: CountsOf(entries, k)
  }

  /** The stored counts of the bands that are not empty. */
  function Positive(counts: map<Key, Counts>)
      : map<Key, Counts> { map k | k in counts && counts[k].frames > 0 :: counts[k] }

  function FramesOf(rows: seq<Row>): set<string> { set r | r in rows :: r.frame }

  datatype Discrepancy = StoredCounts | DistinctPairs | CatalogRows | SourceRows

  /** What a check of the audit compares, on a frames table and a catalog. */
  ghost predicate Passes(d: Discrepancy, x: Index, rows: seq<Row>) {
    var entries := StoredEntries(x.frames);
    match d
    case StoredCounts => Positive(x.counts) == Observed(entries)
    case DistinctPairs => |FramesOf(rows)| - |x.excluded| == |Frames(MembershipsIn(entries))|
    case CatalogRows => Total(RowsOf(), entries) + Total(GroupRows(), x.excluded) == |rows|
    case SourceRows => Total(SourcesOf(), entries) + Total(GroupSources(), x.excluded) == Total(Multiplicity(), rows)
  }

  // The catalog rows and source rows of the exclusions.
  method SumExclusions(excluded: seq<FrameGroup>) returns (rows: nat, sources: nat)
    ensures rows == Total(GroupRows(), excluded) && sources == Total(GroupSources(), excluded)
  {
    rows, sources := 0, 0;
    for i := 0 to |excluded|
      invariant rows == Total(GroupRows(), excluded[..i]) && sources == Total(GroupSources(), excluded[..i])
    {
      assert excluded[..i + 1] == excluded[..i] + [excluded[i]];
      TotalConcat(GroupRows(), excluded[..i], [excluded[i]]);
      TotalConcat(GroupSources(), excluded[..i], [excluded[i]]);
      rows := rows + |excluded[i].rows|;
      sources := sources + Total(Multiplicity(), excluded[i].rows);
    }
    assert excluded[..|excluded|] == excluded;
  }

  // The two checks on rows.
  method RowDiscrepancies(x: Index, rows: seq<Row>) returns (found: set<Discrepancy>)
    ensures CatalogRows in found <==> !Passes(CatalogRows, x, rows)
    ensures SourceRows in found <==> !Passes(SourceRows, x, rows)
    ensures StoredCounts !in found && DistinctPairs !in found
  {
    var conflictRows, conflictSources := SumExclusions(x.excluded);
    var entries := StoredEntries(x.frames);
    found := {};
    if Total(RowsOf(), entries) + conflictRows != |rows| { found := found + {CatalogRows}; }
    if Total(SourcesOf(), entries) + conflictSources != Total(Multiplicity(), rows) { found := found + {SourceRows}; }
  }

  method AccountFrames(entries: seq<Entry>) returns (a: Accounting)
    requires UniqueFrames(entries)
    ensures a.distinct == |Frames(MembershipsIn(entries))|
  {
    MembershipsCount(entries);
    var edges := CollectEdges(entries);
    a := OverlapAccounting(|entries|, edges, MembershipsIn(entries));
  }

  /** The checks of `population`, run on any index whose frames table satisfies its constraint: exactly
      the checks that fail are reported. */
  method Population(x: Index, rows: seq<Row>) returns (found: set<Discrepancy>)
    requires UniqueFrames(StoredEntries(x.frames))
    ensures forall d :: d in found <==> !Passes(d, x, rows)
  {
    var a := AccountFrames(StoredEntries(x.frames));
    found := RowDiscrepancies(x, rows);
    if Positive(x.counts) != Observed(StoredEntries(x.frames)) { found := found + {StoredCounts}; }
    if |FramesOf(rows)| - |x.excluded| != a.distinct { found := found + {DistinctPairs}; }
    forall d ensures d in found <==> !Passes(d, x, rows) {
      match d
      case StoredCounts =>
      case DistinctPairs =>
      case CatalogRows =>
      case SourceRows =>
    }
  }

  // ----- auditing a built index -----

  lemma {:induction false} NumberedStores(x: Index, entries: seq<Entry>)
    requires Numbered(x.frames, entries)
    ensures StoredEntries(x.frames) == entries
  {
    forall i | 0 <= i < |entries| ensures StoredEntries(x.frames)[i] == entries[i] {
      assert NumberedAt(x.frames, entries, i);
    }
  }

  lemma {:induction false} AllEntriesAreValid(groups: seq<FrameGroup>)
    ensures forall e :: e in AllEntries(groups) ==> ValidKey(e.key)
  {
    if groups != [] {
      AllEntriesAreValid(groups[..|groups| - 1]);
      EntriesAreValid(groups[|groups| - 1], CATEGORIES);
    }
  }

  lemma {:induction false} StoredCountsAreObserved(counts: map<Key, Counts>, entries: seq<Entry>)
    requires CountsExact(counts, entries) && forall e :: e in entries ==> ValidKey(e.key)
    ensures Positive(counts) == Observed(entries)
  {
    forall k ensures k in Positive(counts) <==> k in Observed(entries) {
      if k in Positive(counts) {
        var e := WithKey(entries, k)[0];
        WithKeyMember(entries, k, e);
      }
      if e :| e in entries && e.key == k {
        WithKeyMember(entries, k, e);
      }
    }
  }

  // A catalog has as many distinct frames as groups.
  lemma {:induction false} FramesAreTheGroups(groups: seq<FrameGroup>, rows: seq<Row>)
    requires GroupsOf(groups, rows) && FramesIncrease(groups)
    ensures |FramesOf(rows)| == |groups|
  {
    if groups != [] {
      var n := |groups| - 1;
      var before, last := Flatten(groups[..n]), groups[n];
      DropLastGroup(groups, rows);
      FramesAreTheGroups(groups[..n], before);
      forall r | r in before ensures r.frame != last.frame {
        EveryRowIsGrouped(groups[..n], before, r);
        var g :| g in groups[..n] && r in g.rows;
        var i :| 0 <= i < n && groups[i] == g;
        assert g in groups;
        StringLessIrreflexive(last.frame);
      }
      assert last.rows[0] in last.rows;
      assert FramesOf(rows) == FramesOf(before) + {last.frame};
    }
  }

  /** An index built from a catalog satisfies the constraint of its frames table and passes every check of
      the audit: the stored counts are those of the stored frames; the frames before conflicts minus the
      exclusions are the distinct eligible frames; and stored plus conflicting rows are the available
      rows, for catalog rows and source rows. */
  lemma {:induction false} PopulationHasNoDiscrepancies(x: Index, groups: seq<FrameGroup>, rows: seq<Row>)
    requires GroupsOf(groups, rows) && SortedByFrame(rows) && AllSupported(groups) && Indexes(x, groups)
    ensures UniqueFrames(StoredEntries(x.frames))
    ensures forall d :: Passes(d, x, rows)
  {
    var entries := AllEntries(groups);
    NumberedStores(x, entries);
    SortedGroups(groups, rows);
    EntriesIncrease(groups);
    IncreasingFramesAreUnique(entries);
    AllEntriesAreValid(groups);
    StoredCountsAreObserved(x.counts, entries);
    FramesAreTheGroups(groups, rows);
    FramesAreTheEligibleGroups(groups);
    CatalogRowsAreConserved(groups);
    forall d ensures Passes(d, x, rows) {
      match d
      case StoredCounts =>
      case DistinctPairs =>
      case CatalogRows =>
      case SourceRows =>
    }
  }
}
