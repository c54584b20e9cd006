/** The selection index: `_grouped_rows` of bigMoveBench/selection.py (265-276), `benchmark_category` of
    bigMoveBench/categories.py (22-38) and `build_index` of bigMoveBench/selection_index.py (82-127). */
module SelectionIndex {
  import opened Wrappers
  import opened Ordering
  import Selection

  datatype PairKind = PositivePair | FalsePositivePair

  /** One available catalog row. */
  datatype Row = Row(pairId: nat, frame: string, kind: PairKind, syntactic: int, line: real, token: real,
                     multiplicity: nat)

  datatype Category = FalsePositives | Type1 | Type2b | Type2c | Type3

  // In the order of their names.
  const CATEGORIES: seq<Category> := [FalsePositives, Type1, Type2b, Type2c, Type3]

  /** A Type-3 frame has a strength band, an index into the strata; other frames have none. */
  datatype Key = Key(category: Category, band: Option<nat>)

  datatype FrameGroup = FrameGroup(frame: string, rows: seq<Row>)

  datatype Entry = Entry(key: Key, frame: string, rows: nat, sources: nat)

  datatype FrameRow = FrameRow(position: nat, entry: Entry)

  /** A catalog row that an entry counts. */
  datatype Contributor = Contributor(category: Category, frame: string, pairId: nat)

  datatype Counts = Counts(frames: nat, rows: nat, sources: nat)

  // ----- grouping -----

  predicate SortedByFrame(rows: seq<Row>) {
    forall i, j :: 0 <= i < j < |rows| ==> !StringLess(rows[j].frame, rows[i].frame)
  }

  function Flatten(groups: seq<FrameGroup>): seq<Row> {
    if groups == [] then [] else Flatten(groups[..|groups| - 1]) + groups[|groups| - 1].rows
  }

  predicate GroupOk(g: FrameGroup) { g.rows != [] && forall r :: r in g.rows ==> r.frame == g.frame }

  /** The groups are the rows, cut where the frame changes. */
  predicate GroupsOf(groups: seq<FrameGroup>, rows: seq<Row>) {
    && Flatten(groups) == rows
    && (forall g :: g in groups ==> GroupOk(g))
    && (forall i :: 0 <= i < |groups| - 1 ==> groups[i].frame != groups[i + 1].frame)
  }

  method GroupedRows(rows: seq<Row>) returns (groups: seq<FrameGroup>)
    ensures GroupsOf(groups, rows)
  {
    groups := [];
    var active: Option<string> := None;
    var group: seq<Row> := [];
    ghost var closed: seq<Row> := [];
    for i := 0 to |rows|
      invariant closed + group == rows[..i] && GroupsOf(groups, closed)
      invariant if active.None? then i == 0 && group == [] && groups == []
                else (GroupOk(FrameGroup(active.value, group))
                      && (groups != [] ==> groups[|groups| - 1].frame != active.value))
    {
      var row := rows[i];
      assert rows[..i + 1] == rows[..i] + [row];
      if active.Some? && row.frame != active.value {
        CloseGroup(groups, active.value, group, closed);
        groups := groups + [FrameGroup(active.value, group)];
        closed := closed + group;
        group := [];
      }
      active := Some(row.frame);
      group := group + [row];
    }
    assert rows[..|rows|] == rows;
    if active.Some? {
      CloseGroup(groups, active.value, group, closed);
      groups := groups + [FrameGroup(active.value, group)];
    }
  }

  lemma {:induction false} CloseGroup(groups: seq<FrameGroup>, frame: string, group: seq<Row>, before: seq<Row>)
    requires GroupsOf(groups, before) && GroupOk(FrameGroup(frame, group))
    requires groups != [] ==> groups[|groups| - 1].frame != frame
    ensures GroupsOf(groups + [FrameGroup(frame, group)], before + group)
  {
    assert (groups + [FrameGroup(frame, group)])[..|groups|] == groups;
  }

  ghost predicate FramesIncrease(groups: seq<FrameGroup>) {
    forall i, j :: 0 <= i < j < |groups| ==> StringLess(groups[i].frame, groups[j].frame)
  }

  lemma {:induction false} DropLastGroup(groups: seq<FrameGroup>, rows: seq<Row>)
    requires GroupsOf(groups, rows) && groups != []
    ensures var n := |groups| - 1;
            && rows == Flatten(groups[..n]) + groups[n].rows && GroupsOf(groups[..n], Flatten(groups[..n]))
            && GroupOk(groups[n])
  {
    assert forall g :: g in groups[..|groups| - 1] ==> g in groups;
    assert groups[|groups| - 1] in groups;
  }

  lemma {:induction false} SortedParts(a: seq<Row>, b: seq<Row>)
    requires SortedByFrame(a + b)
    ensures SortedByFrame(a)
    ensures a != [] && b != [] ==> !StringLess(b[0].frame, a[|a| - 1].frame)
  {
    assert forall i :: 0 <= i < |a| ==> (a + b)[i] == a[i];
    if a != [] && b != [] { assert (a + b)[|a|] == b[0] && (a + b)[|a| - 1] == a[|a| - 1]; }
  }

  // The last group starts after the one before it.
  lemma {:induction false} LastGroupIsGreater(groups: seq<FrameGroup>, rows: seq<Row>)
    requires GroupsOf(groups, rows) && SortedByFrame(rows) && |groups| >= 2
    ensures StringLess(groups[|groups| - 2].frame, groups[|groups| - 1].frame)
  {
    var n := |groups| - 1;
    var previous, last := groups[n - 1], groups[n];
    DropLastGroup(groups, rows);
    var before := Flatten(groups[..n]);
    DropLastGroup(groups[..n], before);
    SortedParts(before, last.rows);
    assert last.rows[0] in last.rows && before[|before| - 1] == previous.rows[|previous.rows| - 1];
    assert previous.rows[|previous.rows| - 1] in previous.rows;
    StringLessTotal(previous.frame, last.frame);
  }

  lemma {:induction false} FramesIncreaseAppend(groups: seq<FrameGroup>, last: FrameGroup)
    requires FramesIncrease(groups)
    requires groups != [] ==> StringLess(groups[|groups| - 1].frame, last.frame)
    ensures FramesIncrease(groups + [last])
  {
    var n := |groups|;
    forall i | 0 <= i < n ensures StringLess(groups[i].frame, last.frame) {
      if i < n - 1 { StringLessTransitive(groups[i].frame, groups[n - 1].frame, last.frame); }
    }
  }

  /** On sorted rows every frame has one group, in increasing order of frames. */
  lemma {:induction false} SortedGroups(groups: seq<FrameGroup>, rows: seq<Row>)
    requires GroupsOf(groups, rows) && SortedByFrame(rows)
    ensures FramesIncrease(groups)
  {
    if groups != [] {
      var n := |groups| - 1;
      DropLastGroup(groups, rows);
      SortedParts(Flatten(groups[..n]), groups[n].rows);
      SortedGroups(groups[..n], Flatten(groups[..n]));
      if n > 0 { LastGroupIsGreater(groups, rows); }
      FramesIncreaseAppend(groups[..n], groups[n]);
      assert groups == groups[..n] + [groups[n]];
    }
  }

  /** Every row is in the group of its frame. */
  lemma {:induction false} EveryRowIsGrouped(groups: seq<FrameGroup>, rows: seq<Row>, r: Row)
    requires GroupsOf(groups, rows)
    ensures r in rows <==> exists g :: g in groups && r in g.rows
  {
    if groups != [] {
      var n := |groups| - 1;
      DropLastGroup(groups, rows);
      EveryRowIsGrouped(groups[..n], Flatten(groups[..n]), r);
      assert groups == groups[..n] + [groups[n]];
      assert forall g :: g in groups <==> g in groups[..n] || g == groups[n];
    }
  }

  // ----- categories -----

  /** `benchmark_category`; None is its error on an unsupported syntactic type. */
  function CategoryOf(r: Row): Option<Category> {
    if r.kind.FalsePositivePair? then Some(FalsePositives)
    else if r.syntactic == 1 then Some(Type1)
    else if r.syntactic == 2 then Some(Type2c)
    else if r.syntactic == 3 then Some(if r.line >= 1.0 && r.token >= 1.0 then Type2b else Type3)
    else None
  }

  predicate Conflicting(g: FrameGroup) {
    (exists r :: r in g.rows && r.kind.PositivePair?) && (exists r :: r in g.rows && r.kind.FalsePositivePair?)
  }

  predicate Supported(g: FrameGroup) { forall r :: r in g.rows ==> CategoryOf(r).Some? }

  function InCategory(rows: seq<Row>, c: Category): (r: seq<Row>)
    ensures forall x :: x in r <==> x in rows && CategoryOf(x) == Some(c)
  {
    if rows == [] then [] else
      var n := |rows| - 1;
      assert forall x :: x in rows <==> x in rows[..n] || x == rows[n];
      var before := InCategory(rows[..n], c);
      if CategoryOf(rows[n]) == Some(c) then before + [rows[n]] else before
  }

  // min(min(line, token) for the contributors)
  function Strength(rows: seq<Row>): real
    requires rows != []
  {
    var last := rows[|rows| - 1];
    var own := if last.line < last.token then last.line else last.token;
    if |rows| == 1 then own
    else
      var before := Strength(rows[..|rows| - 1]);
      if before < own then before else own
  }

  function One(): Row -> nat { r => 1 }

  function Multiplicity(): Row -> nat { (r: Row) => r.multiplicity }

  function EntryOf(frame: string, c: Category, contributors: seq<Row>): Entry
    requires contributors != []
  {
    Entry(Key(c, if c.Type3? then Some(Selection.Stratum(Strength(contributors))) else None), frame,
          |contributors|, Total(Multiplicity(), contributors))
  }

  /** The entries of one group: one for each of the given categories that has contributors. */
  function Entries(g: FrameGroup, categories: seq<Category>): seq<Entry> {
    if categories == [] then [] else
      var n := |categories| - 1;
      var contributors := InCategory(g.rows, categories[n]);
      var before := Entries(g, categories[..n]);
      if contributors == [] then before else before + [EntryOf(g.frame, categories[n], contributors)]
  }

  /** All entries, group by group; conflicting groups have none. */
  function AllEntries(groups: seq<FrameGroup>): seq<Entry> {
    if groups == [] then [] else
      var g := groups[|groups| - 1];
      var before := AllEntries(groups[..|groups| - 1]);
      if Conflicting(g) then before else before + Entries(g, CATEGORIES)
  }

  function ContributorsOf(frame: string, c: Category, rows: seq<Row>): (r: seq<Contributor>)
    ensures |r| == |rows| && forall i :: 0 <= i < |r| ==> r[i] == Contributor(c, frame, rows[i].pairId)
  {
    seq(|rows|, i requires 0 <= i < |rows| => Contributor(c, frame, rows[i].pairId))
  }

  /** The contributors of one group, category by category. */
  function Contributors(g: FrameGroup, categories: seq<Category>): seq<Contributor> {
    if categories == [] then [] else
      var n := |categories| - 1;
      Contributors(g, categories[..n]) + ContributorsOf(g.frame, categories[n], InCategory(g.rows, categories[n]))
  }

  function AllContributors(groups: seq<FrameGroup>): seq<Contributor> {
    if groups == [] then [] else
      var g := groups[|groups| - 1];
      var before := AllContributors(groups[..|groups| - 1]);
      if Conflicting(g) then before else before + Contributors(g, CATEGORIES)
  }

  function Excluded(groups: seq<FrameGroup>): seq<FrameGroup> {
    if groups == [] then [] else
      var g := groups[|groups| - 1];
      var before := Excluded(groups[..|groups| - 1]);
      if Conflicting(g) then before + [g] else before
  }

  // ----- dense positions -----

  function WithKey(entries: seq<Entry>, k: Key): seq<Entry> {
    if entries == [] then [] else
      var last := entries[|entries| - 1];
      var before := WithKey(entries[..|entries| - 1], k);
      if last.key == k then before + [last] else before
  }

  function RowsOf(): Entry -> nat { (e: Entry) => e.rows }

  function SourcesOf(): Entry -> nat { (e: Entry) => e.sources }

  /** The stored counts of a key are those of its entries. */
  function CountsOf(entries: seq<Entry>, k: Key): Counts {
    var own := WithKey(entries, k);
    Counts(|own|, Total(RowsOf(), own), Total(SourcesOf(), own))
  }

  /** Each entry is stored at the number of earlier entries with its key. */
  ghost predicate Numbered(frames: seq<FrameRow>, entries: seq<Entry>) {
    |frames| == |entries| && forall i :: 0 <= i < |frames| ==> NumberedAt(frames, entries, i)
  }

  ghost predicate NumberedAt(frames: seq<FrameRow>, entries: seq<Entry>, i: nat)
    requires i < |frames| == |entries|
  {
    frames[i] == FrameRow(|WithKey(entries[..i], entries[i].key)|, entries[i])
  }

  predicate ValidKey(k: Key) {
    if k.category.Type3? then k.band.Some? && k.band.value < |Selection.TYPE3_STRATA| else k.band.None?
  }

  datatype Index = Index(frames: seq<FrameRow>, contributors: seq<Contributor>, excluded: seq<FrameGroup>,
                         counts: map<Key, Counts>)

  datatype IndexError = UnsupportedType

  /** What `build_index` stores for catalog rows grouped like this. */
  ghost predicate Indexes(x: Index, groups: seq<FrameGroup>) {
    && Numbered(x.frames, AllEntries(groups))
    && x.contributors == AllContributors(groups) && x.excluded == Excluded(groups)
    && CountsExact(x.counts, AllEntries(groups))
  }

  ghost predicate CountsExact(counts: map<Key, Counts>, entries: seq<Entry>) {
    && (forall k :: k in counts <==> ValidKey(k))
    && (forall k :: k in counts ==> counts[k] == CountsOf(entries, k))
  }

  lemma {:induction false} CountsStep(entries: seq<Entry>, i: nat, k: Key)
    requires i < |entries|
    ensures CountsOf(entries[..i + 1], k) ==
            var c, e := CountsOf(entries[..i], k), entries[i];
            if e.key == k then Counts(c.frames + 1, c.rows + e.rows, c.sources + e.sources) else c
  {
    assert entries[..i + 1][..i] == entries[..i];
    if entries[i].key == k {
      TotalConcat(RowsOf(), WithKey(entries[..i], k), [entries[i]]);
      TotalConcat(SourcesOf(), WithKey(entries[..i], k), [entries[i]]);
      assert Total(RowsOf(), [entries[i]]) == entries[i].rows && Total(SourcesOf(), [entries[i]]) == entries[i].sources;
    }
  }

  lemma {:induction false} EntriesAreValid(g: FrameGroup, categories: seq<Category>)
    ensures forall e :: e in Entries(g, categories) ==> ValidKey(e.key) && e.frame == g.frame
  {
    if categories != [] {
      var n := |categories| - 1;
      EntriesAreValid(g, categories[..n]);
      var contributors := InCategory(g.rows, categories[n]);
      if contributors != [] { Selection.StrataPartition(Strength(contributors)); }
    }
  }

  function Counted(counts: map<Key, Counts>, e: Entry): map<Key, Counts>
    requires e.key in counts
  {
    var c := counts[e.key];
    counts[e.key := Counts(c.frames + 1, c.rows + e.rows, c.sources + e.sources)]
  }

  lemma {:induction false} CountedIsExact(counts: map<Key, Counts>, entries: seq<Entry>, i: nat)
    requires i < |entries| && CountsExact(counts, entries[..i]) && entries[i].key in counts
    ensures CountsExact(Counted(counts, entries[i]), entries[..i + 1])
  {
    forall k | k in counts ensures Counted(counts, entries[i])[k] == CountsOf(entries[..i + 1], k) {
      CountsStep(entries, i, k);
    }
  }

  function Inserted(x: Index, e: Entry): Index
    requires e.key in x.counts
  {
    x.(frames := x.frames + [FrameRow(x.counts[e.key].frames, e)], counts := Counted(x.counts, e))
  }

  // The tables after the first i entries.
  ghost predicate Holds(x: Index, entries: seq<Entry>, i: nat) {
    i <= |entries| && Numbered(x.frames, entries[..i]) && CountsExact(x.counts, entries[..i])
  }

  lemma {:induction false} InsertedHolds(x: Index, entries: seq<Entry>, i: nat)
    requires i < |entries| && Holds(x, entries, i) && ValidKey(entries[i].key)
    ensures entries[i].key in x.counts && Holds(Inserted(x, entries[i]), entries, i + 1)
  {
    CountedIsExact(x.counts, entries, i);
    NumberNext(x.frames, entries, i);
    assert x.counts[entries[i].key] == CountsOf(entries[..i], entries[i].key);
  }

  lemma {:induction false} HoldsBefore(x: Index, before: seq<Entry>, entries: seq<Entry>)
    requires Holds(x, before, |before|)
    ensures Holds(x, before + entries, |before|)
  {
    assert (before + entries)[..|before|] == before[..|before|];
  }

  // Inserts entry i.
  method InsertEntry(x: Index, ghost entries: seq<Entry>, ghost i: nat, e: Entry) returns (r: Index)
    requires Holds(x, entries, i) && i < |entries| && entries[i] == e && ValidKey(e.key)
    ensures Holds(r, entries, i + 1) && r.excluded == x.excluded && r.contributors == x.contributors
  {
    InsertedHolds(x, entries, i);
    r := Inserted(x, e);
  }

  // Inserts the entries of one group, the last ones of `all`.
  method InsertEntries(x: Index, ghost all: seq<Entry>, entries: seq<Entry>) returns (r: Index)
    requires |entries| <= |all| && Holds(x, all, |all| - |entries|)
    requires forall i :: 0 <= i < |entries| ==> all[|all| - |entries| + i] == entries[i] && ValidKey(entries[i].key)
    ensures Holds(r, all, |all|) && r.excluded == x.excluded && r.contributors == x.contributors
  {
    r := x;
    ghost var next := |all| - |entries|;
    for i := 0 to |entries|
      invariant next == |all| - |entries| + i
      invariant r.excluded == x.excluded && r.contributors == x.contributors && Holds(r, all, next)
    {
      r := InsertEntry(r, all, next, entries[i]);
      next := next + 1;
    }
  }

  lemma {:induction false} NumberNext(frames: seq<FrameRow>, entries: seq<Entry>, i: nat)
    requires i < |entries| && Numbered(frames, entries[..i])
    ensures Numbered(frames + [FrameRow(|WithKey(entries[..i], entries[i].key)|, entries[i])], entries[..i + 1])
  {
    var next := frames + [FrameRow(|WithKey(entries[..i], entries[i].key)|, entries[i])];
    var done := entries[..i + 1];
    forall j | 0 <= j <= i ensures NumberedAt(next, done, j) {
      assert done[..j] == entries[..j];
      if j < i {
        assert NumberedAt(frames, entries[..i], j);
        assert entries[..i][..j] == entries[..j];
      }
    }
  }

  // The tables after the first i groups.
  ghost predicate IndexesFirst(x: Index, groups: seq<FrameGroup>, i: nat) {
    && i <= |groups| && Indexes(x, groups[..i])
    && forall g :: g in groups[..i] && !Conflicting(g) ==> Supported(g)
  }

  // Group i with its frames and contributors.
  method IndexGroup(x: Index, groups: seq<FrameGroup>, i: nat) returns (r: Index)
    requires i < |groups| && IndexesFirst(x, groups, i) && !Conflicting(groups[i]) && Supported(groups[i])
    ensures IndexesFirst(r, groups, i + 1)
  {
    var g := groups[i];
    assert groups[..i + 1] == groups[..i] + [g] && groups[..i + 1][..i] == groups[..i];
    EntriesAreValid(g, CATEGORIES);
    ghost var before := AllEntries(groups[..i]);
    assert before[..|before|] == before;
    HoldsBefore(x, before, Entries(g, CATEGORIES));
    r := InsertEntries(x, before + Entries(g, CATEGORIES), Entries(g, CATEGORIES));
    r := r.(contributors := r.contributors + Contributors(g, CATEGORIES));
    ghost var after := AllEntries(groups[..i + 1]);
    assert after == before + Entries(g, CATEGORIES) && after[..|after|] == after;
  }

  // Group i with a label conflict.
  method ExcludeGroup(x: Index, groups: seq<FrameGroup>, i: nat) returns (r: Index)
    requires i < |groups| && IndexesFirst(x, groups, i) && Conflicting(groups[i])
    ensures IndexesFirst(r, groups, i + 1)
  {
    assert groups[..i + 1] == groups[..i] + [groups[i]] && groups[..i + 1][..i] == groups[..i];
    r := x.(excluded := x.excluded + [groups[i]]);
    assert AllEntries(groups[..i + 1]) == AllEntries(groups[..i]);
  }

  /** `build_index` over the grouped rows.  It fails exactly when a group without a label conflict holds
      a positive row of an unsupported syntactic type. */
  method BuildIndex(groups: seq<FrameGroup>) returns (r: Result<Index, IndexError>)
    ensures r.Ok? <==> forall g :: g in groups && !Conflicting(g) ==> Supported(g)
    ensures r.Ok? ==> Indexes(r.value, groups)
  {
    var x := Index([], [], [], InitialCounts());
    for i := 0 to |groups|
      invariant IndexesFirst(x, groups, i)
    {
      if Conflicting(groups[i]) {
        x := ExcludeGroup(x, groups, i);
      } else if !Supported(groups[i]) {
        assert groups[i] in groups;
        return Err(UnsupportedType);
      } else {
        x := IndexGroup(x, groups, i);
      }
    }
    assert groups[..|groups|] == groups;
    return Ok(x);
  }

  function InitialCounts(): (r: map<Key, Counts>)
    ensures forall k :: k in r <==> ValidKey(k)
    ensures forall k :: k in r ==> r[k] == Counts(0, 0, 0)
  {
    map[Key(FalsePositives, None) := Counts(0, 0, 0), Key(Type1, None) := Counts(0, 0, 0),
        Key(Type2b, None) := Counts(0, 0, 0), Key(Type2c, None) := Counts(0, 0, 0)]
    + map b: nat | 0 <= b < |Selection.TYPE3_STRATA| :: Key(Type3, Some(b)) := Counts(0, 0, 0)
  }
}
