/** What a built selection index guarantees: dense positions in frame order, one band per category and
    frame, and conservation of the catalog rows; and the draws of `sample_allocations`
    (bigMoveBench/selection_index.py 186-251) that rely on it. */
module IndexProperties {
  import opened Wrappers
  import opened Ordering
  import opened SelectionIndex

  // ----- positions -----

  lemma {:induction false} WithKeyMember(entries: seq<Entry>, k: Key, e: Entry)
    ensures e in WithKey(entries, k) <==> e in entries && e.key == k
  {
    if entries != [] {
      var n := |entries| - 1;
      WithKeyMember(entries[..n], k, e);
      assert forall x :: x in entries <==> x in entries[..n] || x == entries[n];
    }
  }

  // A row of the table holds the entry of its key at its position.
  lemma {:induction false} RowAtPosition(entries: seq<Entry>, i: nat)
    requires i < |entries|
    ensures var k := entries[i].key;
            && |WithKey(entries[..i], k)| < |WithKey(entries, k)|
            && WithKey(entries, k)[|WithKey(entries[..i], k)|] == entries[i]
  {
    var n := |entries| - 1;
    if i < n {
      assert entries[..n][..i] == entries[..i];
      RowAtPosition(entries[..n], i);
    }
  }

  lemma {:induction false} PositionIsTaken(entries: seq<Entry>, k: Key, p: nat) returns (i: nat)
    requires p < |WithKey(entries, k)|
    ensures i < |entries| && entries[i] == WithKey(entries, k)[p] && entries[i].key == k
    ensures |WithKey(entries[..i], k)| == p
  {
    var n := |entries| - 1;
    if p < |WithKey(entries[..n], k)| {
      i := PositionIsTaken(entries[..n], k, p);
      assert entries[..n][..i] == entries[..i];
    } else {
      i := n;
    }
  }

  // The position an index gives to the p-th frame of a key.
  ghost predicate StoredAt(frames: seq<FrameRow>, k: Key, p: nat, i: nat) {
    i < |frames| && frames[i].entry.key == k && frames[i].position == p
  }

  /** The positions of every category and band are exactly 0, 1, ..., count - 1, each used once. */
  lemma {:induction false} PositionsAreDense(x: Index, groups: seq<FrameGroup>, k: Key, p: nat)
    requires Indexes(x, groups) && ValidKey(k)
    ensures p < x.counts[k].frames <==> exists i: nat :: StoredAt(x.frames, k, p, i)
    ensures forall i: nat, j: nat :: StoredAt(x.frames, k, p, i) && StoredAt(x.frames, k, p, j) ==> i == j
  {
    var entries := AllEntries(groups);
    if p < x.counts[k].frames {
      var i := PositionIsTaken(entries, k, p);
      assert NumberedAt(x.frames, entries, i);
      assert StoredAt(x.frames, k, p, i);
    }
    forall i: nat, j: nat | StoredAt(x.frames, k, p, i) && StoredAt(x.frames, k, p, j)
      ensures i == j && p < x.counts[k].frames
    {
      assert NumberedAt(x.frames, entries, i) && NumberedAt(x.frames, entries, j);
      RowAtPosition(entries, i);
      if i < j { PositionsGrow(entries, i, j); }
      if j < i { PositionsGrow(entries, j, i); }
    }
  }

  lemma {:induction false} PositionsGrow(entries: seq<Entry>, i: nat, j: nat)
    requires i < j < |entries| && entries[i].key == entries[j].key
    ensures |WithKey(entries[..i], entries[i].key)| < |WithKey(entries[..j], entries[j].key)|
  {
    RowAtPosition(entries[..j], i);
    assert entries[..j][..i] == entries[..i];
  }

  // ----- frames -----

  /** Within a category the frames increase, so each frame has at most one row, in one band. */
  ghost predicate FramesIncreaseByCategory(entries: seq<Entry>) {
    forall i, j :: 0 <= i < j < |entries| && entries[i].key.category == entries[j].key.category ==>
      StringLess(entries[i].frame, entries[j].frame)
  }

  lemma {:induction false} EntriesHaveTheirCategories(g: FrameGroup, categories: seq<Category>)
    requires Distinct(categories)
    ensures forall i :: 0 <= i < |Entries(g, categories)| ==> Entries(g, categories)[i].key.category in categories
    ensures forall i, j :: 0 <= i < j < |Entries(g, categories)| ==>
              Entries(g, categories)[i].key.category != Entries(g, categories)[j].key.category
  {
    if categories != [] {
      var n := |categories| - 1;
      EntriesHaveTheirCategories(g, categories[..n]);
      assert forall c :: c in categories <==> c in categories[..n] || c == categories[n];
      assert forall k :: 0 <= k < n ==> categories[..n][k] == categories[k];
      assert categories[n] !in categories[..n];
    }
  }

  lemma {:induction false} EntryFrames(groups: seq<FrameGroup>, e: Entry)
    ensures e in AllEntries(groups) ==>
            exists i :: 0 <= i < |groups| && groups[i].frame == e.frame && !Conflicting(groups[i])
  {
    if groups != [] {
      var n := |groups| - 1;
      EntryFrames(groups[..n], e);
      EntriesAreValid(groups[n], CATEGORIES);
      if e in AllEntries(groups[..n]) {
        var i :| 0 <= i < n && groups[..n][i].frame == e.frame && !Conflicting(groups[..n][i]);
        assert groups[i] == groups[..n][i];
      }
    }
  }

  lemma {:induction false} EntriesIncrease(groups: seq<FrameGroup>)
    requires FramesIncrease(groups)
    ensures FramesIncreaseByCategory(AllEntries(groups))
  {
    if groups != [] {
      var n := |groups| - 1;
      EntriesIncrease(groups[..n]);
      var before, last := AllEntries(groups[..n]), groups[n];
      EntriesAreValid(last, CATEGORIES);
      EntriesHaveTheirCategories(last, CATEGORIES);
      forall i | 0 <= i < |before| ensures StringLess(before[i].frame, last.frame) {
        assert before[i] in before;
        EntryFrames(groups[..n], before[i]);
        var j :| 0 <= j < n && groups[..n][j].frame == before[i].frame;
        assert StringLess(groups[j].frame, groups[n].frame);
      }
      if !Conflicting(last) { Appended(before, Entries(last, CATEGORIES), last.frame); }
    }
  }

  lemma {:induction false} Appended(before: seq<Entry>, own: seq<Entry>, frame: string)
    requires FramesIncreaseByCategory(before)
    requires forall i :: 0 <= i < |before| ==> StringLess(before[i].frame, frame)
    requires forall e :: e in own ==> e.frame == frame
    requires forall i, j :: 0 <= i < j < |own| ==> own[i].key.category != own[j].key.category
    ensures FramesIncreaseByCategory(before + own)
  {
    var all := before + own;
    forall i, j | |before| <= i < j < |all| ensures all[i].key.category != all[j].key.category {
      assert all[i] == own[i - |before|] && all[j] == own[j - |before|];
    }
    forall i, j | 0 <= i < j < |all| && all[i].key.category == all[j].key.category
      ensures StringLess(all[i].frame, all[j].frame)
    {
      if j >= |before| {
        assert all[j] in own;
      }
    }
  }

  lemma {:induction false} StringLessAsymmetric(a: string, b: string)
    ensures StringLess(a, b) ==> !StringLess(b, a) && a != b
  {
    StringLessIrreflexive(a);
    if StringLess(a, b) && a != "" && a[0] == b[0] { StringLessAsymmetric(a[1..], b[1..]); }
  }

  /** The positions of a category and band follow the order of the frames, and a frame has at most one
      row in each category, hence one band. */
  lemma {:induction false} PositionsFollowFrames(x: Index, groups: seq<FrameGroup>, i: nat, j: nat)
    requires Indexes(x, groups) && FramesIncrease(groups) && i < |x.frames| && j < |x.frames| && i != j
    ensures var a, b := x.frames[i], x.frames[j];
            && (a.entry.key == b.entry.key ==> (a.position < b.position <==> StringLess(a.entry.frame, b.entry.frame)))
            && (a.entry.key.category == b.entry.key.category ==> a.entry.frame != b.entry.frame)
  {
    var entries := AllEntries(groups);
    EntriesIncrease(groups);
    assert NumberedAt(x.frames, entries, i) && NumberedAt(x.frames, entries, j);
    StringLessIrreflexive(entries[i].frame);
    if entries[i].key.category == entries[j].key.category {
      var lo, hi := if i < j then i else j, if i < j then j else i;
      assert StringLess(entries[lo].frame, entries[hi].frame);
      StringLessAsymmetric(entries[lo].frame, entries[hi].frame);
      if entries[i].key == entries[j].key { PositionsGrow(entries, lo, hi); }
    }
  }

  // ----- conservation -----

  // The weight of the rows of the given categories.
  function Weigh(w: Row -> nat, rows: seq<Row>, categories: seq<Category>): nat {
    if categories == [] then 0 else
      var n := |categories| - 1;
      Weigh(w, rows, categories[..n]) + Total(w, InCategory(rows, categories[n]))
  }

  lemma {:induction false} WeighLast(w: Row -> nat, rows: seq<Row>, categories: seq<Category>)
    requires rows != [] && Distinct(categories) && CategoryOf(rows[|rows| - 1]).Some?
    ensures var r := rows[|rows| - 1];
            Weigh(w, rows, categories) == Weigh(w, rows[..|rows| - 1], categories)
                                          + if CategoryOf(r).value in categories then w(r) else 0
  {
    if categories != [] {
      var n, r := |categories| - 1, rows[|rows| - 1];
      WeighLast(w, rows, categories[..n]);
      assert forall c :: c in categories <==> c in categories[..n] || c == categories[n];
      assert forall k :: 0 <= k < n ==> categories[..n][k] == categories[k];
      assert categories[n] !in categories[..n];
      if CategoryOf(r) == Some(categories[n]) {
        TotalConcat(w, InCategory(rows[..|rows| - 1], categories[n]), [r]);
        assert Total(w, [r]) == w(r);
      }
    }
  }

  lemma {:induction false} EveryRowHasOneCategory(w: Row -> nat, rows: seq<Row>)
    requires forall r :: r in rows ==> CategoryOf(r).Some?
    ensures Weigh(w, rows, CATEGORIES) == Total(w, rows)
  {
    if rows == [] {
      NoWeight(w, CATEGORIES);
    } else {
      var n := |rows| - 1;
      assert rows[n] in rows && forall r :: r in rows[..n] ==> r in rows;
      EveryRowHasOneCategory(w, rows[..n]);
      CategoriesAreComplete(CategoryOf(rows[n]).value);
      WeighLast(w, rows, CATEGORIES);
      TotalConcat(w, rows[..n], [rows[n]]);
      assert rows == rows[..n] + [rows[n]] && Total(w, [rows[n]]) == w(rows[n]);
    }
  }

  lemma {:induction false} NoWeight(w: Row -> nat, categories: seq<Category>)
    ensures Weigh(w, [], categories) == 0
  {
    if categories != [] { NoWeight(w, categories[..|categories| - 1]); }
  }

  lemma {:induction false} CategoriesAreComplete(c: Category)
    ensures c in CATEGORIES
  {
    assert CATEGORIES[0].FalsePositives? && CATEGORIES[1].Type1? && CATEGORIES[2].Type2b? && CATEGORIES[3].Type2c?
           && CATEGORIES[4].Type3?;
  }

  lemma {:induction false} EntriesWeigh(g: FrameGroup, categories: seq<Category>)
    ensures Total(RowsOf(), Entries(g, categories)) == Weigh(One(), g.rows, categories)
    ensures Total(SourcesOf(), Entries(g, categories)) == Weigh(Multiplicity(), g.rows, categories)
  {
    if categories != [] {
      var n := |categories| - 1;
      EntriesWeigh(g, categories[..n]);
      var contributors := InCategory(g.rows, categories[n]);
      TotalOfOnes(One(), contributors);
      if contributors != [] {
        var e := EntryOf(g.frame, categories[n], contributors);
        TotalConcat(RowsOf(), Entries(g, categories[..n]), [e]);
        TotalConcat(SourcesOf(), Entries(g, categories[..n]), [e]);
        assert Total(RowsOf(), [e]) == e.rows && Total(SourcesOf(), [e]) == e.sources;
      }
    }
  }

  function GroupRows(): FrameGroup -> nat { (g: FrameGroup) => |g.rows| }

  function GroupSources(): FrameGroup -> nat { (g: FrameGroup) => Total(Multiplicity(), g.rows) }

  ghost predicate AllSupported(groups: seq<FrameGroup>) {
    forall i :: 0 <= i < |groups| && !Conflicting(groups[i]) ==> Supported(groups[i])
  }

  lemma {:induction false} GroupIsConserved(g: FrameGroup)
    requires Supported(g)
    ensures Total(RowsOf(), Entries(g, CATEGORIES)) == |g.rows|
    ensures Total(SourcesOf(), Entries(g, CATEGORIES)) == Total(Multiplicity(), g.rows)
  {
    EntriesWeigh(g, CATEGORIES);
    EveryRowHasOneCategory(One(), g.rows);
    EveryRowHasOneCategory(Multiplicity(), g.rows);
    TotalOfOnes(One(), g.rows);
  }

  /** Conservation: the catalog rows of the indexed frames and of the excluded groups are together the
      available catalog rows, and their source rows the available source rows. */
  lemma {:induction false} CatalogRowsAreConserved(groups: seq<FrameGroup>)
    requires AllSupported(groups)
    ensures Total(RowsOf(), AllEntries(groups)) + Total(GroupRows(), Excluded(groups)) == |Flatten(groups)|
    ensures Total(SourcesOf(), AllEntries(groups)) + Total(GroupSources(), Excluded(groups))
            == Total(Multiplicity(), Flatten(groups))
  {
    if groups != [] {
      var n := |groups| - 1;
      var g := groups[n];
      assert forall i :: 0 <= i < n ==> groups[..n][i] == groups[i];
      CatalogRowsAreConserved(groups[..n]);
      TotalConcat(Multiplicity(), Flatten(groups[..n]), g.rows);
      if Conflicting(g) {
        TotalConcat(GroupRows(), Excluded(groups[..n]), [g]);
        TotalConcat(GroupSources(), Excluded(groups[..n]), [g]);
        assert Total(GroupRows(), [g]) == |g.rows| && Total(GroupSources(), [g]) == Total(Multiplicity(), g.rows);
      } else {
        GroupIsConserved(g);
        TotalConcat(RowsOf(), AllEntries(groups[..n]), Entries(g, CATEGORIES));
        TotalConcat(SourcesOf(), AllEntries(groups[..n]), Entries(g, CATEGORIES));
      }
    }
  }

  // ----- contributors -----

  lemma {:induction false} GroupContributors(g: FrameGroup, categories: seq<Category>, c: Contributor)
    ensures c in Contributors(g, categories) <==>
            c.category in categories && c.frame == g.frame
            && exists r :: r in g.rows && CategoryOf(r) == Some(c.category) && r.pairId == c.pairId
  {
    if categories != [] {
      var n := |categories| - 1;
      GroupContributors(g, categories[..n], c);
      assert forall d :: d in categories <==> d in categories[..n] || d == categories[n];
      var rows := InCategory(g.rows, categories[n]);
      var own := ContributorsOf(g.frame, categories[n], rows);
      assert c in own <==>
             c.category == categories[n] && c.frame == g.frame && exists r :: r in rows && r.pairId == c.pairId by {
        if c in own {
          var i :| 0 <= i < |own| && own[i] == c;
          assert rows[i] in rows;
        }
        if r :| c.category == categories[n] && c.frame == g.frame && r in rows && r.pairId == c.pairId {
          var i :| 0 <= i < |rows| && rows[i] == r;
          assert own[i] == c;
        }
      }
    }
  }

  /** The contributors are exactly the rows of the groups without a conflict, each under its category. */
  lemma {:induction false} ContributorsAreTheRows(groups: seq<FrameGroup>, c: Contributor)
    ensures c in AllContributors(groups) <==>
            exists g, r :: g in groups && !Conflicting(g) && r in g.rows
                           && c.frame == g.frame && CategoryOf(r) == Some(c.category) && r.pairId == c.pairId
  {
    if groups != [] {
      var n := |groups| - 1;
      ContributorsAreTheRows(groups[..n], c);
      assert forall g :: g in groups <==> g in groups[..n] || g == groups[n];
      GroupContributors(groups[n], CATEGORIES, c);
      CategoriesAreComplete(c.category);
    }
  }

  lemma {:induction false} GroupContributorsCount(g: FrameGroup, categories: seq<Category>)
    ensures |Contributors(g, categories)| == Total(RowsOf(), Entries(g, categories))
  {
    if categories != [] {
      var n := |categories| - 1;
      GroupContributorsCount(g, categories[..n]);
      var rows := InCategory(g.rows, categories[n]);
      if rows != [] {
        var e := EntryOf(g.frame, categories[n], rows);
        TotalConcat(RowsOf(), Entries(g, categories[..n]), [e]);
        assert Total(RowsOf(), [e]) == e.rows;
      }
    }
  }

  /** The counted catalog rows are the stored contributors. */
  lemma {:induction false} ContributorsAreCounted(groups: seq<FrameGroup>)
    ensures |AllContributors(groups)| == Total(RowsOf(), AllEntries(groups))
  {
    if groups != [] {
      var n := |groups| - 1;
      ContributorsAreCounted(groups[..n]);
      if !Conflicting(groups[n]) {
        GroupContributorsCount(groups[n], CATEGORIES);
        TotalConcat(RowsOf(), AllEntries(groups[..n]), Entries(groups[n], CATEGORIES));
      }
    }
  }

  // ----- drawing -----

  ghost predicate Resolves(x: Index, k: Key, positions: seq<nat>, ids: seq<string>) {
    |ids| == |positions| && forall q :: 0 <= q < |positions| ==>
      exists i: nat :: StoredAt(x.frames, k, positions[q], i) && x.frames[i].entry.frame == ids[q]
  }

  /** Any draw of distinct positions below the stored count resolves, to distinct frames: the errors
      "missing dense position" and "duplicate selected content identity" cannot occur. */
  lemma {:induction false} DrawsResolve(x: Index, groups: seq<FrameGroup>, k: Key,
                                        positions: seq<nat>) returns (ids: seq<string>)
    requires Indexes(x, groups) && FramesIncrease(groups) && ValidKey(k)
    requires Distinct(positions) && forall p :: p in positions ==> p < x.counts[k].frames
    ensures Resolves(x, k, positions, ids) && Distinct(ids)
  {
    ids := [];
    for q := 0 to |positions|
      invariant Resolves(x, k, positions[..q], ids) && Distinct(ids)
    {
      assert positions[q] in positions;
      PositionsAreDense(x, groups, k, positions[q]);
      var i: nat :| StoredAt(x.frames, k, positions[q], i);
      forall p | 0 <= p < q ensures ids[p] != x.frames[i].entry.frame {
        var j: nat :| StoredAt(x.frames, k, positions[..q][p], j) && x.frames[j].entry.frame == ids[p];
        assert positions[p] != positions[q];
        PositionsFollowFrames(x, groups, i, j);
      }
      ids := ids + [x.frames[i].entry.frame];
    }
    assert positions[..|positions|] == positions;
  }

  // ----- what the categories and bands mean -----

  /** The row is of this category: false-positive pairs by their kind, positive pairs by their syntactic type,
      where a pair of type 3 is 2b when both similarities are complete. */
  predicate Belongs(r: Row, c: Category) {
    match c
    case FalsePositives => r.kind.FalsePositivePair?
    case Type1 => r.kind.PositivePair? && r.syntactic == 1
    case Type2c => r.kind.PositivePair? && r.syntactic == 2
    case Type2b => r.kind.PositivePair? && r.syntactic == 3 && r.line >= 1.0 && r.token >= 1.0
    case Type3 => r.kind.PositivePair? && r.syntactic == 3 && (r.line < 1.0 || r.token < 1.0)
  }

  /** The similarity is the least one of the rows, on lines or tokens. */
  ghost predicate IsWeakest(rows: seq<Row>, similarity: real) {
    && (exists r :: r in rows && (r.line == similarity || r.token == similarity))
    && forall r :: r in rows ==> r.line >= similarity && r.token >= similarity
  }

  lemma {:induction false} StrengthIsWeakest(rows: seq<Row>)
    requires rows != []
    ensures IsWeakest(rows, Strength(rows))
  {
    var n := |rows| - 1;
    assert forall r :: r in rows <==> r in rows[..n] || r == rows[n];
    if n > 0 { StrengthIsWeakest(rows[..n]); }
  }

  /** The entry is that of the group's rows of one category: it counts them, and its band is that of their
      weakest similarity for Type 3. */
  ghost predicate IsEntryOf(g: FrameGroup, rows: seq<Row>, e: Entry) {
    && (forall r :: r in rows <==> r in g.rows && Belongs(r, e.key.category))
    && rows != [] && e.frame == g.frame && e.rows == |rows|
    && if e.key.category.Type3?
       then exists s :: IsWeakest(rows, s) && e.key.band == Some(Selection.Stratum(s))
       else e.key.band == None
  }

  lemma {:induction false} CategoryIsOwn(r: Row, c: Category)
    ensures CategoryOf(r) == Some(c) <==> Belongs(r, c)
  {
  }

  /** A group is supported exactly when its positive pairs are of types 1 to 3. */
  lemma {:induction false} SupportedIff(g: FrameGroup)
    ensures Supported(g) <==> forall r :: r in g.rows && r.kind.PositivePair? ==> 1 <= r.syntactic <= 3
  {
  }

  lemma {:induction false} EntriesAreOwn(g: FrameGroup, categories: seq<Category>, e: Entry)
    requires e in Entries(g, categories)
    ensures IsEntryOf(g, InCategory(g.rows, e.key.category), e)
  {
    var n := |categories| - 1;
    var own := InCategory(g.rows, categories[n]);
    if e in Entries(g, categories[..n]) {
      EntriesAreOwn(g, categories[..n], e);
    } else {
      forall r ensures CategoryOf(r) == Some(categories[n]) <==> Belongs(r, categories[n]) {
        CategoryIsOwn(r, categories[n]);
      }
      StrengthIsWeakest(own);
    }
  }

  /** Every stored frame is that of a group whose pairs are all positive or all false positives, and counts
      and bands its rows of the category. */
  lemma {:induction false} StoredFrame(x: Index, groups: seq<FrameGroup>, f: FrameRow)
      returns (g: FrameGroup, rows: seq<Row>)
    requires Indexes(x, groups) && f in x.frames
    ensures g in groups && IsEntryOf(g, rows, f.entry)
    ensures (forall r :: r in g.rows ==> r.kind.PositivePair?) || forall r :: r in g.rows ==> r.kind.FalsePositivePair?
  {
    var i :| 0 <= i < |x.frames| && x.frames[i] == f;
    assert NumberedAt(x.frames, AllEntries(groups), i);
    g := EntryGroup(groups, f.entry);
    rows := InCategory(g.rows, f.entry.key.category);
    EntriesAreOwn(g, CATEGORIES, f.entry);
  }

  lemma {:induction false} EntryGroup(groups: seq<FrameGroup>, e: Entry) returns (g: FrameGroup)
    requires e in AllEntries(groups)
    ensures g in groups && !Conflicting(g) && e in Entries(g, CATEGORIES)
  {
    var n := |groups| - 1;
    if e in AllEntries(groups[..n]) { g := EntryGroup(groups[..n], e); } else { g := groups[n]; }
  }
}
