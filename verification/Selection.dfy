/** Deterministic stratified selection of Type-3 frames (bigMoveBench/selection.py). */
module Selection {
  import opened Wrappers
  import opened Ordering
  import opened Allocation

  /** One row of the frame inventory. */
  datatype Frame = Frame(id: string, rowCount: nat, multiplicity: nat, similarity: real)

  /** The tuple (-rank, frame_id, row_count, multiplicity) kept in a heap. */
  datatype HeapEntry = HeapEntry(rank: nat, id: string, rowCount: nat, multiplicity: nat)

  datatype Band = Band(name: string, lower: Option<real>, upper: Option<real>)

  /** What is reported of a band, next to its constant bounds. */
  datatype BandReport = BandReport(
    eligibleFrames: nat, eligibleRows: nat, eligibleSources: nat, quota: nat,
    selectedFrames: nat, selectedRows: nat, selectedSources: nat)

  datatype Chosen = Chosen(ids: set<string>, allocation: seq<nat>, heaps: seq<seq<HeapEntry>>, reports: seq<BandReport>)

  datatype SelectionError = Allocation(error: AllocationError) | EmptyStratum

  const TYPE3_STRATA: seq<Band> := [
    Band("very_strong", Some(0.90), None),
    Band("strong", Some(0.70), Some(0.90)),
    Band("moderate", Some(0.50), Some(0.70)),
    Band("weak", None, Some(0.50))]

  // ----- strength bands -----

  predicate Covers(band: Band, similarity: real) {
    && (band.lower == None || similarity >= band.lower.value)
    && (band.upper == None || similarity < band.upper.value)
  }

  /** `type3_stratum`: the first declared band that covers the similarity. */
  function Stratum(similarity: real, from: nat := 0): (r: nat)
    requires from <= |TYPE3_STRATA|
    ensures r <= |TYPE3_STRATA|
    ensures r < |TYPE3_STRATA| ==> Covers(TYPE3_STRATA[r], similarity)
    ensures forall i :: from <= i < r ==> !Covers(TYPE3_STRATA[i], similarity)
    decreases |TYPE3_STRATA| - from
  {
    if from == |TYPE3_STRATA| || Covers(TYPE3_STRATA[from], similarity) then from
    else Stratum(similarity, from + 1)
  }

  /** The bands partition the line: exactly one covers any similarity, so the "unclassified"
      assertion of the source never fires and the declared order does not matter. */
  lemma {:induction false} StrataPartition(similarity: real)
    ensures Stratum(similarity) == if similarity >= 0.90 then 0 else if similarity >= 0.70 then 1
                                   else if similarity >= 0.50 then 2 else 3
    ensures |TYPE3_STRATA| == 4
    ensures forall i :: 0 <= i < |TYPE3_STRATA| ==> (Covers(TYPE3_STRATA[i], similarity) <==> i == Stratum(similarity))
  {
    assert Covers(TYPE3_STRATA[0], similarity) || Covers(TYPE3_STRATA[1], similarity)
        || Covers(TYPE3_STRATA[2], similarity) || Covers(TYPE3_STRATA[3], similarity);
  }

  // ----- the heap order -----

  /** c is the greater heap tuple, hence the better candidate. */
  predicate Better(c: HeapEntry, d: HeapEntry) {
    || c.rank < d.rank
    || (c.rank == d.rank &&
        (|| StringLess(d.id, c.id)
         || (c.id == d.id &&
             (|| c.rowCount > d.rowCount
              || (c.rowCount == d.rowCount && c.multiplicity > d.multiplicity)))))
  }

  lemma {:induction false} BetterIsTotalOrder()
    ensures StrictOrder(Better)
    ensures forall c, d :: c == d || Better(c, d) || Better(d, c)
  {
    StringLessIsTotalOrder();
  }

  // ----- the specification: sort the band, take its quota -----

  function CandidateOf(f: Frame, rank: string -> nat): HeapEntry {
    HeapEntry(rank(f.id), f.id, f.rowCount, f.multiplicity)
  }

  // The candidates of one band, in inventory order.
  function InBand(frames: seq<Frame>, rank: string -> nat, band: nat): seq<HeapEntry> {
    if frames == [] then []
    else
      var last := frames[|frames| - 1];
      InBand(frames[..|frames| - 1], rank, band)
      + if Stratum(last.similarity) == band then [CandidateOf(last, rank)] else []
  }

  function Top(k: nat, s: seq<HeapEntry>): seq<HeapEntry> {
    Sort(Better, s)[..Min(k, |s|)]
  }

  function Ids(s: seq<HeapEntry>): set<string> {
    set i | 0 <= i < |s| :: s[i].id
  }

  function BandLists(frames: seq<Frame>, rank: string -> nat): seq<seq<HeapEntry>> {
    seq(|TYPE3_STRATA|, b requires 0 <= b => InBand(frames, rank, b))
  }

  // The ids chosen from the first `bands` bands under an allocation.
  function ChosenIds(lists: seq<seq<HeapEntry>>, allocation: seq<nat>, bands: nat): set<string>
    requires bands <= |allocation| == |lists|
  {
    if bands == 0 then {}
    else ChosenIds(lists, allocation, bands - 1) + Ids(Top(allocation[bands - 1], lists[bands - 1]))
  }

  function Eligible(frames: seq<Frame>, rank: string -> nat): seq<nat> {
    seq(|TYPE3_STRATA|, b requires 0 <= b => |InBand(frames, rank, b)|)
  }

  ghost predicate DistinctIds(frames: seq<Frame>) {
    forall i, j :: 0 <= i < j < |frames| ==> frames[i].id != frames[j].id
  }

  /** The selection for a sample size: the best of each band, up to its fair quota. */
  ghost predicate IsSelection(frames: seq<Frame>, rank: string -> nat, sampleSize: int, ids: set<string>) {
    exists a: seq<nat> :: Allocates(frames, rank, sampleSize, ids, a)
  }

  ghost predicate Allocates(frames: seq<Frame>, rank: string -> nat, sampleSize: int, ids: set<string>, a: seq<nat>) {
    && |a| == |TYPE3_STRATA|
    && 0 <= Min(sampleSize, Sum(Eligible(frames, rank)))
    && Fair(Eligible(frames, rank), a, Min(sampleSize, Sum(Eligible(frames, rank))))
    && ids == ChosenIds(BandLists(frames, rank), a, |TYPE3_STRATA|)
  }

  // ----- nesting and size -----

  lemma {:induction false} TopNests(j: nat, k: nat, s: seq<HeapEntry>)
    requires j <= k
    ensures Ids(Top(j, s)) <= Ids(Top(k, s))
  {
    var t := Sort(Better, s);
    forall id | id in Ids(Top(j, s)) ensures id in Ids(Top(k, s)) {
      var i :| 0 <= i < |Top(j, s)| && Top(j, s)[i].id == id;
      assert Top(k, s)[i] == t[i];
    }
  }

  lemma {:induction false} BiggerQuotasNest(lists: seq<seq<HeapEntry>>, a: seq<nat>, b: seq<nat>, bands: nat)
    requires bands <= |a| == |b| == |lists| && forall i :: 0 <= i < |a| ==> a[i] <= b[i]
    ensures ChosenIds(lists, a, bands) <= ChosenIds(lists, b, bands)
  {
    if bands != 0 {
      BiggerQuotasNest(lists, a, b, bands - 1);
      TopNests(a[bands - 1], b[bands - 1], lists[bands - 1]);
    }
  }

  ghost predicate DistinctCandidates(s: seq<HeapEntry>) {
    forall i, j :: 0 <= i < j < |s| ==> s[i].id != s[j].id
  }

  ghost function BandIds(frames: seq<Frame>, band: nat): set<string> {
    set f | f in frames && Stratum(f.similarity) == band :: f.id
  }

  ghost function IdsBelow(frames: seq<Frame>, bands: nat): set<string> {
    set f | f in frames && Stratum(f.similarity) < bands :: f.id
  }

  lemma {:induction false} BandsAreDisjoint(frames: seq<Frame>, band: nat)
    requires DistinctIds(frames)
    ensures IdsBelow(frames, band) !! BandIds(frames, band)
  {
    forall f, g | f in frames && g in frames && Stratum(f.similarity) < band && Stratum(g.similarity) == band
      ensures f.id != g.id
    {
      var i :| 0 <= i < |frames| && frames[i] == f;
      var j :| 0 <= j < |frames| && frames[j] == g;
    }
  }

  // Band members come from distinct frames of that band.
  lemma {:induction false} InBandIds(frames: seq<Frame>, rank: string -> nat, band: nat)
    requires DistinctIds(frames)
    ensures Ids(InBand(frames, rank, band)) <= BandIds(frames, band)
    ensures DistinctCandidates(InBand(frames, rank, band))
  {
    if frames != [] {
      var n := |frames| - 1;
      InBandIds(frames[..n], rank, band);
      var s := InBand(frames[..n], rank, band);
      assert frames[n] in frames;
      forall i | 0 <= i < |s| ensures s[i].id != frames[n].id && s[i].id in BandIds(frames, band) {
        assert s[i].id in Ids(s);
        var f :| f in frames[..n] && f.id == s[i].id && Stratum(f.similarity) == band;
        assert f in frames;
      }
    }
  }

  lemma {:induction false} DistinctIdsCount(s: seq<HeapEntry>)
    requires DistinctCandidates(s)
    ensures |Ids(s)| == |s|
  {
    if s != [] {
      var n := |s| - 1;
      DistinctIdsCount(s[..n]);
      assert Ids(s) == Ids(s[..n]) + {s[n].id};
    }
  }

  lemma {:induction false} SortKeepsDistinct(s: seq<HeapEntry>)
    requires DistinctCandidates(s)
    ensures DistinctCandidates(Sort(Better, s)) && Ids(Sort(Better, s)) == Ids(s)
  {
    var t := Sort(Better, s);
    SameElements(s, t);
    forall i, j | 0 <= i < j < |s| ensures s[i] != s[j] { assert s[i].id != s[j].id; }
    DistinctIsMultisetProperty(s, t);
    forall i, j | 0 <= i < j < |t| ensures t[i].id != t[j].id {
      assert t[i] in s && t[j] in s && t[i] != t[j];
    }
    forall id ensures id in Ids(t) <==> id in Ids(s) {
      if id in Ids(t) {
        var i :| 0 <= i < |t| && t[i].id == id;
        assert t[i] in s;
      }
      if id in Ids(s) {
        var i :| 0 <= i < |s| && s[i].id == id;
        assert s[i] in t;
      }
    }
  }

  // The quota of one band, with ids that belong to frames of that band only.
  lemma {:induction false} TopIds(frames: seq<Frame>, rank: string -> nat, band: nat, k: nat)
    requires DistinctIds(frames) && k <= |InBand(frames, rank, band)|
    ensures |Ids(Top(k, InBand(frames, rank, band)))| == k
    ensures Ids(Top(k, InBand(frames, rank, band))) <= BandIds(frames, band)
  {
    var s := InBand(frames, rank, band);
    InBandIds(frames, rank, band);
    SortKeepsDistinct(s);
    DistinctIdsCount(Top(k, s));
    assert Ids(Top(k, s)) <= Ids(Sort(Better, s));
  }

  lemma {:induction false} DisjointUnion<T>(a: set<T>, b: set<T>, x: set<T>, y: set<T>)
    requires a <= x && b <= y && x !! y
    ensures |a + b| == |a| + |b| && a + b <= x + y
  {
    assert a !! b;
  }

  lemma {:induction false} IdsBelowNext(frames: seq<Frame>, b: nat)
    ensures IdsBelow(frames, b) + BandIds(frames, b) == IdsBelow(frames, b + 1)
  {
  }

  ghost predicate Fits(frames: seq<Frame>, rank: string -> nat, a: seq<nat>) {
    |a| == |TYPE3_STRATA| && forall b :: 0 <= b < |a| ==> a[b] <= Eligible(frames, rank)[b]
  }

  lemma {:induction false} ChosenIdsStep(frames: seq<Frame>, rank: string -> nat, a: seq<nat>, b: nat)
    requires DistinctIds(frames) && b < |a| && Fits(frames, rank, a)
    requires ChosenIds(BandLists(frames, rank), a, b) <= IdsBelow(frames, b)
    ensures |ChosenIds(BandLists(frames, rank), a, b + 1)| == |ChosenIds(BandLists(frames, rank), a, b)| + a[b]
    ensures ChosenIds(BandLists(frames, rank), a, b + 1) <= IdsBelow(frames, b + 1)
  {
    assert a[b] <= Eligible(frames, rank)[b];
    TopIds(frames, rank, b, a[b]);
    BandsAreDisjoint(frames, b);
    IdsBelowNext(frames, b);
    DisjointUnion(ChosenIds(BandLists(frames, rank), a, b), Ids(Top(a[b], InBand(frames, rank, b))),
                  IdsBelow(frames, b), BandIds(frames, b));
  }

  lemma {:induction false} QuotaSum(a: seq<nat>, bands: nat)
    requires 0 < bands <= |a|
    ensures Sum(a[..bands]) == Sum(a[..bands - 1]) + a[bands - 1]
  {
    assert a[..bands][..bands - 1] == a[..bands - 1];
  }

  lemma {:induction false} ChosenIdsCount(frames: seq<Frame>, rank: string -> nat, a: seq<nat>, bands: nat)
    requires DistinctIds(frames) && bands <= |a| && Fits(frames, rank, a)
    ensures |ChosenIds(BandLists(frames, rank), a, bands)| == Sum(a[..bands])
    ensures ChosenIds(BandLists(frames, rank), a, bands) <= IdsBelow(frames, bands)
  {
    if bands != 0 {
      ChosenIdsCount(frames, rank, a, bands - 1);
      ChosenIdsStep(frames, rank, a, bands - 1);
      QuotaSum(a, bands);
    }
  }

  lemma {:induction false} SelectionAllocation(frames: seq<Frame>, rank: string -> nat, n: int,
                                               ids: set<string>) returns (a: seq<nat>)
    requires DistinctIds(frames) && IsSelection(frames, rank, n, ids)
    ensures |a| == |TYPE3_STRATA| && 0 <= Min(n, |frames|)
    ensures Fair(Eligible(frames, rank), a, Min(n, |frames|))
    ensures ids == ChosenIds(BandLists(frames, rank), a, |TYPE3_STRATA|)
    ensures |ids| == Min(n, |frames|)
  {
    EligibleTotal(frames, rank);
    a :| Allocates(frames, rank, n, ids, a);
    ChosenIdsCount(frames, rank, a, |TYPE3_STRATA|);
    assert a[..|TYPE3_STRATA|] == a;
  }

  /** The nested-sample theorem: with distinct frame ids, the selection for a size has exactly
      min(size, total) frames, and a larger size only adds frames. */
  lemma {:induction false} SelectionsNest(frames: seq<Frame>, rank: string -> nat, m: int, small: set<string>, n: int,
                                          large: set<string>)
    requires DistinctIds(frames) && m <= n
    requires IsSelection(frames, rank, m, small) && IsSelection(frames, rank, n, large)
    ensures small <= large
    ensures |small| == Min(m, |frames|) && |large| == Min(n, |frames|)
  {
    var a := SelectionAllocation(frames, rank, m, small);
    var b := SelectionAllocation(frames, rank, n, large);
    FairIsMonotone(Eligible(frames, rank), a, Min(m, |frames|), b, Min(n, |frames|));
    BiggerQuotasNest(BandLists(frames, rank), a, b, |TYPE3_STRATA|);
  }

  /** The selection of a size is a function of the size, the seed and the inventory. */
  lemma {:induction false} SelectionIsUnique(frames: seq<Frame>, rank: string -> nat, n: int, s: set<string>,
                                             t: set<string>)
    requires IsSelection(frames, rank, n, s) && IsSelection(frames, rank, n, t)
    ensures s == t
  {
    var e := Eligible(frames, rank);
    var a :| Allocates(frames, rank, n, s, a);
    var b :| Allocates(frames, rank, n, t, b);
    FairIsUnique(e, a, b, Min(n, Sum(e)));
  }

  // ----- which frames are chosen -----

  /** Of two frames of a band, the chosen one has the smaller seed rank, or on equal ranks the greater id. */
  ghost predicate PrefersLowRanks(frames: seq<Frame>, rank: string -> nat, ids: set<string>) {
    forall f, g :: f in frames && g in frames && Stratum(f.similarity) == Stratum(g.similarity)
                   && f.id in ids && g.id !in ids ==>
      rank(f.id) < rank(g.id) || (rank(f.id) == rank(g.id) && StringLess(g.id, f.id))
  }

  /** Each band has as many chosen frames as its quota, and nothing else is chosen. */
  ghost predicate FillsQuotas(frames: seq<Frame>, quotas: seq<nat>, ids: set<string>) {
    && (forall b: nat :: b < |quotas| ==> |ids * BandIds(frames, b)| == quotas[b])
    && (forall id :: id in ids ==> exists f :: f in frames && f.id == id)
  }

  lemma {:induction false} FrameIsInBand(frames: seq<Frame>, rank: string -> nat, f: Frame)
    requires f in frames
    ensures CandidateOf(f, rank) in InBand(frames, rank, Stratum(f.similarity))
  {
    var n := |frames| - 1;
    if f != frames[n] { FrameIsInBand(frames[..n], rank, f); }
  }

  // The frames of a band are as many as it has candidates.
  lemma {:induction false} EligibleCountsFrames(frames: seq<Frame>, rank: string -> nat, band: nat)
    requires DistinctIds(frames) && band < |TYPE3_STRATA|
    ensures Eligible(frames, rank)[band] == |BandIds(frames, band)|
  {
    var s := InBand(frames, rank, band);
    InBandIds(frames, rank, band);
    DistinctIdsCount(s);
    forall id | id in BandIds(frames, band) ensures id in Ids(s) {
      var f :| f in frames && f.id == id && Stratum(f.similarity) == band;
      FrameIsInBand(frames, rank, f);
      var i :| 0 <= i < |s| && s[i] == CandidateOf(f, rank);
    }
    assert Ids(s) == BandIds(frames, band);
  }

  // The quota keeps exactly the first k of the sorted candidates.
  lemma {:induction false} KeptPositions(k: nat, s: seq<HeapEntry>, i: nat)
    requires DistinctCandidates(s) && i < |s|
    ensures Sort(Better, s)[i].id in Ids(Top(k, s)) <==> i < k
  {
    var t := Sort(Better, s);
    SortKeepsDistinct(s);
    assert i < k ==> Top(k, s)[i] == t[i];
  }

  // A kept candidate is better than a dropped one.
  lemma {:induction false} KeptIsBetter(k: nat, s: seq<HeapEntry>, c: HeapEntry, d: HeapEntry)
    requires DistinctCandidates(s) && c in s && d in s && c.id in Ids(Top(k, s)) && d.id !in Ids(Top(k, s))
    ensures Better(c, d)
  {
    var t := Sort(Better, s);
    BetterIsTotalOrder();
    SortSorts(Better, s);
    SameElements(s, t);
    var i :| 0 <= i < |t| && t[i] == c;
    var j :| 0 <= j < |t| && t[j] == d;
    KeptPositions(k, s, i);
    KeptPositions(k, s, j);
  }

  // The chosen ids of a band's frames are those of its own quota.
  lemma {:induction false} ChosenInOwnBand(frames: seq<Frame>, rank: string -> nat, a: seq<nat>, bands: nat, f: Frame)
    requires DistinctIds(frames) && bands <= |a| && Fits(frames, rank, a) && f in frames
    ensures f.id in ChosenIds(BandLists(frames, rank), a, bands) <==>
            var b := Stratum(f.similarity);
            b < bands && f.id in Ids(Top(a[b], InBand(frames, rank, b)))
  {
    if bands != 0 {
      var last := bands - 1;
      ChosenInOwnBand(frames, rank, a, last, f);
      assert a[last] <= Eligible(frames, rank)[last];
      TopIds(frames, rank, last, a[last]);
      if f.id in BandIds(frames, last) { SameBand(frames, f, last); }
    }
  }

  lemma {:induction false} SameBand(frames: seq<Frame>, f: Frame, band: nat)
    requires DistinctIds(frames) && f in frames && f.id in BandIds(frames, band)
    ensures Stratum(f.similarity) == band
  {
    var g :| g in frames && g.id == f.id && Stratum(g.similarity) == band;
    var i :| 0 <= i < |frames| && frames[i] == f;
    var j :| 0 <= j < |frames| && frames[j] == g;
  }

  lemma {:induction false} ChosenHaveLowRanks(frames: seq<Frame>, rank: string -> nat, a: seq<nat>)
    requires DistinctIds(frames) && Fits(frames, rank, a)
    ensures PrefersLowRanks(frames, rank, ChosenIds(BandLists(frames, rank), a, |a|))
  {
    var ids := ChosenIds(BandLists(frames, rank), a, |a|);
    forall f, g | f in frames && g in frames && Stratum(f.similarity) == Stratum(g.similarity)
                  && f.id in ids && g.id !in ids
      ensures rank(f.id) < rank(g.id) || (rank(f.id) == rank(g.id) && StringLess(g.id, f.id))
    {
      var b := Stratum(f.similarity);
      ChosenInOwnBand(frames, rank, a, |a|, f);
      ChosenInOwnBand(frames, rank, a, |a|, g);
      InBandIds(frames, rank, b);
      FrameIsInBand(frames, rank, f);
      FrameIsInBand(frames, rank, g);
      KeptIsBetter(a[b], InBand(frames, rank, b), CandidateOf(f, rank), CandidateOf(g, rank));
    }
  }

  lemma {:induction false} ChosenFillQuotas(frames: seq<Frame>, rank: string -> nat, a: seq<nat>)
    requires DistinctIds(frames) && Fits(frames, rank, a)
    ensures FillsQuotas(frames, a, ChosenIds(BandLists(frames, rank), a, |a|))
  {
    var ids := ChosenIds(BandLists(frames, rank), a, |a|);
    ChosenIdsCount(frames, rank, a, |a|);
    forall b: nat | b < |a| ensures |ids * BandIds(frames, b)| == a[b] {
      var own := Ids(Top(a[b], InBand(frames, rank, b)));
      assert a[b] <= Eligible(frames, rank)[b];
      TopIds(frames, rank, b, a[b]);
      forall f | f in frames && f.id in BandIds(frames, b) ensures f.id in ids <==> f.id in own {
        SameBand(frames, f, b);
        ChosenInOwnBand(frames, rank, a, |a|, f);
      }
      assert ids * BandIds(frames, b) == own;
    }
  }

  /** A selection takes a fair number of frames of each band, and those of lowest seed rank. */
  lemma {:induction false} SelectionTakesLowRanks(frames: seq<Frame>, rank: string -> nat, n: int, ids: set<string>)
      returns (a: seq<nat>)
    requires DistinctIds(frames) && IsSelection(frames, rank, n, ids)
    ensures PrefersLowRanks(frames, rank, ids) && FillsQuotas(frames, a, ids)
    ensures |a| == |TYPE3_STRATA| && Fair(Eligible(frames, rank), a, Min(n, |frames|))
    ensures forall b: nat :: b < |a| ==> Eligible(frames, rank)[b] == |BandIds(frames, b)|
  {
    a := SelectionAllocation(frames, rank, n, ids);
    forall b: nat | b < |a| ensures Eligible(frames, rank)[b] == |BandIds(frames, b)| {
      EligibleCountsFrames(frames, rank, b);
    }
    ChosenHaveLowRanks(frames, rank, a);
    ChosenFillQuotas(frames, rank, a);
  }

  lemma {:induction false} InBandNext(frames: seq<Frame>, rank: string -> nat, i: nat)
    requires i < |frames|
    ensures forall b: nat :: InBand(frames[..i + 1], rank, b) == InBand(frames[..i], rank, b)
              + if Stratum(frames[i].similarity) == b then [CandidateOf(frames[i], rank)] else []
  {
    assert frames[..i + 1][..i] == frames[..i];
  }

  lemma {:induction false} EligibleNext(frames: seq<Frame>, rank: string -> nat, i: nat)
    requires i < |frames| && Stratum(frames[i].similarity) < |TYPE3_STRATA|
    ensures var b, done := Stratum(frames[i].similarity), Eligible(frames[..i], rank);
            Eligible(frames[..i + 1], rank) == done[b := done[b] + 1]
  {
    InBandNext(frames, rank, i);
  }

  // Every frame is eligible in exactly one band.
  lemma {:induction false} EligibleTotal(frames: seq<Frame>, rank: string -> nat)
    ensures Sum(Eligible(frames, rank)) == |frames|
  {
    var e := Eligible(frames, rank);
    if frames == [] {
      assert e == [0, 0, 0, 0];
      SumOfFour(e);
    } else {
      var n := |frames| - 1;
      EligibleTotal(frames[..n], rank);
      var b := Stratum(frames[n].similarity);
      StrataPartition(frames[n].similarity);
      var before := Eligible(frames[..n], rank);
      SumUpdate(before, b, before[b] + 1);
      EligibleNext(frames, rank, n);
      assert frames[..n + 1] == frames;
    }
  }

  lemma {:induction false} SumOfFour(s: seq<nat>)
    requires |s| == 4
    ensures Sum(s) == s[0] + s[1] + s[2] + s[3]
  {
    QuotaSum(s, 1);
    QuotaSum(s, 2);
    QuotaSum(s, 3);
    QuotaSum(s, 4);
    assert s[..4] == s && s[..0] == [];
  }

  // ----- the bounded heaps -----

  /** The only heap property the selection uses: the first element is a least one. */
  predicate MinFirst(h: seq<HeapEntry>) {
    forall i :: 0 <= i < |h| ==> h[i] == h[0] || Better(h[i], h[0])
  }

  method HeapPush(h: seq<HeapEntry>, c: HeapEntry) returns (r: seq<HeapEntry>)
    requires MinFirst(h)
    ensures MinFirst(r) && multiset(r) == multiset(h) + multiset{c}
  {
    BetterIsTotalOrder();
    if h == [] || Better(h[0], c) {
      r := [c] + h;
    } else {
      r := h + [c];
    }
  }

  method HeapReplace(h: seq<HeapEntry>, c: HeapEntry) returns (r: seq<HeapEntry>)
    requires h != [] && MinFirst(h)
    ensures MinFirst(r) && multiset(r) == multiset(h) - multiset{h[0]} + multiset{c}
  {
    r := [c];
    for i := 1 to |h|
      invariant MinFirst(r) && multiset(r) == multiset(h[1..i]) + multiset{c}
    {
      assert h[1..i + 1] == h[1..i] + [h[i]];
      r := HeapPush(r, h[i]);
    }
    DropFirst(h);
    assert h[1..|h|] == h[1..];
  }

  // An element that is better than b[0] is inserted into the part before b.
  lemma {:induction false} InsertBefore(c: HeapEntry, a: seq<HeapEntry>, b: seq<HeapEntry>)
    requires b == [] || Better(c, b[0])
    ensures Insert(Better, c, a + b) == Insert(Better, c, a) + b
  {
    if a == [] {
      assert a + b == b;
    } else {
      assert (a + b)[1..] == a[1..] + b;
      InsertBefore(c, a[1..], b);
    }
  }

  // An element that is better than none of a is inserted after a.
  lemma {:induction false} InsertAfter(c: HeapEntry, a: seq<HeapEntry>, b: seq<HeapEntry>)
    requires forall i :: 0 <= i < |a| ==> !Better(c, a[i])
    ensures Insert(Better, c, a + b) == a + Insert(Better, c, b)
  {
    if a == [] {
      assert a + b == b;
    } else {
      assert (a + b)[1..] == a[1..] + b;
      InsertAfter(c, a[1..], b);
    }
  }

  lemma {:induction false} WorseThanEarlier(c: HeapEntry, s: seq<HeapEntry>, k: nat)
    requires Sorted(Better, s) && k < |s| && !Better(c, s[k])
    ensures forall i :: 0 <= i < k ==> !Better(c, s[i])
  {
    BetterIsTotalOrder();
    forall i | 0 <= i < k ensures !Better(c, s[i]) { assert !Better(s[k], s[i]); }
  }

  lemma {:induction false} InsertTakeBetter(c: HeapEntry, s: seq<HeapEntry>, k: nat)
    requires 0 < k <= |s| && Better(c, s[k - 1])
    ensures Insert(Better, c, s)[..k] == Insert(Better, c, s[..k - 1])
  {
    var a, b := s[..k - 1], s[k - 1..];
    assert s == a + b && b[0] == s[k - 1];
    InsertBefore(c, a, b);
    assert |Insert(Better, c, a)| == k;
  }

  lemma {:induction false} InsertTakeWorse(c: HeapEntry, s: seq<HeapEntry>, k: nat)
    requires Sorted(Better, s) && 0 < k <= |s| && !Better(c, s[k - 1])
    ensures Insert(Better, c, s)[..k] == s[..k]
  {
    var a, b := s[..k], s[k..];
    assert s == a + b;
    WorseThanEarlier(c, s, k - 1);
    forall i | 0 <= i < k ensures !Better(c, a[i]) { assert a[i] == s[i]; }
    InsertAfter(c, a, b);
  }

  // Inserting into a sorted list changes its first k elements only through the k-th.
  lemma {:induction false} InsertTake(c: HeapEntry, s: seq<HeapEntry>, k: nat)
    requires Sorted(Better, s) && 0 < k <= |s|
    ensures Better(c, s[k - 1]) ==> Insert(Better, c, s)[..k] == Insert(Better, c, s[..k - 1])
    ensures !Better(c, s[k - 1]) ==> Insert(Better, c, s)[..k] == s[..k]
  {
    if Better(c, s[k - 1]) { InsertTakeBetter(c, s, k); } else { InsertTakeWorse(c, s, k); }
  }

  // The least kept candidate is the last of the sorted quota.
  lemma {:induction false} HeapMinimumIsLast(h: seq<HeapEntry>, t: seq<HeapEntry>)
    requires MinFirst(h) && Sorted(Better, t) && multiset(h) == multiset(t) && t != []
    ensures h != [] && h[0] == t[|t| - 1]
  {
    BetterIsTotalOrder();
    SameElements(h, t);
    assert h[0] in t && t[|t| - 1] in h;
  }

  lemma {:induction false} TopOfAppend(k: nat, s: seq<HeapEntry>, c: HeapEntry)
    ensures |s| < k ==> Top(k, s) == Sort(Better, s) && Top(k, s + [c]) == Insert(Better, c, Sort(Better, s))
    ensures |s| >= k ==> Top(k, s) == Sort(Better, s)[..k] && Top(k, s + [c]) == Insert(Better, c, Sort(Better, s))[..k]
  {
    assert (s + [c])[..|s|] == s;
  }

  // What one more scanned candidate does to a quota.
  lemma {:induction false} TopAppend(k: nat, s: seq<HeapEntry>, c: HeapEntry, h: seq<HeapEntry>)
    requires k > 0 && MinFirst(h) && multiset(h) == multiset(Top(k, s))
    ensures |h| == Min(k, |s|)
    ensures |s| < k ==> multiset(Top(k, s + [c])) == multiset(h) + multiset{c}
    ensures |s| >= k && Better(c, h[0]) ==> multiset(Top(k, s + [c])) == multiset(h) - multiset{h[0]} + multiset{c}
    ensures |s| >= k && !Better(c, h[0]) ==> multiset(Top(k, s + [c])) == multiset(h)
  {
    SameElements(h, Top(k, s));
    TopOfAppend(k, s, c);
    if |s| >= k {
      BetterIsTotalOrder();
      SortSorts(Better, s);
      ReplaceLeast(k, Sort(Better, s), c, h);
    }
  }

  lemma {:induction false} KeptPlusLeast(t: seq<HeapEntry>, k: nat)
    requires 0 < k <= |t|
    ensures multiset(t[..k]) == multiset(t[..k - 1]) + multiset{t[k - 1]}
  {
    assert t[..k] == t[..k - 1] + [t[k - 1]];
  }

  lemma {:induction false} ReplaceLeast(k: nat, t: seq<HeapEntry>, c: HeapEntry, h: seq<HeapEntry>)
    requires 0 < k <= |t| && Sorted(Better, t) && MinFirst(h) && multiset(h) == multiset(t[..k])
    ensures h != []
    ensures Better(c, h[0]) ==>
              multiset(Insert(Better, c, t)[..k]) == multiset(h) - multiset{h[0]} + multiset{c}
    ensures !Better(c, h[0]) ==> multiset(Insert(Better, c, t)[..k]) == multiset(h)
  {
    HeapMinimumIsLast(h, t[..k]);
    InsertTake(c, t, k);
    KeptPlusLeast(t, k);
  }

  // One scanned candidate against the bounded heap of its band.
  method Offer(h: seq<HeapEntry>, c: HeapEntry, quota: nat, ghost seen: seq<HeapEntry>) returns (r: seq<HeapEntry>)
    requires quota > 0 && IsHeapOf(h, quota, seen)
    ensures IsHeapOf(r, quota, seen + [c])
  {
    TopAppend(quota, seen, c, h);
    if |h| < quota {
      r := HeapPush(h, c);
    } else if Better(c, h[0]) {
      r := HeapReplace(h, c);
    } else {
      r := h;
    }
  }

  // ----- the two scans -----

  function RowCount(): HeapEntry -> nat { (c: HeapEntry) => c.rowCount }

  function SourceCount(): HeapEntry -> nat { (c: HeapEntry) => c.multiplicity }

  // The weight of the candidates of every band.
  function Weights(w: HeapEntry -> nat, frames: seq<Frame>, rank: string -> nat): seq<nat> {
    seq(|TYPE3_STRATA|, b requires 0 <= b => Total(w, InBand(frames, rank, b)))
  }

  lemma {:induction false} WeightsNext(w: HeapEntry -> nat, frames: seq<Frame>, rank: string -> nat, i: nat)
    requires i < |frames| && Stratum(frames[i].similarity) < |TYPE3_STRATA|
    ensures var b, done := Stratum(frames[i].similarity), Weights(w, frames[..i], rank);
            Weights(w, frames[..i + 1], rank) == done[b := done[b] + w(CandidateOf(frames[i], rank))]
  {
    var done, next := Weights(w, frames[..i], rank), Weights(w, frames[..i + 1], rank);
    var c := CandidateOf(frames[i], rank);
    forall b: nat | b < |TYPE3_STRATA|
      ensures next[b] == done[b] + if b == Stratum(frames[i].similarity) then w(c) else 0
    {
      InBandNext(frames, rank, i);
      var own := InBand(frames[..i], rank, b);
      TotalAppend(w, own, c);
      assert own + [] == own;
    }
  }

  // The first scan: frames, catalog rows and source rows of every band.
  method CountEligible(frames: seq<Frame>, ghost rank: string -> nat)
      returns (eligible: seq<nat>, rows: seq<nat>, sources: seq<nat>)
    ensures eligible == Eligible(frames, rank)
    ensures rows == Weights(RowCount(), frames, rank) && sources == Weights(SourceCount(), frames, rank)
  {
    eligible, rows, sources := seq(|TYPE3_STRATA|, _ => 0), seq(|TYPE3_STRATA|, _ => 0), seq(|TYPE3_STRATA|, _ => 0);
    for i := 0 to |frames|
      invariant eligible == Eligible(frames[..i], rank)
      invariant rows == Weights(RowCount(), frames[..i], rank) && sources == Weights(SourceCount(), frames[..i], rank)
    {
      StrataPartition(frames[i].similarity);
      EligibleNext(frames, rank, i);
      WeightsNext(RowCount(), frames, rank, i);
      WeightsNext(SourceCount(), frames, rank, i);
      var b := Stratum(frames[i].similarity);
      eligible := eligible[b := eligible[b] + 1];
      rows := rows[b := rows[b] + frames[i].rowCount];
      sources := sources[b := sources[b] + frames[i].multiplicity];
    }
    assert frames[..|frames|] == frames;
  }

  ghost predicate IsHeapOf(h: seq<HeapEntry>, quota: nat, s: seq<HeapEntry>) {
    MinFirst(h) && multiset(h) == multiset(Top(quota, s))
  }

  ghost predicate Holds(heaps: seq<seq<HeapEntry>>, quotas: seq<nat>, lists: seq<seq<HeapEntry>>) {
    && |heaps| == |quotas| == |lists|
    && forall b :: 0 <= b < |heaps| ==> IsHeapOf(heaps[b], quotas[b], lists[b])
  }

  lemma {:induction false} BandListsNext(frames: seq<Frame>, rank: string -> nat, i: nat)
    requires i < |frames| && Stratum(frames[i].similarity) < |TYPE3_STRATA|
    ensures var b := Stratum(frames[i].similarity);
            BandLists(frames[..i + 1], rank) == BandLists(frames[..i], rank)[
              b := BandLists(frames[..i], rank)[b] + [CandidateOf(frames[i], rank)]]
  {
    var b := Stratum(frames[i].similarity);
    var before, after := BandLists(frames[..i], rank), BandLists(frames[..i + 1], rank);
    forall c | 0 <= c < |after|
      ensures after[c] == before[b := before[b] + [CandidateOf(frames[i], rank)]][c]
    {
      InBandNext(frames, rank, i);
      assert InBand(frames[..i + 1], rank, c) == after[c];
    }
  }

  method FillHeaps(frames: seq<Frame>, rank: string -> nat, quotas: seq<nat>) returns (heaps: seq<seq<HeapEntry>>)
    requires |quotas| == |TYPE3_STRATA| && forall b :: 0 <= b < |quotas| ==> quotas[b] > 0
    ensures Holds(heaps, quotas, BandLists(frames, rank))
  {
    heaps := seq(|TYPE3_STRATA|, _ => []);
    for i := 0 to |frames|
      invariant Holds(heaps, quotas, BandLists(frames[..i], rank))
    {
      StrataPartition(frames[i].similarity);
      var b := Stratum(frames[i].similarity);
      BandListsNext(frames, rank, i);
      var h := Offer(heaps[b], CandidateOf(frames[i], rank), quotas[b], BandLists(frames[..i], rank)[b]);
      heaps := heaps[b := h];
    }
    assert frames[..|frames|] == frames;
  }

  lemma {:induction false} HeapIds(h: seq<HeapEntry>, t: seq<HeapEntry>)
    requires multiset(h) == multiset(t)
    ensures Ids(h) == Ids(t) && |h| == |t|
  {
    SameElements(h, t);
    forall id ensures id in Ids(h) <==> id in Ids(t) {
      if id in Ids(h) {
        var i :| 0 <= i < |h| && h[i].id == id;
        assert h[i] in t;
      }
      if id in Ids(t) {
        var i :| 0 <= i < |t| && t[i].id == id;
        assert t[i] in h;
      }
    }
  }

  lemma {:induction false} QuotaHeap(h: seq<HeapEntry>, quota: nat, s: seq<HeapEntry>)
    requires IsHeapOf(h, quota, s) && quota <= |s|
    ensures Ids(h) == Ids(Top(quota, s)) && |h| == quota
  {
    HeapIds(h, Top(quota, s));
  }

  /** The report of a band under a quota. */
  function ReportOf(list: seq<HeapEntry>, quota: nat): BandReport {
    var top := Top(quota, list);
    BandReport(|list|, Total(RowCount(), list), Total(SourceCount(), list), quota,
               |top|, Total(RowCount(), top), Total(SourceCount(), top))
  }

  lemma {:induction false} TakeTotal(w: HeapEntry -> nat, s: seq<HeapEntry>, k: nat)
    requires k <= |s|
    ensures Total(w, s[..k]) <= Total(w, s)
  {
    assert s == s[..k] + s[k..];
    TotalConcat(w, s[..k], s[k..]);
  }

  /** A band never reports more selected than eligible, and reports equal totals when its quota holds it. */
  lemma {:induction false} SelectedWithinEligible(list: seq<HeapEntry>, quota: nat)
    ensures var r := ReportOf(list, quota);
            && r.selectedFrames == Min(quota, r.eligibleFrames)
            && r.selectedRows <= r.eligibleRows && r.selectedSources <= r.eligibleSources
            && (r.eligibleFrames <= quota ==>
               r.selectedRows == r.eligibleRows && r.selectedSources == r.eligibleSources)
  {
    var sorted := Sort(Better, list);
    TotalIgnoresOrder(RowCount(), sorted, list);
    TotalIgnoresOrder(SourceCount(), sorted, list);
    TakeTotal(RowCount(), sorted, Min(quota, |list|));
    TakeTotal(SourceCount(), sorted, Min(quota, |list|));
    if |list| <= quota { assert sorted[..|list|] == sorted; }
  }

  // What the two scans leave behind for a band.
  ghost predicate Scanned(list: seq<HeapEntry>, quota: nat, h: seq<HeapEntry>, eligible: nat, rows: nat, sources: nat) {
    && 1 <= quota <= |list| == eligible && IsHeapOf(h, quota, list)
    && rows == Total(RowCount(), list) && sources == Total(SourceCount(), list)
  }

  // The chosen ids and the report of one band; the selected totals are taken from the heap.
  method ReportBand(h: seq<HeapEntry>, ghost list: seq<HeapEntry>, quota: nat, eligible: nat, rows: nat, sources: nat)
      returns (ids: set<string>, r: BandReport)
    requires Scanned(list, quota, h, eligible, rows, sources)
    ensures ids == Ids(Top(quota, list)) && r == ReportOf(list, quota) && |h| == quota
  {
    QuotaHeap(h, quota, list);
    TotalIgnoresOrder(RowCount(), h, Top(quota, list));
    TotalIgnoresOrder(SourceCount(), h, Top(quota, list));
    ids := Ids(h);
    r := BandReport(eligible, rows, sources, quota, |h|, Total(RowCount(), h), Total(SourceCount(), h));
  }

  // The reports of the first bands.
  function ReportsOf(lists: seq<seq<HeapEntry>>, quotas: seq<nat>, bands: nat): (r: seq<BandReport>)
    requires bands <= |quotas| == |lists|
    ensures |r| == bands
  {
    if bands == 0 then []
    else ReportsOf(lists, quotas, bands - 1) + [ReportOf(lists[bands - 1], quotas[bands - 1])]
  }

  lemma {:induction false} BandJoins(lists: seq<seq<HeapEntry>>, quotas: seq<nat>, b: nat)
    requires b < |lists| == |quotas|
    ensures ChosenIds(lists, quotas, b + 1) == ChosenIds(lists, quotas, b) + Ids(Top(quotas[b], lists[b]))
    ensures ReportsOf(lists, quotas, b + 1) == ReportsOf(lists, quotas, b) + [ReportOf(lists[b], quotas[b])]
  {
  }

  // The loop over the bands.
  method Assemble(quotas: seq<nat>, heaps: seq<seq<HeapEntry>>, ghost lists: seq<seq<HeapEntry>>,
                  eligible: seq<nat>, rows: seq<nat>, sources: seq<nat>)
      returns (ids: set<string>, reports: seq<BandReport>, emptied: bool)
    requires |heaps| == |quotas| == |eligible| == |rows| == |sources| == |lists|
    requires forall b :: 0 <= b < |lists| ==> Scanned(lists[b], quotas[b], heaps[b], eligible[b], rows[b], sources[b])
    ensures ids == ChosenIds(lists, quotas, |lists|) && !emptied
    ensures reports == ReportsOf(lists, quotas, |lists|)
  {
    ids, reports, emptied := {}, [], false;
    for b := 0 to |heaps|
      invariant ids == ChosenIds(lists, quotas, b) && !emptied
      invariant reports == ReportsOf(lists, quotas, b)
    {
      assert Scanned(lists[b], quotas[b], heaps[b], eligible[b], rows[b], sources[b]);
      var chosen, report := ReportBand(heaps[b], lists[b], quotas[b], eligible[b], rows[b], sources[b]);
      BandJoins(lists, quotas, b);
      ids := ids + chosen;
      reports := reports + [report];
      if heaps[b] == [] { emptied := true; }
    }
  }

  /** The chosen frames are the best of each band under these quotas, every heap holds its whole quota, and
      the reports are those of the bands. */
  ghost predicate ChosenBy(c: Chosen, frames: seq<Frame>, rank: string -> nat, quotas: seq<nat>)
    requires |quotas| == |TYPE3_STRATA|
  {
    var lists := BandLists(frames, rank);
    && c.allocation == quotas && c.ids == ChosenIds(lists, quotas, |lists|)
    && Holds(c.heaps, quotas, lists) && (forall b :: 0 <= b < |quotas| ==> |c.heaps[b]| == quotas[b] > 0)
    && c.reports == ReportsOf(lists, quotas, |lists|)
  }

  lemma {:induction false} QuotaHeaps(heaps: seq<seq<HeapEntry>>, quotas: seq<nat>, lists: seq<seq<HeapEntry>>)
    requires Holds(heaps, quotas, lists) && forall b :: 0 <= b < |quotas| ==> 1 <= quotas[b] <= |lists[b]|
    ensures forall b :: 0 <= b < |quotas| ==> |heaps[b]| == quotas[b] > 0
  {
    forall b | 0 <= b < |quotas| ensures |heaps[b]| == quotas[b] { QuotaHeap(heaps[b], quotas[b], lists[b]); }
  }

  // The second scan and the loop over the bands; an empty heap would be an error.
  method SelectFrom(frames: seq<Frame>, rank: string -> nat, quotas: seq<nat>, eligible: seq<nat>, rows: seq<nat>,
                    sources: seq<nat>) returns (r: Result<Chosen, SelectionError>)
    requires eligible == Eligible(frames, rank) && |quotas| == |eligible|
    requires rows == Weights(RowCount(), frames, rank) && sources == Weights(SourceCount(), frames, rank)
    requires forall b :: 0 <= b < |quotas| ==> 1 <= quotas[b] <= eligible[b]
    ensures r.Ok? && ChosenBy(r.value, frames, rank, quotas)
  {
    var heaps := FillHeaps(frames, rank, quotas);
    QuotaHeaps(heaps, quotas, BandLists(frames, rank));
    var ids, reports, emptied := Assemble(quotas, heaps, BandLists(frames, rank), eligible, rows, sources);
    if emptied { return Err(EmptyStratum); }
    return Ok(Chosen(ids, quotas, heaps, reports));
  }

  /** `_selected_type3_frame_ids`: it fails exactly on an empty band or a sample below one frame a
      band, and otherwise returns the selection, every heap holding its whole quota.  The
      "selected zero frames" exit is never taken. */
  method SelectType3(frames: seq<Frame>, rank: string -> nat, sampleSize: int)
      returns (r: Result<Chosen, SelectionError>)
    ensures 0 in Eligible(frames, rank) ==> r == Err(Allocation(EmptyBands(EmptyFrom(Eligible(frames, rank), 0))))
    ensures 0 !in Eligible(frames, rank) && Min(sampleSize, |frames|) < |TYPE3_STRATA| ==>
              r == Err(Allocation(SampleTooSmall))
    ensures 0 !in Eligible(frames, rank) && Min(sampleSize, |frames|) >= |TYPE3_STRATA| ==> r.Ok?
    ensures r.Ok? ==> && IsSelection(frames, rank, sampleSize, r.value.ids)
                      && |r.value.allocation| == |TYPE3_STRATA|
                      && ChosenBy(r.value, frames, rank, r.value.allocation)
                      && Fair(Eligible(frames, rank), r.value.allocation, Min(sampleSize, |frames|))
    ensures r.Ok? && DistinctIds(frames) ==>
              PrefersLowRanks(frames, rank, r.value.ids) && FillsQuotas(frames, r.value.allocation, r.value.ids)
  {
    EligibleTotal(frames, rank);
    var eligible, rows, sources := CountEligible(frames, rank);
    var outcome := EqualAllocation(eligible, sampleSize);
    if outcome.Err? { return Err(Allocation(outcome.error)); }
    r := SelectFrom(frames, rank, outcome.value, eligible, rows, sources);
    assert Allocates(frames, rank, sampleSize, r.value.ids, outcome.value);
    if DistinctIds(frames) {
      ChosenHaveLowRanks(frames, rank, outcome.value);
      ChosenFillQuotas(frames, rank, outcome.value);
    }
  }
}
