/** The target-driven history frontier: srcmove_history/analysis.py (103-136, 267-366, 411-592), the
    store it advances (srcmove_history/database.py 433-696) and the history selection of
    srcmove_history/git.py (159-230).

    The repository is its first-parent chain, newest commit first.  Manifests, fingerprints, revision
    numbers and invocation records are left out; `budget` is the number of durable writes that the
    process survives. */
module History {
  import opened Wrappers
  import opened Ordering

  const BATCH_LIMIT: nat := 100

  datatype HistoryError =
    | NoAdjacentPair | PairCountNotPositive | NotOnHistory
    | InvalidTarget | TargetTooSmall(pendingTotal: nat) | Interrupted
    | AlreadyExhausted | AlreadyPending | BoundaryDrift
    | NotInBatch | IdentityDrift | AlreadySealed | NoncontiguousPrefix | NotComplete

  datatype Pair = Pair(oldCommit: string, newCommit: string)

  /** Selected commits, oldest first, and whether they end at the root. */
  datatype Selection = Selection(commits: seq<string>, exhausted: bool)

  datatype Batch = Batch(commits: seq<string>, sealed: seq<bool>, reachesRoot: bool)

  // ----- selecting history -----

  function Max(a: nat, b: nat): nat { if a < b then b else a }

  function IndexOf(chain: seq<string>, commit: string): (i: nat)
    ensures i <= |chain| && (i < |chain| ==> chain[i] == commit)
    ensures commit in chain ==> i < |chain|
  {
    if chain == [] then 0 else if chain[0] == commit then 0 else 1 + IndexOf(chain[1..], commit)
  }

  // chain[hi], chain[hi - 1], ..., chain[lo].
  function OldestFirst(chain: seq<string>, lo: nat, hi: nat): (r: seq<string>)
    requires lo <= hi < |chain|
    ensures |r| == hi - lo + 1 && forall k :: 0 <= k < |r| ==> r[k] == chain[hi - k]
  {
    seq(hi - lo + 1, k requires 0 <= k < hi - lo + 1 => chain[hi - k])
  }

  /** `select_older_first_parent_history` by pair count: one commit more than needed is listed, to see
      whether the selection reaches the root. */
  function SelectOlder(chain: seq<string>, start: string, pairCount: nat): Result<Selection, HistoryError> {
    if pairCount == 0 then Err(PairCountNotPositive)
    else
      var i := IndexOf(chain, start);
      if i == |chain| then Err(NotOnHistory)
      else
        var listed := chain[i..Min(|chain|, i + pairCount + 2)];
        var selected := listed[..Min(|listed|, pairCount + 1)];
        Ok(Selection(OldestFirst(selected, 0, |selected| - 1), |listed| <= pairCount + 1))
  }

  lemma {:induction false} IndexIsUnique(chain: seq<string>, i: nat)
    requires Distinct(chain) && i < |chain|
    ensures IndexOf(chain, chain[i]) == i
  {
    assert chain[i] in chain;
    var j := IndexOf(chain, chain[i]);
    assert chain[j] == chain[i];
  }

  /** From the i-th commit of the chain the selection is the next pairs, as many as asked for or as
      there are, and the exhaustion flag is exact. */
  lemma {:induction false} SelectionIsExact(chain: seq<string>, i: nat, pairCount: nat)
    requires Distinct(chain) && i < |chain| && pairCount > 0
    ensures var pairs := Min(pairCount, |chain| - 1 - i);
            SelectOlder(chain, chain[i], pairCount) ==
            Ok(Selection(OldestFirst(chain, i, i + pairs), i + pairs == |chain| - 1))
  {
    IndexIsUnique(chain, i);
    var pairs := Min(pairCount, |chain| - 1 - i);
    var listed := chain[i..Min(|chain|, i + pairCount + 2)];
    var selected := listed[..Min(|listed|, pairCount + 1)];
    assert |selected| == pairs + 1;
    assert OldestFirst(selected, 0, pairs) == OldestFirst(chain, i, i + pairs);
  }

  /** It fails exactly on a request for no pairs, and on a start that is not on the chain. */
  lemma {:induction false} SelectionFailsIff(chain: seq<string>, start: string, pairCount: nat)
    ensures SelectOlder(chain, start, pairCount) == Err(PairCountNotPositive) <==> pairCount == 0
    ensures SelectOlder(chain, start, pairCount) == Err(NotOnHistory) <==> pairCount > 0 && start !in chain
    ensures SelectOlder(chain, start, pairCount).Err? <==> pairCount == 0 || start !in chain
  {
  }

  // ----- what has been published -----

  function PairAt(chain: seq<string>, d: nat): Pair
    requires d + 1 < |chain|
  {
    Pair(chain[d + 1], chain[d])
  }

  // The first n pairs of a batch of `size` pairs that starts after `start` pairs: oldest pair first.
  function BatchLog(chain: seq<string>, start: nat, size: nat, n: nat): (r: seq<Pair>)
    requires n <= size && start + size < |chain|
    ensures |r| == n && forall q :: 0 <= q < n ==> r[q] == PairAt(chain, start + size - 1 - q)
  {
    seq(n, q requires 0 <= q < n => PairAt(chain, start + size - 1 - q))
  }

  // The publication order of completed batches of these sizes.
  function LogOf(chain: seq<string>, sizes: seq<nat>): seq<Pair>
    requires Sum(sizes) < |chain|
  {
    if sizes == [] then [] else
      var n := |sizes| - 1;
      LogOf(chain, sizes[..n]) + BatchLog(chain, Sum(sizes[..n]), sizes[n], sizes[n])
  }

  // The pairs at distances lo, lo + 1, ..., hi - 1 from the newest commit.
  function Pairs(chain: seq<string>, lo: nat, hi: nat): (r: seq<Pair>)
    requires lo <= hi < |chain|
    ensures |r| == hi - lo && forall k :: 0 <= k < |r| ==> r[k] == PairAt(chain, lo + k)
  {
    seq(hi - lo, k requires 0 <= k < hi - lo => PairAt(chain, lo + k))
  }

  lemma {:induction false} BatchLogSplit(chain: seq<string>, start: nat, size: nat)
    requires start + size < |chain| && size > 0
    ensures BatchLog(chain, start, size, size) ==
            BatchLog(chain, start + 1, size - 1, size - 1) + [PairAt(chain, start)]
  {
  }

  lemma {:induction false} PairsSplit(chain: seq<string>, lo: nat, mid: nat, hi: nat)
    requires lo <= mid <= hi < |chain|
    ensures Pairs(chain, lo, hi) == Pairs(chain, lo, mid) + Pairs(chain, mid, hi)
  {
  }

  lemma {:induction false} BatchIsItsPairs(chain: seq<string>, start: nat, size: nat)
    requires start + size < |chain|
    ensures multiset(BatchLog(chain, start, size, size)) == multiset(Pairs(chain, start, start + size))
    decreases size
  {
    if size > 0 {
      BatchIsItsPairs(chain, start + 1, size - 1);
      BatchLogSplit(chain, start, size);
      PairsSplit(chain, start, start + 1, start + size);
      assert Pairs(chain, start, start + 1) == [PairAt(chain, start)];
    }
  }

  /** No gap and no overlap: however the batches were cut, the published pairs are the first
      Sum(sizes) pairs of the chain, each once. */
  lemma {:induction false} BatchesTileTheChain(chain: seq<string>, sizes: seq<nat>)
    requires Sum(sizes) < |chain|
    ensures multiset(LogOf(chain, sizes)) == multiset(Pairs(chain, 0, Sum(sizes)))
  {
    if sizes != [] {
      var n := |sizes| - 1;
      BatchesTileTheChain(chain, sizes[..n]);
      BatchIsItsPairs(chain, Sum(sizes[..n]), sizes[n]);
      PairsSplit(chain, 0, Sum(sizes[..n]), Sum(sizes));
      ConcatSameElements(LogOf(chain, sizes[..n]), BatchLog(chain, Sum(sizes[..n]), sizes[n], sizes[n]),
                         Pairs(chain, 0, Sum(sizes[..n])), Pairs(chain, Sum(sizes[..n]), Sum(sizes)));
    }
  }

  lemma {:induction false} PairsAreDistinct(chain: seq<string>, n: nat)
    requires Distinct(chain) && n < |chain|
    ensures Distinct(Pairs(chain, 0, n))
  {
  }

  // ----- the store -----

  function Ones(n: nat, size: nat): (r: seq<bool>)
    requires n <= size
    ensures |r| == size && forall k :: 0 <= k < size ==> (r[k] <==> k < n)
  {
    seq(size, k requires 0 <= k < size => k < n)
  }

  lemma {:induction false} OnesAreDifferent(m: nat, n: nat, size: nat)
    requires m <= size && n <= size
    ensures m != n ==> Ones(m, size) != Ones(n, size)
  {
    if m < n { assert Ones(n, size)[m] && !Ones(m, size)[m]; }
    if n < m { assert Ones(m, size)[n] && !Ones(n, size)[n]; }
  }

  lemma {:induction false} SealNext(n: nat, size: nat)
    requires n < size
    ensures Ones(n, size)[n := true] == Ones(n + 1, size) && !Ones(n, size)[n]
  {
    assert Ones(n, size)[n := true] == Ones(n + 1, size);
  }

  lemma {:induction false} BatchLogStep(chain: seq<string>, start: nat, size: nat, n: nat)
    requires n < size && start + size < |chain|
    ensures BatchLog(chain, start, size, n + 1) ==
            BatchLog(chain, start, size, n) + [PairAt(chain, start + size - 1 - n)]
  {
  }

  /** The tables of the store: the frontier, the pending batch with its number of sealed rows, the sizes of
      the committed batches, and what was published. */
  datatype Store = Store(completed: nat, exhausted: bool, oldest: Option<string>, pending: Option<Batch>,
                         sizes: seq<nat>, log: seq<Pair>, prefix: nat)

  ghost predicate PendingOk(chain: seq<string>, s: Store) {
    s.pending.Some? ==>
      var b, size := s.pending.value, |s.pending.value.sealed|;
      && !s.exhausted && 1 <= size <= BATCH_LIMIT && s.completed + size < |chain|
      && b.commits == OldestFirst(chain, s.completed, s.completed + size)
      && (b.reachesRoot <==> s.completed + size == |chain| - 1)
      && s.prefix <= size && b.sealed == Ones(s.prefix, size)
  }

  ghost predicate LogOk(chain: seq<string>, s: Store)
    requires PendingOk(chain, s)
  {
    && Sum(s.sizes) == s.completed < |chain| && (forall k :: 0 <= k < |s.sizes| ==> 1 <= s.sizes[k] <= BATCH_LIMIT)
    && s.log == LogOf(chain, s.sizes)
                + if s.pending.None? then [] else BatchLog(chain, s.completed, |s.pending.value.sealed|, s.prefix)
  }

  ghost predicate StoreOk(chain: seq<string>, s: Store) {
    && Distinct(chain) && |chain| >= 2 && s.completed < |chain|
    && (s.exhausted <==> s.completed == |chain| - 1)
    && s.oldest == (if s.completed == 0 then None else Some(chain[s.completed]))
    && PendingOk(chain, s) && LogOk(chain, s)
  }

  /** The selection holds the next pairs of the chain, and knows whether they reach the root. */
  ghost predicate NextPairs(chain: seq<string>, completed: nat, selection: Selection) {
    && 2 <= |selection.commits| <= BATCH_LIMIT + 1 && completed + |selection.commits| <= |chain|
    && selection.commits == OldestFirst(chain, completed, completed + |selection.commits| - 1)
    && (selection.exhausted <==> completed + |selection.commits| == |chain|)
  }

  function Planning(s: Store, selection: Selection): Store
    requires selection.commits != []
  {
    s.(pending := Some(Batch(selection.commits, Ones(0, |selection.commits| - 1), selection.exhausted)), prefix := 0)
  }

  lemma {:induction false} PlanningKeeps(chain: seq<string>, s: Store, selection: Selection)
    requires StoreOk(chain, s) && s.pending.None? && !s.exhausted && NextPairs(chain, s.completed, selection)
    ensures StoreOk(chain, Planning(s, selection))
  {
    assert BatchLog(chain, s.completed, |selection.commits| - 1, 0) == [];
  }

  /** What `record_outcome` refuses. */
  function RecordError(b: Batch, sequence: nat, pair: Pair): Option<HistoryError>
    requires |b.commits| == |b.sealed| + 1
  {
    if sequence >= |b.sealed| then Some(NotInBatch)
    else if pair != Pair(b.commits[sequence], b.commits[sequence + 1]) then Some(IdentityDrift)
    else if b.sealed[sequence] then Some(AlreadySealed)
    else None
  }

  // One row is sealed and its pair is published.
  function Recording(s: Store, sequence: nat, pair: Pair): Store
    requires s.pending.Some? && sequence < |s.pending.value.sealed|
  {
    var b := s.pending.value;
    s.(pending := Some(b.(sealed := b.sealed[sequence := true])), log := s.log + [pair])
  }

  function Sealing(s: Store): Store
    requires s.pending.Some? && s.prefix < |s.pending.value.sealed| && |s.pending.value.commits| > s.prefix + 1
  {
    var b := s.pending.value;
    Recording(s, s.prefix, Pair(b.commits[s.prefix], b.commits[s.prefix + 1])).(prefix := s.prefix + 1)
  }

  // The row that is sealed next, and the pair it was planned for.
  lemma {:induction false} NextRow(chain: seq<string>, s: Store)
    requires PendingOk(chain, s) && s.pending.Some? && s.prefix < |s.pending.value.sealed|
    ensures var b := s.pending.value;
            && |b.commits| == |b.sealed| + 1
            && RecordError(b, s.prefix, Pair(b.commits[s.prefix], b.commits[s.prefix + 1])) == None
            && Pair(b.commits[s.prefix], b.commits[s.prefix + 1])
               == PairAt(chain, s.completed + |b.sealed| - 1 - s.prefix)
            && b.sealed[s.prefix := true] == Ones(s.prefix + 1, |b.sealed|)
  {
    SealNext(s.prefix, |s.pending.value.sealed|);
  }

  lemma {:induction false} SealedLog(chain: seq<string>, s: Store)
    requires PendingOk(chain, s) && LogOk(chain, s) && s.pending.Some? && s.prefix < |s.pending.value.sealed|
    ensures var size := |s.pending.value.sealed|;
            s.log + [PairAt(chain, s.completed + size - 1 - s.prefix)]
            == LogOf(chain, s.sizes) + BatchLog(chain, s.completed, size, s.prefix + 1)
  {
    var size := |s.pending.value.sealed|;
    BatchLogStep(chain, s.completed, size, s.prefix);
    assert s.log == LogOf(chain, s.sizes) + BatchLog(chain, s.completed, size, s.prefix);
  }

  lemma {:induction false} SealingKeeps(chain: seq<string>, s: Store)
    requires StoreOk(chain, s) && s.pending.Some? && s.prefix < |s.pending.value.sealed|
    ensures |s.pending.value.commits| == |s.pending.value.sealed| + 1
    ensures StoreOk(chain, Sealing(s))
    ensures Sealing(s).log == s.log + [PairAt(chain, s.completed + |s.pending.value.sealed| - 1 - s.prefix)]
  {
    NextRow(chain, s);
    SealedLog(chain, s);
  }

  function Committing(s: Store): Store
    requires s.pending.Some? && s.pending.value.commits != []
  {
    var b := s.pending.value;
    Store(s.completed + |b.sealed|, b.reachesRoot, Some(b.commits[0]), None, s.sizes + [|b.sealed|], s.log, s.prefix)
  }

  lemma {:induction false} CommittingKeeps(chain: seq<string>, s: Store)
    requires StoreOk(chain, s) && s.pending.Some? && s.prefix == |s.pending.value.sealed|
    ensures StoreOk(chain, Committing(s))
  {
    var sizes := s.sizes + [|s.pending.value.sealed|];
    assert sizes[..|sizes| - 1] == s.sizes;
  }

  class AnalysisDatabase {
    const chain: seq<string>
    var completed: nat
    var exhausted: bool
    var oldest: Option<string>
    var pending: Option<Batch>
    var sizes: seq<nat>
    var log: seq<Pair>
    // The number of sealed rows of the pending batch.
    ghost var prefix: nat

    /** The committed pairs plus the pending ones. */
    ghost function Planned(): nat
      reads this`pending, this`completed
    {
      completed + if pending.None? then 0 else |pending.value.sealed|
    }

    ghost function Tables(): Store
      reads this
    {
      Store(completed, exhausted, oldest, pending, sizes, log, prefix)
    }

    ghost predicate Valid()
      reads this
    {
      StoreOk(chain, Tables())
    }

    // A new store holds its first batch, pending.
    constructor (chain: seq<string>, pairs: nat)
      requires Distinct(chain) && 1 <= pairs <= BATCH_LIMIT && pairs < |chain|
      ensures Valid() && this.chain == chain && completed == 0 && Planned() == pairs && log == [] && prefix == 0
      ensures fresh(this)
    {
      this.chain := chain;
      completed, exhausted, oldest, sizes, log, prefix := 0, false, None, [], [], 0;
      pending := Some(Batch(OldestFirst(chain, 0, pairs), Ones(0, pairs), pairs == |chain| - 1));
    }

    function Boundary(): string
      requires |chain| > 0
      reads this`oldest
    {
      if oldest.Some? then oldest.value else chain[0]
    }

    /** `completed_prefix`: the number of sealed rows, which must come first. */
    method CompletedPrefix(b: Batch) returns (r: Result<nat, HistoryError>)
      ensures r.Ok? ==> r.value <= |b.sealed| && b.sealed == Ones(r.value, |b.sealed|)
      ensures r.Err? ==> r.error == NoncontiguousPrefix
                         && exists j, k :: 0 <= j < k < |b.sealed| && !b.sealed[j] && b.sealed[k]
    {
      var count := 0;
      var foundPending := false;
      var i := 0;
      while i < |b.sealed|
        invariant 0 <= i <= |b.sealed| && count <= i
        invariant forall k :: 0 <= k < i ==> (b.sealed[k] <==> k < count)
        invariant foundPending <==> count < i
      {
        if !b.sealed[i] {
          foundPending := true;
        } else if foundPending {
          assert !b.sealed[count] && b.sealed[i];
          return Err(NoncontiguousPrefix);
        } else {
          count := count + 1;
        }
        i := i + 1;
      }
      return Ok(count);
    }

    /** What `add_pending_batch` refuses. */
    function AddError(selection: Selection): Option<HistoryError>
      requires |chain| > 0 && selection.commits != []
      reads this`exhausted, this`pending, this`oldest
    {
      if exhausted then Some(AlreadyExhausted)
      else if pending.Some? then Some(AlreadyPending)
      else if selection.commits[|selection.commits| - 1] != Boundary() then Some(BoundaryDrift)
      else None
    }

    /** `add_pending_batch`: a selection at the frontier becomes the pending batch; a second batch, an
        exhausted history and another starting commit are refused without effect. */
    method AddPendingBatch(selection: Selection) returns (r: Result<(), HistoryError>)
      requires Valid() && selection.commits != []
      modifies this`pending, this`prefix
      ensures r == if old(AddError(selection)).Some? then Err(old(AddError(selection)).value) else Ok(())
      ensures r.Err? ==> Valid() && pending == old(pending) && prefix == old(prefix)
      ensures r.Ok? && NextPairs(chain, completed, selection) ==>
                Valid() && pending.Some? && prefix == 0 && Planned() == completed + |selection.commits| - 1
    {
      if exhausted { return Err(AlreadyExhausted); }
      if pending.Some? { return Err(AlreadyPending); }
      if selection.commits[|selection.commits| - 1] != Boundary() { return Err(BoundaryDrift); }
      ghost var before := Tables();
      pending := Some(Batch(selection.commits, Ones(0, |selection.commits| - 1), selection.exhausted));
      prefix := 0;
      if NextPairs(chain, completed, selection) { PlanningKeeps(chain, before, selection); }
      return Ok(());
    }

    /** `record_outcome`: seals one row of the pending batch, once, for the pair it was planned for. */
    method RecordOutcome(sequence: nat, pair: Pair) returns (r: Result<(), HistoryError>)
      requires pending.Some? && |pending.value.commits| == |pending.value.sealed| + 1
      modifies this`pending, this`log
      ensures var refused := RecordError(old(pending.value), sequence, pair);
              r == if refused.Some? then Err(refused.value) else Ok(())
      ensures r.Ok? ==> Tables() == Recording(old(Tables()), sequence, pair)
      ensures r.Err? ==> Tables() == old(Tables())
    {
      var b := pending.value;
      if sequence >= |b.sealed| { return Err(NotInBatch); }
      if pair != Pair(b.commits[sequence], b.commits[sequence + 1]) { return Err(IdentityDrift); }
      if b.sealed[sequence] { return Err(AlreadySealed); }
      pending := Some(b.(sealed := b.sealed[sequence := true]));
      log := log + [pair];
      return Ok(());
    }

    /** Sealing the next row of a valid store keeps it valid. */
    method PublishNext(sequence: nat) returns (r: Result<(), HistoryError>)
      requires Valid() && pending.Some? && sequence == prefix < |pending.value.sealed|
      modifies this`pending, this`log, this`prefix
      ensures r.Ok? && Valid() && pending.Some? && prefix == sequence + 1
      ensures |pending.value.sealed| == |old(pending.value.sealed)|
      ensures log == old(log) + [PairAt(chain, old(Planned()) - 1 - sequence)]
    {
      ghost var before := Tables();
      NextRow(chain, before);
      SealingKeeps(chain, before);
      var b := pending.value;
      r := RecordOutcome(sequence, Pair(b.commits[sequence], b.commits[sequence + 1]));
      prefix := sequence + 1;
      assert Tables() == Sealing(before);
    }

    /** `commit_pending_batch`: a fully sealed batch moves the frontier by exactly its pairs; any other
        is refused without effect. */
    method CommitPendingBatch() returns (r: Result<(), HistoryError>)
      requires Valid() && pending.Some?
      modifies this`pending, this`completed, this`exhausted, this`oldest, this`sizes
      ensures Valid()
      ensures r == if prefix < |old(pending.value.sealed)| then Err(NotComplete) else Ok(())
      ensures r.Ok? ==> pending.None? && completed == old(Planned())
                        && sizes == old(sizes) + [|old(pending.value.sealed)|]
      ensures r.Err? ==> pending == old(pending) && completed == old(completed) && sizes == old(sizes)
                         && oldest == old(oldest) && exhausted == old(exhausted)
    {
      var b := pending.value;
      var count := CompletedPrefix(b);
      if count.Err? {
        assert false;
        return Err(NoncontiguousPrefix);
      }
      OnesAreDifferent(count.value, prefix, |b.sealed|);
      if count.value != |b.sealed| { return Err(NotComplete); }
      CommittingKeeps(chain, Tables());
      oldest := Some(b.commits[0]);
      completed := completed + |b.sealed|;
      exhausted := b.reachesRoot;
      sizes := sizes + [|b.sealed|];
      pending := None;
      return Ok(());
    }
  }

  // ----- advancing -----

  /** The coverage that a target asks for; None is the whole history. */
  function Goal(chain: seq<string>, target: Option<nat>): nat
    requires chain != []
  {
    if target.None? then |chain| - 1 else Min(target.value, |chain| - 1)
  }

  /** `_execute_pending_batch` and the commit that follows it: publishes the unsealed pairs in
      sequence, unless the process dies first. */
  method ExecutePendingBatch(db: AnalysisDatabase, budget: nat) returns (r: Result<(), HistoryError>, left: nat)
    requires db.Valid() && db.pending.Some?
    modifies db
    ensures db.Valid() && db.Planned() == old(db.Planned()) && old(db.log) <= db.log
    ensures r.Ok? ==> db.pending.None? && db.completed == old(db.Planned())
    ensures r.Ok? ==> budget == left + (old(|db.pending.value.sealed|) - old(db.prefix)) + 1
    ensures r.Err? ==> r.error == Interrupted && db.completed == old(db.completed) && db.pending.Some?
    ensures r.Err? ==> budget < old(|db.pending.value.sealed|) - old(db.prefix) + 1
  {
    left := budget;
    ghost var size := |db.pending.value.sealed|;
    var prefix := db.CompletedPrefix(db.pending.value);
    if prefix.Err? {
      assert false;
      return Err(NoncontiguousPrefix), left;
    }
    var sequence := prefix.value;
    OnesAreDifferent(sequence, db.prefix, size);
    while sequence < |db.pending.value.sealed|
      invariant db.Valid() && db.pending.Some? && |db.pending.value.sealed| == size
      invariant db.completed == old(db.completed) && old(db.log) <= db.log
      invariant sequence == db.prefix <= size
      invariant budget == left + (sequence - old(db.prefix))
      decreases size - sequence
    {
      if left == 0 { return Err(Interrupted), left; }
      left := left - 1;
      var sealed := db.PublishNext(sequence);
      sequence := sequence + 1;
    }
    if left == 0 { return Err(Interrupted), left; }
    left := left - 1;
    r := db.CommitPendingBatch();
  }

  /** `_plan_next_batch` and `add_pending_batch`. */
  method PlanNextBatch(db: AnalysisDatabase, target: Option<nat>) returns (r: Result<(), HistoryError>)
    requires db.Valid() && db.pending.None? && !db.exhausted
    requires target.Some? ==> db.completed < target.value
    modifies db`pending, db`prefix
    ensures r.Ok? && db.Valid() && db.pending.Some? && db.prefix == 0
    ensures db.completed < db.Planned() <= Goal(db.chain, target)
  {
    PlanIsExact(db.chain, db.completed, target);
    var history := SelectOlder(db.chain, db.Boundary(), Remaining(db.completed, target));
    if |history.value.commits| < 2 {
      assert false;
      return Err(NoAdjacentPair);
    }
    r := db.AddPendingBatch(history.value);
  }

  function Remaining(completed: nat, target: Option<nat>): nat
    requires target.Some? ==> completed < target.value
  {
    if target.None? then BATCH_LIMIT else Min(target.value - completed, BATCH_LIMIT)
  }

  // The planned selection starts at the frontier, stays within the target and the batch limit, and
  // holds at least one pair.
  lemma {:induction false} PlanIsExact(chain: seq<string>, completed: nat, target: Option<nat>)
    requires Distinct(chain) && completed + 1 < |chain| && (target.Some? ==> completed < target.value)
    ensures var r := SelectOlder(chain, chain[completed], Remaining(completed, target));
            && r.Ok? && NextPairs(chain, completed, r.value)
            && completed + |r.value.commits| - 1 <= Goal(chain, target)
            && r.value.commits[|r.value.commits| - 1] == chain[completed]
  {
    SelectionIsExact(chain, completed, Remaining(completed, target));
  }

  // The pending work exceeds the target.
  predicate TooSmall(target: Option<nat>, completed: nat, pending: Option<Batch>) {
    target.Some? && pending.Some? && target.value < completed + |pending.value.sealed|
  }

  // A bound on the durable writes that the rest of the history takes.
  ghost function Cost(db: AnalysisDatabase): int
    reads db
  {
    3 * (|db.chain| - 1 - db.completed) - if db.pending.None? then 0 else 1 + db.prefix
  }

  // One round of the loop: executes the pending batch or plans the next one; false ends the loop.
  method AdvanceOnce(db: AnalysisDatabase, target: Option<nat>, budget: nat)
      returns (r: Result<bool, HistoryError>, left: nat)
    requires db.Valid()
    modifies db
    ensures db.Valid() && old(db.completed) <= db.completed && old(db.log) <= db.log
    ensures TooSmall(target, old(db.completed), old(db.pending)) <==> r == Err(TargetTooSmall(old(db.Planned())))
    ensures r.Err? && r.error != Interrupted ==> TooSmall(target, old(db.completed), old(db.pending))
    ensures !(r.Ok? && r.value) && r != Err(Interrupted) ==> db.Tables() == old(db.Tables())
    ensures r == Err(Interrupted) ==> db.Planned() == old(db.Planned()) && budget < old(Cost(db))
    ensures r == Ok(false) ==> db.pending.None? && Goal(db.chain, target) <= db.completed
    ensures r == Ok(true) ==>
              && budget - left <= old(Cost(db)) - Cost(db)
              && (if old(db.pending).None? then db.pending.Some? && db.completed == old(db.completed)
                                                && db.Planned() <= Goal(db.chain, target)
                  else db.pending.None? && old(db.completed) < db.completed == old(db.Planned()))
  {
    left := budget;
    if db.pending.Some? {
      var pendingTotal: nat := db.completed + |db.pending.value.sealed|;
      if target.Some? && target.value < pendingTotal { return Err(TargetTooSmall(pendingTotal)), left; }
      var executed;
      executed, left := ExecutePendingBatch(db, budget);
      return if executed.Ok? then Ok(true) else Err(executed.error), left;
    }
    if db.exhausted || (target.Some? && db.completed >= target.value) { return Ok(false), left; }
    if budget == 0 { return Err(Interrupted), left; }
    left := budget - 1;
    var planned := PlanNextBatch(db, target);
    return Ok(true), left;
  }

  /** `_advance_analysis`: resumes pending work, then plans and executes batches until the target or
      the root is reached.  A normal return covers exactly what the target asks for or what was
      covered before; an interrupted one leaves a valid store; a process that lives long enough is
      not interrupted; planning never runs past the target. */
  method AdvanceAnalysis(db: AnalysisDatabase, target: Option<nat>, budget: nat) returns (r: Result<(), HistoryError>)
    requires db.Valid()
    modifies db
    ensures db.Valid() && old(db.completed) <= db.completed && old(db.log) <= db.log
    ensures db.Planned() <= Max(old(db.Planned()), Goal(db.chain, target))
    ensures r.Ok? ==> db.pending.None? && db.completed == Max(old(db.completed), Goal(db.chain, target))
    ensures TooSmall(target, old(db.completed), old(db.pending)) <==>
            r == Err(TargetTooSmall(old(db.Planned())))
    ensures r.Err? && r.error != Interrupted ==>
              r.error == TargetTooSmall(old(db.Planned())) && db.pending == old(db.pending) && db.log == old(db.log)
    ensures budget >= 3 * (|db.chain| - 1) ==> r != Err(Interrupted)
  {
    var left: nat := budget;
    ghost var goal := Goal(db.chain, target);
    ghost var first := true;
    while true
      invariant db.Valid() && old(db.completed) <= db.completed && old(db.log) <= db.log
      invariant first ==> db.Tables() == old(db.Tables())
      invariant !first ==> !TooSmall(target, old(db.completed), old(db.pending))
                           && db.Planned() <= Max(old(db.Planned()), goal)
                           && (if db.pending.Some? then db.Planned() <= goal
                               else db.completed <= Max(old(db.completed), goal))
      invariant budget - left <= old(Cost(db)) - Cost(db)
      decreases |db.chain| - db.completed, if db.pending.None? then 1 else 0
    {
      var more;
      more, left := AdvanceOnce(db, target, left);
      if more.Err? { return Err(more.error); }
      if !more.value { return Ok(()); }
      first := false;
    }
  }

  /** `_create_database`: a new analysis starts with one pending batch, at most as large as its
      target; it fails on a history without a pair and on a target of no pairs. */
  method CreateAnalysis(chain: seq<string>, target: Option<nat>) returns (r: Result<AnalysisDatabase, HistoryError>)
    requires Distinct(chain) && chain != []
    ensures r.Err? ==> r.error == if target == Some(0) then PairCountNotPositive else NoAdjacentPair
    ensures r.Err? <==> target == Some(0) || |chain| == 1
    ensures r.Ok? ==> && fresh(r.value) && r.value.Valid() && r.value.chain == chain && r.value.completed == 0
                      && r.value.log == [] && r.value.Planned() == Min(Goal(chain, target), BATCH_LIMIT)
  {
    var pairs := if target.None? then BATCH_LIMIT else Min(target.value, BATCH_LIMIT);
    if pairs == 0 { return Err(PairCountNotPositive); }
    SelectionIsExact(chain, 0, pairs);
    var history := SelectOlder(chain, chain[0], pairs);
    if |history.value.commits| < 2 { return Err(NoAdjacentPair); }
    var db := new AnalysisDatabase(chain, |history.value.commits| - 1);
    return Ok(db);
  }

  // ----- targets -----

  datatype Target = TotalPairs(count: int) | AdditionalPairs(count: int) | Through(commit: string) | AllPairs

  /** `_validate_target`. */
  predicate ValidTarget(t: Target) {
    match t
    case TotalPairs(count) => count > 0
    case AdditionalPairs(count) => count > 0
    case Through(commit) => commit != ""
    case AllPairs => true
  }

  /** `_effective_target`, and with nothing completed `_creation_target`: a relative target counts from the
      completed pairs. */
  function EffectiveTarget(completed: nat, t: Target): Target {
    if t.AdditionalPairs? then TotalPairs(completed + t.count) else t
  }

  /** `_desired_total_pairs` of an effective target; None asks for the whole history. */
  function DesiredTotal(chain: seq<string>, t: Target): Result<Option<nat>, HistoryError>
    requires ValidTarget(t) && !t.AdditionalPairs?
  {
    match t
    case TotalPairs(count) => Ok(Some(count))
    case AllPairs => Ok(None)
    case Through(commit) => if commit in chain then Ok(Some(IndexOf(chain, commit))) else Err(NotOnHistory)
  }

  /** The target means something for this history. */
  predicate Resolves(chain: seq<string>, t: Target) { ValidTarget(t) && (t.Through? ==> t.commit in chain) }

  /** The coverage that a target asks for when so many pairs are completed. */
  function GoalAt(chain: seq<string>, completed: nat, t: Target): nat
    requires chain != [] && Resolves(chain, t)
  {
    Goal(chain, DesiredTotal(chain, EffectiveTarget(completed, t)).value)
  }

  // ----- coverage over many invocations -----

  /** The durable coverage: committed pairs, and committed plus pending pairs. */
  datatype Coverage = Coverage(completed: nat, planned: nat)

  datatype Invocation = Invocation(target: Target, finished: bool, after: Coverage)

  /** A new analysis: its first batch is pending. */
  function FirstCoverage(chain: seq<string>, t: Target): Coverage
    requires chain != [] && Resolves(chain, t)
  {
    Coverage(0, Min(GoalAt(chain, 0, t), BATCH_LIMIT))
  }

  /** What one invocation may do to the coverage. */
  ghost predicate Effect(chain: seq<string>, before: Coverage, run: Invocation)
    requires chain != []
  {
    if Resolves(chain, run.target) then
      var goal := GoalAt(chain, before.completed, run.target);
      && before.completed <= run.after.completed <= run.after.planned <= Max(before.planned, goal)
      && (run.finished ==> run.after.completed == run.after.planned == Max(before.completed, goal))
    else
      !run.finished && run.after == before
  }

  ghost function CoverageOf(db: AnalysisDatabase): Coverage
    reads db
  {
    Coverage(db.completed, db.Planned())
  }

  /** Covering so many pairs is what the target asks for, when so many were covered before: all pairs of the
      history, a number of pairs, so many pairs more, or the pairs down to a commit; never more pairs than
      the history has and never fewer than before. */
  ghost predicate Reaches(chain: seq<string>, previous: nat, t: Target, covered: nat)
    requires chain != []
  {
    match t
    case AllPairs => covered == |chain| - 1
    case TotalPairs(count) =>
      covered == if count <= previous then previous else if count < |chain| - 1 then count else |chain| - 1
    case AdditionalPairs(count) =>
      covered == if previous + count < |chain| - 1 then previous + count else |chain| - 1
    case Through(commit) => exists i :: 0 <= i < |chain| && chain[i] == commit && covered == Max(previous, i)
  }

  lemma {:induction false} GoalsReach(chain: seq<string>, completed: nat, t: Target)
    requires chain != [] && completed <= |chain| - 1 && Resolves(chain, t)
    ensures Reaches(chain, completed, t, Max(completed, GoalAt(chain, completed, t)))
  {
    if t.Through? {
      var i := IndexOf(chain, t.commit);
      assert chain[i] == t.commit;
    }
  }

  /** The target asks for fewer pairs than are planned already. */
  ghost predicate AsksFewer(chain: seq<string>, completed: nat, t: Target, planned: nat) {
    match t
    case AllPairs => false
    case TotalPairs(count) => count < planned
    case AdditionalPairs(count) => completed + count < planned
    case Through(commit) => exists i :: 0 <= i < |chain| && i < planned && chain[i] == commit
  }

  lemma {:induction false} TooSmallIff(chain: seq<string>, completed: nat, t: Target, pending: Option<Batch>)
    requires Distinct(chain) && Resolves(chain, t)
    ensures TooSmall(DesiredTotal(chain, EffectiveTarget(completed, t)).value, completed, pending) <==>
            pending.Some? && AsksFewer(chain, completed, t, completed + |pending.value.sealed|)
  {
    if t.Through? {
      var i := IndexOf(chain, t.commit);
      assert chain[i] == t.commit;
    }
  }

  // Resolving the target against what is completed, and advancing.
  method AdvanceTo(db: AnalysisDatabase, target: Target, budget: nat) returns (r: Result<(), HistoryError>)
    requires db.Valid() && ValidTarget(target)
    modifies db
    ensures db.Valid() && old(db.log) <= db.log && (r.Ok? ==> db.pending.None?)
    ensures Effect(db.chain, old(CoverageOf(db)), Invocation(target, r.Ok?, CoverageOf(db)))
    ensures r == Err(NotOnHistory) <==> !Resolves(db.chain, target)
    ensures r.Ok? ==> Reaches(db.chain, old(db.completed), target, db.completed)
    ensures Resolves(db.chain, target) ==>
              (r == Err(TargetTooSmall(old(db.Planned()))) <==>
               old(db.pending).Some? && AsksFewer(db.chain, old(db.completed), target, old(db.Planned())))
    ensures r.Err? ==> r.error in {NotOnHistory, Interrupted, TargetTooSmall(old(db.Planned()))}
    ensures budget >= 3 * (|db.chain| - 1) ==> r != Err(Interrupted)
  {
    var desired := DesiredTotal(db.chain, EffectiveTarget(db.completed, target));
    if desired.Err? { return Err(desired.error); }
    GoalsReach(db.chain, db.completed, target);
    TooSmallIff(db.chain, db.completed, target, db.pending);
    r := AdvanceAnalysis(db, desired.value, budget);
  }

  /** `analyze_repository`: creates the analysis or reopens it, resolves the target against what is
      completed, and advances.  A normal return covers what the target asks for; an unusable target changes
      nothing. */
  method AnalyzeRepository(existing: AnalysisDatabase?, chain: seq<string>, target: Target, budget: nat)
      returns (r: Result<(), HistoryError>, db: AnalysisDatabase?)
    requires Distinct(chain) && chain != []
    requires existing != null ==> existing.Valid() && existing.chain == chain
    modifies if existing == null then {} else {existing}
    ensures existing != null ==> db == existing && old(existing.log) <= existing.log
    ensures existing == null && db != null ==> fresh(db) && Resolves(chain, target)
    ensures db == null ==> r.Err?
    ensures db != null ==>
              && db.Valid() && db.chain == chain && (r.Ok? ==> db.pending.None?)
              && var before := if existing == null then FirstCoverage(chain, target) else old(CoverageOf(existing));
                 Effect(chain, before, Invocation(target, r.Ok?, CoverageOf(db)))
    ensures r == Err(InvalidTarget) <==>
            || (target.TotalPairs? && target.count <= 0) || (target.AdditionalPairs? && target.count <= 0)
            || target == Through("")
    ensures r == Err(NotOnHistory) <==> target.Through? && target.commit != "" && target.commit !in chain
    ensures r.Ok? ==> Reaches(chain, if existing == null then 0 else old(existing.completed), target, db.completed)
    ensures existing != null && Resolves(chain, target) ==>
              (r == Err(TargetTooSmall(old(existing.Planned()))) <==>
               && old(existing.pending).Some?
               && AsksFewer(chain, old(existing.completed), target, old(existing.Planned())))
    ensures budget >= 3 * (|chain| - 1) ==> r != Err(Interrupted)
    ensures existing == null && Resolves(chain, target) && budget >= 3 * (|chain| - 1) ==>
              (r.Ok? <==> |chain| >= 2 && target != Through(chain[0]))
  {
    db := existing;
    if !ValidTarget(target) { return Err(InvalidTarget), db; }
    if db == null {
      var wanted := DesiredTotal(chain, EffectiveTarget(0, target));
      if wanted.Err? { return Err(wanted.error), null; }
      var created := CreateAnalysis(chain, wanted.value);
      if created.Err? { return Err(created.error), null; }
      db := created.value;
    }
    r := AdvanceTo(db, target, budget);
  }

  /** The invocations happened one after the other, from this coverage on. */
  ghost predicate Invocations(chain: seq<string>, start: Coverage, runs: seq<Invocation>)
    requires chain != []
    decreases |runs|
  {
    runs == [] || (Effect(chain, start, runs[0]) && Invocations(chain, runs[0].after, runs[1..]))
  }

  function Final(start: Coverage, runs: seq<Invocation>): Coverage
    decreases |runs|
  {
    if runs == [] then start else Final(runs[0].after, runs[1..])
  }

  // No invocation asks for more than the limit.
  ghost predicate AskAtMost(chain: seq<string>, start: Coverage, runs: seq<Invocation>, limit: nat)
    requires chain != []
    decreases |runs|
  {
    runs == [] ||
    (&& (Resolves(chain, runs[0].target) ==> GoalAt(chain, start.completed, runs[0].target) <= limit)
     && AskAtMost(chain, runs[0].after, runs[1..], limit))
  }

  lemma {:induction false} CoverageIsBounded(chain: seq<string>, start: Coverage, runs: seq<Invocation>, limit: nat)
    requires chain != [] && Invocations(chain, start, runs) && AskAtMost(chain, start, runs, limit)
    requires start.completed <= start.planned <= limit
    ensures start.completed <= Final(start, runs).completed <= Final(start, runs).planned <= limit
    decreases |runs|
  {
    if runs != [] { CoverageIsBounded(chain, runs[0].after, runs[1..], limit); }
  }

  /** Path independence: when a target asks for at least as much as every earlier one did, an invocation
      that returns normally covers exactly that, or the whole history, however the work was split over
      earlier invocations and wherever those were interrupted. */
  lemma {:induction false} CoverageIsPathIndependent(chain: seq<string>, first: Target, earlier: seq<Invocation>,
                                                     last: Invocation)
    requires |chain| >= 2 && Resolves(chain, first) && Invocations(chain, FirstCoverage(chain, first), earlier)
    requires var before := Final(FirstCoverage(chain, first), earlier);
             && Effect(chain, before, last) && last.finished && Resolves(chain, last.target)
             && GoalAt(chain, 0, first) <= GoalAt(chain, before.completed, last.target)
             && AskAtMost(chain, FirstCoverage(chain, first), earlier, GoalAt(chain, before.completed, last.target))
    ensures var goal := GoalAt(chain, Final(FirstCoverage(chain, first), earlier).completed, last.target);
            last.after == Coverage(goal, goal)
  {
    var start := FirstCoverage(chain, first);
    CoverageIsBounded(chain, start, earlier, GoalAt(chain, Final(start, earlier).completed, last.target));
  }

  /** A relative target that is reached extends the coverage by exactly that many pairs, or to the root. */
  lemma {:induction false} AdditionalPairsExtendCoverage(chain: seq<string>, before: Coverage, run: Invocation)
    requires chain != [] && before.completed <= |chain| - 1 && Effect(chain, before, run)
    requires run.finished && run.target.AdditionalPairs?
    ensures run.target.count > 0
    ensures var covered := Min(before.completed + run.target.count, |chain| - 1);
            run.after == Coverage(covered, covered)
  {
    assert Resolves(chain, run.target);
  }

  // The pairs that relative targets ask for together.
  function Asked(runs: seq<Invocation>): int {
    if runs == [] then 0
    else (if runs[0].target.AdditionalPairs? then runs[0].target.count else 0) + Asked(runs[1..])
  }

  /** Relative targets add up: invocations that return normally extend the coverage by exactly the pairs
      they ask for together, or to the root. */
  lemma {:induction false} RelativeTargetsAddUp(chain: seq<string>, start: Coverage, runs: seq<Invocation>)
    requires chain != [] && start.completed <= |chain| - 1 && Invocations(chain, start, runs)
    requires forall run :: run in runs ==> run.finished && run.target.AdditionalPairs?
    ensures Asked(runs) >= |runs|
    ensures Final(start, runs).completed == Min(start.completed + Asked(runs), |chain| - 1)
    ensures runs != [] ==> Final(start, runs).planned == Final(start, runs).completed
    decreases |runs|
  {
    if runs != [] {
      assert runs[0] in runs && forall run :: run in runs[1..] ==> run in runs;
      AdditionalPairsExtendCoverage(chain, start, runs[0]);
      RelativeTargetsAddUp(chain, runs[0].after, runs[1..]);
    }
  }

  /** A relative target is not idempotent: repeating it after an interruption covers what one run would have
      covered exactly when the interrupted run committed nothing or the root is reached. */
  lemma {:induction false} RepeatedRelativeTargetIff(chain: seq<string>, before: Coverage, a: Invocation, b: Invocation)
    requires chain != [] && before.completed <= before.planned <= |chain| - 1
    requires a.target == b.target && a.target.AdditionalPairs? && ValidTarget(a.target)
    requires Effect(chain, before, a) && Effect(chain, a.after, b) && b.finished
    ensures b.after.completed == GoalAt(chain, before.completed, a.target) <==>
            a.after.completed == before.completed || before.completed + a.target.count >= |chain| - 1
  {
  }

  /** Whenever no batch is pending, the published pairs are exactly the covered pairs of the chain,
      each published once, and every batch had at most a hundred pairs. */
  lemma {:induction false} PublishedPairsAreTheCoveredOnes(db: AnalysisDatabase)
    requires db.Valid() && db.pending.None?
    ensures multiset(db.log) == multiset(Pairs(db.chain, 0, db.completed)) && Distinct(db.log)
    ensures forall k :: 0 <= k < |db.sizes| ==> 1 <= db.sizes[k] <= 100
  {
    BatchesTileTheChain(db.chain, db.sizes);
    PairsAreDistinct(db.chain, db.completed);
    assert db.log == LogOf(db.chain, db.sizes);
    DistinctIsMultisetProperty(Pairs(db.chain, 0, db.completed), db.log);
  }
}
