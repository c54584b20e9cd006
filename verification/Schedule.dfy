/** The position-balanced schedule of performance/benchmark.py (117-166).  The random generator is left
    out: its shuffles are arbitrary permutations, given as functions of what is being shuffled. */
module Schedule {
  import opened Wrappers
  import opened Ordering

  datatype Phase = Warmup | Measured

  datatype Entry = Entry(sequence: nat, phase: Phase, repetition: nat, workload: string, variant: string, position: nat)

  datatype ScheduleError = NothingToSchedule | BadCounts | TooFewRepetitions

  /** The shuffles: an order of the variants for each workload, and an order of the workloads for each
      warmup and each measured repetition. */
  datatype Shuffles = Shuffles(base: map<string, seq<string>>, warmups: seq<seq<string>>, measured: seq<seq<string>>)

  function Orders(s: Shuffles, phase: Phase): seq<seq<string>> { if phase.Warmup? then s.warmups else s.measured }

  ghost predicate AllPermute(orders: seq<seq<string>>, workloads: seq<string>) {
    forall k :: 0 <= k < |orders| ==> multiset(orders[k]) == multiset(workloads)
  }

  ghost predicate Permutes(s: Shuffles, workloads: seq<string>, variants: seq<string>) {
    && (forall w :: w in workloads ==> w in s.base && multiset(s.base[w]) == multiset(variants))
    && AllPermute(s.warmups, workloads) && AllPermute(s.measured, workloads)
  }

  // The workloads of an order all have v variants to run.
  predicate Ready(base: map<string, seq<string>>, order: seq<string>, v: nat) {
    v > 0 && forall k :: 0 <= k < |order| ==> order[k] in base && |base[order[k]]| == v
  }

  predicate AllReady(base: map<string, seq<string>>, orders: seq<seq<string>>, v: nat) {
    forall k :: 0 <= k < |orders| ==> Ready(base, orders[k], v)
  }

  lemma {:induction false} PermutationsAreReady(s: Shuffles, workloads: seq<string>, variants: seq<string>,
                                                phase: Phase)
    requires Permutes(s, workloads, variants) && variants != []
    ensures AllReady(s.base, Orders(s, phase), |variants|)
    ensures forall k :: 0 <= k < |Orders(s, phase)| ==> |Orders(s, phase)[k]| == |workloads|
  {
    var orders := Orders(s, phase);
    assert AllPermute(orders, workloads);
    forall k | 0 <= k < |orders| ensures Ready(s.base, orders[k], |variants|) && |orders[k]| == |workloads| {
      SameElements(orders[k], workloads);
      forall i | 0 <= i < |orders[k]| ensures orders[k][i] in s.base && |s.base[orders[k][i]]| == |variants| {
        assert orders[k][i] in workloads;
        SameElements(s.base[orders[k][i]], variants);
      }
    }
  }

  // ----- the schedule -----

  /** x % n, by repeated subtraction: the solver need not reason about division wherever it is used. */
  function Remainder(x: nat, n: nat): (r: nat)
    requires n > 0
    ensures r < n
  {
    if x < n then x else Remainder(x - n, n)
  }

  lemma {:induction false} RemainderIsModulo(x: nat, n: nat)
    requires n > 0
    ensures Remainder(x, n) == x % n
  {
    if x >= n {
      RemainderIsModulo(x - n, n);
      OneLess(x - n, n);
    }
  }

  lemma {:induction false} OneLess(y: nat, n: nat)
    requires n > 0
    ensures (y + n) % n == y % n
  {
    var q, r := y / n, y % n;
    assert y == q * n + r;
    Distribute(q, 1, n);
    DivisionIsUnique(y + n, n, q + 1, r);
  }

  /** The variants of a block: the base order rotated by the repetition. */
  function Rotated(base: seq<string>, repetition: nat): (r: seq<string>)
    requires base != [] && repetition > 0
    ensures |r| == |base|
  {
    var offset := Remainder(repetition - 1, |base|);
    base[offset..] + base[..offset]
  }

  lemma {:induction false} RotatedAt(base: seq<string>, repetition: nat, p: nat)
    requires base != [] && repetition > 0 && p < |base|
    ensures Rotated(base, repetition)[p] == base[(repetition - 1 + p) % |base|]
  {
    RemainderIsModulo(repetition - 1, |base|);
    ModOfSum(repetition - 1, p, |base|);
  }

  lemma {:induction false} ModOfSum(k: nat, p: nat, n: nat)
    requires p < n
    ensures (k + p) % n == if k % n + p < n then k % n + p else k % n + p - n
  {
    var q := k / n;
    assert k == q * n + k % n;
    if k % n + p < n {
      DivisionIsUnique(k + p, n, q, k % n + p);
    } else {
      DivisionIsUnique(k + p, n, q + 1, k % n + p - n);
    }
  }

  lemma {:induction false} DivisionIsUnique(x: nat, n: nat, q: nat, r: nat)
    requires r < n && x == q * n + r
    ensures x % n == r && x / n == q
  {
    var d := q - x / n;
    assert d * n == x % n - r;
    Multiple(d, n);
  }

  lemma {:induction false} Multiple(d: int, n: int)
    requires n >= 0
    ensures d > 0 ==> d * n >= n
    ensures d < 0 ==> d * n <= -n
  {
    if d > 0 {
      assert d * n >= n;
    } else if d < 0 {
      assert d * n <= -n;
    }
  }

  // The first n entries of a block.
  function BlockEntries(start: nat, phase: Phase, repetition: nat, workload: string, ordered: seq<string>,
                        n: nat): (r: seq<Entry>)
    requires n <= |ordered|
    ensures |r| == n
    ensures forall p :: 0 <= p < n ==> r[p] == Entry(start + p + 1, phase, repetition, workload, ordered[p], p + 1)
  {
    seq(n, p requires 0 <= p < n => Entry(start + p + 1, phase, repetition, workload, ordered[p], p + 1))
  }

  // The first k blocks of a repetition.
  function RepetitionEntries(base: map<string, seq<string>>, v: nat, order: seq<string>, start: nat, phase: Phase,
                             repetition: nat, k: nat): seq<Entry>
    requires repetition > 0 && k <= |order| && Ready(base, order, v)
  {
    if k == 0 then [] else
      var before := RepetitionEntries(base, v, order, start, phase, repetition, k - 1);
      before + BlockEntries(start + |before|, phase, repetition, order[k - 1],
                            Rotated(base[order[k - 1]], repetition), v)
  }

  // The first n repetitions of a phase.
  function PhaseEntries(base: map<string, seq<string>>, v: nat, orders: seq<seq<string>>, start: nat, phase: Phase,
                        n: nat): seq<Entry>
    requires n <= |orders| && AllReady(base, orders, v)
  {
    if n == 0 then [] else
      var before := PhaseEntries(base, v, orders, start, phase, n - 1);
      before + RepetitionEntries(base, v, orders[n - 1], start + |before|, phase, n, |orders[n - 1]|)
  }

  function ScheduleOf(s: Shuffles, v: nat): seq<Entry>
    requires AllReady(s.base, s.warmups, v) && AllReady(s.base, s.measured, v)
  {
    var before := PhaseEntries(s.base, v, s.warmups, 0, Warmup, |s.warmups|);
    before + PhaseEntries(s.base, v, s.measured, |before|, Measured, |s.measured|)
  }

  /** `build_schedule`, with as many drawn orders as repetitions. */
  method BuildSchedule(s: Shuffles, workloads: seq<string>, variants: seq<string>, warmups: int, repetitions: int)
      returns (r: Result<seq<Entry>, ScheduleError>)
    requires Permutes(s, workloads, variants)
    requires warmups >= 0 ==> |s.warmups| == warmups
    requires repetitions >= 0 ==> |s.measured| == repetitions
    ensures r.Err? ==> r.error == if workloads == [] || variants == [] then NothingToSchedule
                                  else if warmups < 0 || repetitions < 1 then BadCounts else TooFewRepetitions
    ensures r.Err? <==> workloads == [] || variants == [] || warmups < 0 || repetitions < 1
                        || (|variants| > 1 && repetitions < |variants|)
    ensures r.Ok? ==> && AllReady(s.base, s.warmups, |variants|) && AllReady(s.base, s.measured, |variants|)
                      && r.value == ScheduleOf(s, |variants|)
  {
    if workloads == [] || variants == [] { return Err(NothingToSchedule); }
    if warmups < 0 || repetitions < 1 { return Err(BadCounts); }
    if |variants| > 1 && repetitions < |variants| { return Err(TooFewRepetitions); }
    PermutationsAreReady(s, workloads, variants, Warmup);
    PermutationsAreReady(s, workloads, variants, Measured);
    var first := SchedulePhase(s.base, |variants|, s.warmups, [], Warmup);
    var all := SchedulePhase(s.base, |variants|, s.measured, first, Measured);
    return Ok(all);
  }

  lemma {:induction false} PhaseStep(base: map<string, seq<string>>, v: nat, orders: seq<seq<string>>, so: seq<Entry>,
                                     phase: Phase, n: nat)
    requires n < |orders| && AllReady(base, orders, v)
    ensures var before := so + PhaseEntries(base, v, orders, |so|, phase, n);
            so + PhaseEntries(base, v, orders, |so|, phase, n + 1) ==
            before + RepetitionEntries(base, v, orders[n], |before|, phase, n + 1, |orders[n]|)
  {
    var before := PhaseEntries(base, v, orders, |so|, phase, n);
    var last := RepetitionEntries(base, v, orders[n], |so| + |before|, phase, n + 1, |orders[n]|);
    assert PhaseEntries(base, v, orders, |so|, phase, n + 1) == before + last;
    Associative(so, before, last);
  }

  lemma {:induction false} Associative(a: seq<Entry>, b: seq<Entry>, c: seq<Entry>)
    ensures a + (b + c) == (a + b) + c
  {
  }

  lemma {:induction false} RepetitionStep(base: map<string, seq<string>>, v: nat, order: seq<string>, so: seq<Entry>,
                                          phase: Phase, repetition: nat, k: nat)
    requires repetition > 0 && k < |order| && Ready(base, order, v)
    ensures var before := so + RepetitionEntries(base, v, order, |so|, phase, repetition, k);
            so + RepetitionEntries(base, v, order, |so|, phase, repetition, k + 1) ==
            before + BlockEntries(|before|, phase, repetition, order[k], Rotated(base[order[k]], repetition), v)
  {
    var before := RepetitionEntries(base, v, order, |so|, phase, repetition, k);
    Associative(so, before,
                BlockEntries(|so| + |before|, phase, repetition, order[k], Rotated(base[order[k]], repetition), v));
  }

  // The loop over one phase, appending to the schedule so far.
  method SchedulePhase(base: map<string, seq<string>>, v: nat, orders: seq<seq<string>>, so: seq<Entry>, phase: Phase)
      returns (r: seq<Entry>)
    requires AllReady(base, orders, v)
    ensures r == so + PhaseEntries(base, v, orders, |so|, phase, |orders|)
  {
    r := so;
    for n := 0 to |orders|
      invariant r == so + PhaseEntries(base, v, orders, |so|, phase, n)
    {
      PhaseStep(base, v, orders, so, phase, n);
      r := ScheduleRepetition(base, v, orders[n], r, phase, n + 1);
    }
  }

  method ScheduleRepetition(base: map<string, seq<string>>, v: nat, order: seq<string>, so: seq<Entry>, phase: Phase,
                            repetition: nat) returns (r: seq<Entry>)
    requires repetition > 0 && Ready(base, order, v)
    ensures r == so + RepetitionEntries(base, v, order, |so|, phase, repetition, |order|)
  {
    r := so;
    for k := 0 to |order|
      invariant r == so + RepetitionEntries(base, v, order, |so|, phase, repetition, k)
    {
      RepetitionStep(base, v, order, so, phase, repetition, k);
      r := ScheduleBlock(base[order[k]], r, phase, repetition, order[k]);
    }
  }

  method ScheduleBlock(base: seq<string>, so: seq<Entry>, phase: Phase, repetition: nat, workload: string)
      returns (r: seq<Entry>)
    requires repetition > 0 && base != []
    ensures r == so + BlockEntries(|so|, phase, repetition, workload, Rotated(base, repetition), |base|)
  {
    var ordered := Rotated(base, repetition);
    r := so;
    for p := 0 to |ordered|
      invariant r == so + BlockEntries(|so|, phase, repetition, workload, ordered, p)
    {
      r := r + [Entry(|so| + p + 1, phase, repetition, workload, ordered[p], p + 1)];
    }
  }

  // ----- sequence numbers -----

  ghost predicate NumberedFrom(entries: seq<Entry>, start: nat) {
    forall i :: 0 <= i < |entries| ==> entries[i].sequence == start + i + 1
  }

  lemma {:induction false} RepetitionNumbers(base: map<string, seq<string>>, v: nat, order: seq<string>, start: nat,
                                             phase: Phase, repetition: nat, k: nat)
    requires repetition > 0 && k <= |order| && Ready(base, order, v)
    ensures NumberedFrom(RepetitionEntries(base, v, order, start, phase, repetition, k), start)
    ensures |RepetitionEntries(base, v, order, start, phase, repetition, k)| == k * v
  {
    if k > 0 {
      RepetitionNumbers(base, v, order, start, phase, repetition, k - 1);
      Distribute(k - 1, 1, v);
    }
  }

  lemma {:induction false} PhaseNumbers(base: map<string, seq<string>>, v: nat, orders: seq<seq<string>>, start: nat,
                                        phase: Phase, n: nat, w: nat)
    requires n <= |orders| && AllReady(base, orders, v) && forall k :: 0 <= k < |orders| ==> |orders[k]| == w
    ensures NumberedFrom(PhaseEntries(base, v, orders, start, phase, n), start)
    ensures |PhaseEntries(base, v, orders, start, phase, n)| == n * (w * v)
  {
    if n > 0 {
      PhaseNumbers(base, v, orders, start, phase, n - 1, w);
      var done := |PhaseEntries(base, v, orders, start, phase, n - 1)|;
      RepetitionNumbers(base, v, orders[n - 1], start + done, phase, n, w);
      Distribute(n - 1, 1, w * v);
    }
  }

  /** The sequence numbers are 1, 2, ..., (warmups + repetitions) * workloads * variants. */
  lemma {:induction false} SequenceNumbersAreContiguous(s: Shuffles, workloads: seq<string>, variants: seq<string>)
    requires Permutes(s, workloads, variants) && variants != []
    requires AllReady(s.base, s.warmups, |variants|) && AllReady(s.base, s.measured, |variants|)
    ensures var all := ScheduleOf(s, |variants|);
            && |all| == (|s.warmups| + |s.measured|) * (|workloads| * |variants|)
            && forall i :: 0 <= i < |all| ==> all[i].sequence == i + 1
  {
    var v, w := |variants|, |workloads|;
    PermutationsAreReady(s, workloads, variants, Warmup);
    PermutationsAreReady(s, workloads, variants, Measured);
    PhaseNumbers(s.base, v, s.warmups, 0, Warmup, |s.warmups|, w);
    var before := PhaseEntries(s.base, v, s.warmups, 0, Warmup, |s.warmups|);
    PhaseNumbers(s.base, v, s.measured, |before|, Measured, |s.measured|, w);
    Distribute(|s.warmups|, |s.measured|, w * v);
  }

  lemma {:induction false} Distribute(a: nat, b: nat, c: nat)
    ensures (a + b) * c == a * c + b * c
  {
  }

  // ----- blocks -----

  // The block of entry i starts at its position before it, and runs the rotated base order.
  ghost predicate InBlock(base: map<string, seq<string>>, v: nat, all: seq<Entry>, i: nat)
    requires i < |all|
  {
    var e := all[i];
    && 1 <= e.position <= v && e.position - 1 <= i && i - (e.position - 1) + v <= |all|
    && e.repetition > 0 && e.workload in base && base[e.workload] != []
    && BlockOf(base[e.workload], e, all[i - (e.position - 1)..i - (e.position - 1) + v])
  }

  ghost predicate BlockOf(base: seq<string>, e: Entry, block: seq<Entry>)
    requires base != [] && e.repetition > 0
  {
    && |block| == |base|
    && forall q :: 0 <= q < |block| ==>
         && SameLabel(e, block[q]) && block[q].position == q + 1
         && block[q].variant == Rotated(base, e.repetition)[q]
  }

  predicate SameLabel(e: Entry, f: Entry) {
    e.phase == f.phase && e.repetition == f.repetition && e.workload == f.workload
  }

  // Entries with one label are in one block.
  ghost predicate Together(all: seq<Entry>, i: nat, j: nat)
    requires i < |all| && j < |all|
  {
    SameLabel(all[i], all[j]) ==> i - all[i].position == j - all[j].position
  }

  ghost predicate InBlocks(base: map<string, seq<string>>, v: nat, all: seq<Entry>) {
    && (forall i :: 0 <= i < |all| ==> InBlock(base, v, all, i))
    && (forall i, j :: 0 <= i < |all| && 0 <= j < |all| ==> Together(all, i, j))
  }

  ghost predicate NoLabelShared(a: seq<Entry>, b: seq<Entry>) {
    forall i, j :: 0 <= i < |a| && 0 <= j < |b| ==> !SameLabel(a[i], b[j])
  }

  lemma {:induction false} AppendBlocks(base: map<string, seq<string>>, v: nat, a: seq<Entry>, b: seq<Entry>)
    requires InBlocks(base, v, a) && InBlocks(base, v, b) && NoLabelShared(a, b)
    ensures InBlocks(base, v, a + b)
  {
    var all := a + b;
    forall i | 0 <= i < |all| ensures InBlock(base, v, all, i) {
      if i < |a| { AppendLeft(base, v, a, b, i); } else { AppendRight(base, v, a, b, i - |a|); }
    }
    forall i, j | 0 <= i < |all| && 0 <= j < |all| ensures Together(all, i, j) {
      if i < |a| && j < |a| {
        assert Together(a, i, j);
      } else if i >= |a| && j >= |a| {
        assert Together(b, i - |a|, j - |a|);
      } else if i < |a| {
        assert !SameLabel(a[i], b[j - |a|]);
      } else {
        assert !SameLabel(a[j], b[i - |a|]);
      }
    }
  }

  lemma {:induction false} AppendLeft(base: map<string, seq<string>>, v: nat, a: seq<Entry>, b: seq<Entry>, i: nat)
    requires i < |a| && InBlock(base, v, a, i)
    ensures InBlock(base, v, a + b, i)
  {
    var first := i - (a[i].position - 1);
    assert (a + b)[first..first + v] == a[first..first + v];
  }

  lemma {:induction false} AppendRight(base: map<string, seq<string>>, v: nat, a: seq<Entry>, b: seq<Entry>, i: nat)
    requires i < |b| && InBlock(base, v, b, i)
    ensures InBlock(base, v, a + b, |a| + i)
  {
    var first := i - (b[i].position - 1);
    assert (a + b)[|a| + first..|a| + first + v] == b[first..first + v];
  }

  lemma {:induction false} BlockShape(own: seq<string>, start: nat, phase: Phase, repetition: nat, w: string, i: nat)
    requires own != [] && repetition > 0 && i < |own|
    ensures var block := BlockEntries(start, phase, repetition, w, Rotated(own, repetition), |own|);
            block[i].position == i + 1 && BlockOf(own, block[i], block)
  {
  }

  lemma {:induction false} OneBlock(base: map<string, seq<string>>, v: nat, start: nat, phase: Phase, repetition: nat,
                                    w: string)
    requires repetition > 0 && w in base && |base[w]| == v && v > 0
    ensures InBlocks(base, v, BlockEntries(start, phase, repetition, w, Rotated(base[w], repetition), v))
  {
    var block := BlockEntries(start, phase, repetition, w, Rotated(base[w], repetition), v);
    assert block[0..v] == block;
    forall i | 0 <= i < |block| ensures block[i].position == i + 1 && InBlock(base, v, block, i) {
      BlockShape(base[w], start, phase, repetition, w, i);
    }
  }

  lemma {:induction false} BlockLabels(start: nat, phase: Phase, repetition: nat, w: string, ordered: seq<string>,
                                       n: nat)
    requires n <= |ordered|
    ensures OfRepetition(BlockEntries(start, phase, repetition, w, ordered, n), phase, repetition, {w})
  {
  }

  // All entries belong to one repetition and to one of these workloads.
  ghost predicate OfRepetition(r: seq<Entry>, phase: Phase, repetition: nat, workloads: set<string>) {
    forall e :: e in r ==> e.phase == phase && e.repetition == repetition && e.workload in workloads
  }

  ghost predicate OfPhase(r: seq<Entry>, phase: Phase, n: nat) {
    forall e :: e in r ==> e.phase == phase && 1 <= e.repetition <= n
  }

  lemma {:induction false} OtherWorkloads(a: seq<Entry>, b: seq<Entry>, phase: Phase, repetition: nat,
                                          workloads: set<string>, w: string)
    requires OfRepetition(a, phase, repetition, workloads) && OfRepetition(b, phase, repetition, {w}) && w !in workloads
    ensures NoLabelShared(a, b)
  {
    forall i, j | 0 <= i < |a| && 0 <= j < |b| ensures !SameLabel(a[i], b[j]) { assert a[i] in a && b[j] in b; }
  }

  lemma {:induction false} OtherRepetitions(a: seq<Entry>, b: seq<Entry>, phase: Phase, n: nat, workloads: set<string>)
    requires OfPhase(a, phase, n) && OfRepetition(b, phase, n + 1, workloads)
    ensures NoLabelShared(a, b) && OfPhase(a + b, phase, n + 1)
  {
    forall i, j | 0 <= i < |a| && 0 <= j < |b| ensures !SameLabel(a[i], b[j]) { assert a[i] in a && b[j] in b; }
  }

  lemma {:induction false} OtherPhases(a: seq<Entry>, b: seq<Entry>, m: nat, n: nat)
    requires OfPhase(a, Warmup, m) && OfPhase(b, Measured, n)
    ensures NoLabelShared(a, b)
  {
    forall i, j | 0 <= i < |a| && 0 <= j < |b| ensures !SameLabel(a[i], b[j]) { assert a[i] in a && b[j] in b; }
  }

  // The workloads of the first k blocks.
  function FirstOf(order: seq<string>, k: nat): set<string>
    requires k <= |order|
  {
    if k == 0 then {} else FirstOf(order, k - 1) + {order[k - 1]}
  }

  lemma {:induction false} NotFirst(order: seq<string>, k: nat, j: nat)
    requires k <= j < |order| && Distinct(order)
    ensures order[j] !in FirstOf(order, k)
  {
    if k > 0 { NotFirst(order, k - 1, j); }
  }

  lemma {:induction false} RepetitionLabels(base: map<string, seq<string>>, v: nat, order: seq<string>, start: nat,
                                            phase: Phase, repetition: nat, k: nat)
    requires repetition > 0 && k <= |order| && Ready(base, order, v)
    ensures OfRepetition(RepetitionEntries(base, v, order, start, phase, repetition, k), phase, repetition,
                         FirstOf(order, k))
  {
    if k > 0 {
      RepetitionLabels(base, v, order, start, phase, repetition, k - 1);
      var before := RepetitionEntries(base, v, order, start, phase, repetition, k - 1);
      BlockLabels(start + |before|, phase, repetition, order[k - 1], Rotated(base[order[k - 1]], repetition), v);
    }
  }

  lemma {:induction false} RepetitionBlocks(base: map<string, seq<string>>, v: nat, order: seq<string>, start: nat,
                                            phase: Phase, repetition: nat, k: nat)
    requires repetition > 0 && k <= |order| && Ready(base, order, v) && Distinct(order)
    ensures InBlocks(base, v, RepetitionEntries(base, v, order, start, phase, repetition, k))
  {
    if k > 0 {
      RepetitionBlocks(base, v, order, start, phase, repetition, k - 1);
      RepetitionLabels(base, v, order, start, phase, repetition, k - 1);
      NotFirst(order, k - 1, k - 1);
      AddBlock(base, v, RepetitionEntries(base, v, order, start, phase, repetition, k - 1), start, phase, repetition,
               FirstOf(order, k - 1), order[k - 1]);
    }
  }

  // A repetition grows by the block of a workload that has not run in it.
  lemma {:induction false} AddBlock(base: map<string, seq<string>>, v: nat, before: seq<Entry>, start: nat,
                                    phase: Phase, repetition: nat, workloads: set<string>, w: string)
    requires repetition > 0 && v > 0 && w in base && |base[w]| == v && w !in workloads
    requires InBlocks(base, v, before) && OfRepetition(before, phase, repetition, workloads)
    ensures InBlocks(base, v,
                     before + BlockEntries(start + |before|, phase, repetition, w, Rotated(base[w], repetition), v))
  {
    var block := BlockEntries(start + |before|, phase, repetition, w, Rotated(base[w], repetition), v);
    OneBlock(base, v, start + |before|, phase, repetition, w);
    BlockLabels(start + |before|, phase, repetition, w, Rotated(base[w], repetition), v);
    OtherWorkloads(before, block, phase, repetition, workloads, w);
    AppendBlocks(base, v, before, block);
  }

  ghost predicate AllDistinct(orders: seq<seq<string>>) { forall k :: 0 <= k < |orders| ==> Distinct(orders[k]) }

  lemma {:induction false} PhaseBlocks(base: map<string, seq<string>>, v: nat, orders: seq<seq<string>>, start: nat,
                                       phase: Phase, n: nat)
    requires n <= |orders| && AllReady(base, orders, v) && AllDistinct(orders)
    ensures InBlocks(base, v, PhaseEntries(base, v, orders, start, phase, n))
    ensures OfPhase(PhaseEntries(base, v, orders, start, phase, n), phase, n)
  {
    if n > 0 {
      PhaseBlocks(base, v, orders, start, phase, n - 1);
      AddRepetition(base, v, PhaseEntries(base, v, orders, start, phase, n - 1), start, phase, n, orders[n - 1]);
    }
  }

  lemma {:induction false} AddRepetition(base: map<string, seq<string>>, v: nat, before: seq<Entry>, start: nat,
                                         phase: Phase, n: nat, order: seq<string>)
    requires n > 0 && Ready(base, order, v) && Distinct(order)
    requires InBlocks(base, v, before) && OfPhase(before, phase, n - 1)
    ensures var all := before + RepetitionEntries(base, v, order, start + |before|, phase, n, |order|);
            InBlocks(base, v, all) && OfPhase(all, phase, n)
  {
    var last := RepetitionEntries(base, v, order, start + |before|, phase, n, |order|);
    RepetitionBlocks(base, v, order, start + |before|, phase, n, |order|);
    RepetitionLabels(base, v, order, start + |before|, phase, n, |order|);
    OtherRepetitions(before, last, phase, n - 1, FirstOf(order, |order|));
    AppendBlocks(base, v, before, last);
  }

  lemma {:induction false} ScheduleBlocks(s: Shuffles, workloads: seq<string>, v: nat)
    requires AllPermute(s.warmups, workloads) && AllPermute(s.measured, workloads) && Distinct(workloads)
    requires AllReady(s.base, s.warmups, v) && AllReady(s.base, s.measured, v)
    ensures InBlocks(s.base, v, ScheduleOf(s, v))
  {
    forall k | 0 <= k < |s.warmups|
      ensures Distinct(s.warmups[k])
    {
      DistinctIsMultisetProperty(workloads, s.warmups[k]);
    }
    forall k | 0 <= k < |s.measured|
      ensures Distinct(s.measured[k])
    {
      DistinctIsMultisetProperty(workloads, s.measured[k]);
    }
    PhaseBlocks(s.base, v, s.warmups, 0, Warmup, |s.warmups|);
    var before := PhaseEntries(s.base, v, s.warmups, 0, Warmup, |s.warmups|);
    PhaseBlocks(s.base, v, s.measured, |before|, Measured, |s.measured|);
    var after := PhaseEntries(s.base, v, s.measured, |before|, Measured, |s.measured|);
    OtherPhases(before, after, |s.warmups|, |s.measured|);
    AppendBlocks(s.base, v, before, after);
  }

  /** Blocks are contiguous and complete: the entries with one phase, repetition and workload stand
      together, at positions 1, 2, ..., and run every variant once. */
  lemma {:induction false} BlocksAreContiguous(s: Shuffles, workloads: seq<string>, variants: seq<string>, i: nat)
    requires Permutes(s, workloads, variants) && Distinct(workloads) && Distinct(variants) && variants != []
    requires AllReady(s.base, s.warmups, |variants|) && AllReady(s.base, s.measured, |variants|)
    requires i < |ScheduleOf(s, |variants|)|
    ensures var all := ScheduleOf(s, |variants|);
            var first := i - (all[i].position - 1);
            && 0 <= first && first + |variants| <= |all|
            && all[i].workload in s.base && s.base[all[i].workload] != [] && all[i].repetition > 0
            && (forall j :: 0 <= j < |all| ==> (first <= j < first + |variants| <==> SameLabel(all[i], all[j])))
            && RunsInOrder(all[first..first + |variants|], s.base[all[i].workload], all[i].repetition)
  {
    ScheduleBlocks(s, workloads, |variants|);
    BlockAround(s.base, |variants|, ScheduleOf(s, |variants|), i);
  }

  /** The positions of a block are 1, 2, ... and its variants a rotation of the base order. */
  ghost predicate RunsInOrder(block: seq<Entry>, base: seq<string>, repetition: nat)
    requires base != [] && repetition > 0
  {
    && |block| == |base|
    && forall q :: 0 <= q < |block| ==> block[q].position == q + 1 && block[q].variant == Rotated(base, repetition)[q]
  }

  lemma {:induction false} BlockAround(base: map<string, seq<string>>, v: nat, all: seq<Entry>, i: nat)
    requires i < |all| && InBlocks(base, v, all)
    ensures var first := i - (all[i].position - 1);
            && 0 <= first && first + v <= |all|
            && (forall j :: 0 <= j < |all| ==> (first <= j < first + v <==> SameLabel(all[i], all[j])))
            && all[i].workload in base && base[all[i].workload] != [] && all[i].repetition > 0
            && RunsInOrder(all[first..first + v], base[all[i].workload], all[i].repetition)
  {
    assert InBlock(base, v, all, i);
    var first := i - (all[i].position - 1);
    var block := all[first..first + v];
    forall j | 0 <= j < |all| ensures first <= j < first + v <==> SameLabel(all[i], all[j]) {
      assert Together(all, i, j) && InBlock(base, v, all, j);
      if first <= j < first + v { assert all[j] == block[j - first]; }
    }
  }

  /** Each block runs every variant once. */
  lemma {:induction false} RotationPermutes(base: seq<string>, repetition: nat)
    requires base != [] && repetition > 0
    ensures multiset(Rotated(base, repetition)) == multiset(base)
  {
    var offset := Remainder(repetition - 1, |base|);
    assert base == base[..offset] + base[offset..];
  }

  // ----- balance -----

  /** One place of the schedule: this workload and variant, in this phase, at this position. */
  datatype Place = Place(phase: Phase, workload: string, variant: string, position: nat)

  function At(place: Place): Entry -> nat {
    (e: Entry) => if e.phase == place.phase && e.workload == place.workload && e.variant == place.variant
                     && e.position == place.position then 1 else 0
  }

  lemma {:induction false} BlockTotal(start: nat, phase: Phase, repetition: nat, w: string, ordered: seq<string>,
                                      n: nat, place: Place)
    requires n <= |ordered|
    ensures Total(At(place), BlockEntries(start, phase, repetition, w, ordered, n)) ==
            if phase == place.phase && w == place.workload && 1 <= place.position <= n
               && ordered[place.position - 1] == place.variant then 1 else 0
  {
    if n > 0 {
      BlockTotal(start, phase, repetition, w, ordered, n - 1, place);
      var before := BlockEntries(start, phase, repetition, w, ordered, n - 1);
      var last := Entry(start + n, phase, repetition, w, ordered[n - 1], n);
      assert BlockEntries(start, phase, repetition, w, ordered, n) == before + [last];
      TotalConcat(At(place), before, [last]);
      assert Total(At(place), [last]) == At(place)(last);
    }
  }

  // How many of the first k blocks run the workload.
  function Runs(order: seq<string>, k: nat, w: string): nat
    requires k <= |order|
  {
    if k == 0 then 0 else Runs(order, k - 1, w) + if order[k - 1] == w then 1 else 0
  }

  lemma {:induction false} NoneRun(order: seq<string>, k: nat, j: nat)
    requires k <= j < |order| && Distinct(order)
    ensures Runs(order, k, order[j]) == 0
  {
    if k > 0 { NoneRun(order, k - 1, j); }
  }

  lemma {:induction false} RunsOnce(order: seq<string>, k: nat, j: nat)
    requires j < |order| && k <= |order| && Distinct(order)
    ensures Runs(order, k, order[j]) == if j < k then 1 else 0
  {
    if k > 0 {
      if j == k - 1 { NoneRun(order, k - 1, j); } else { RunsOnce(order, k - 1, j); }
    }
  }

  lemma {:induction false} RepetitionTotal(base: map<string, seq<string>>, v: nat, order: seq<string>, start: nat,
                                           phase: Phase, repetition: nat, k: nat, place: Place)
    requires repetition > 0 && k <= |order| && Ready(base, order, v)
    requires place.workload in base && |base[place.workload]| == v && 1 <= place.position <= v
    ensures Total(At(place), RepetitionEntries(base, v, order, start, phase, repetition, k)) ==
            if Placed(base[place.workload], phase, repetition, place) then Runs(order, k, place.workload) else 0
  {
    if k > 0 {
      RepetitionTotal(base, v, order, start, phase, repetition, k - 1, place);
      AppendTotal(RepetitionEntries(base, v, order, start, phase, repetition, k - 1), start, phase, repetition,
                  order[k - 1], Rotated(base[order[k - 1]], repetition), place);
    }
  }

  lemma {:induction false} AppendTotal(before: seq<Entry>, start: nat, phase: Phase, repetition: nat, w: string,
                                       ordered: seq<string>, place: Place)
    requires 1 <= place.position <= |ordered|
    ensures Total(At(place), before + BlockEntries(start + |before|, phase, repetition, w, ordered, |ordered|)) ==
            Total(At(place), before)
            + if phase == place.phase && w == place.workload && ordered[place.position - 1] == place.variant
              then 1 else 0
  {
    BlockTotal(start + |before|, phase, repetition, w, ordered, |ordered|, place);
    TotalConcat(At(place), before, BlockEntries(start + |before|, phase, repetition, w, ordered, |ordered|));
  }

  // The block of this repetition runs the variant at the position.
  predicate Placed(base: seq<string>, phase: Phase, repetition: nat, place: Place)
    requires base != [] && repetition > 0 && 1 <= place.position <= |base|
  {
    phase == place.phase && Rotated(base, repetition)[place.position - 1] == place.variant
  }

  // The number of x < n with x % v == t.
  function Residues(n: nat, v: nat, t: nat): nat
    requires v > 0
  {
    if n == 0 then 0 else Residues(n - 1, v, t) + if (n - 1) % v == t then 1 else 0
  }

  lemma {:induction false} ResiduesAreBalanced(n: nat, v: nat, t: nat)
    requires t < v
    ensures Residues(n, v, t) == n / v + if t < n % v then 1 else 0
  {
    if n == 0 {
      DivisionIsUnique(0, v, 0, 0);
    } else {
      ResiduesAreBalanced(n - 1, v, t);
      Successor(n - 1, v);
    }
  }

  lemma {:induction false} Successor(x: nat, v: nat)
    requires v > 0
    ensures (x + 1) / v == x / v + if x % v + 1 == v then 1 else 0
    ensures (x + 1) % v == if x % v + 1 == v then 0 else x % v + 1
  {
    var q, r := x / v, x % v;
    assert x == q * v + r;
    if r + 1 < v {
      DivisionIsUnique(x + 1, v, q, r + 1);
    } else {
      Distribute(q, 1, v);
      DivisionIsUnique(x + 1, v, q + 1, 0);
    }
  }

  // The repetition residue that puts base[j] at position p + 1.
  function Residue(j: nat, p: nat, v: nat): nat
    requires j < v && p < v
  {
    if p <= j then j - p else j - p + v
  }

  lemma {:induction false} ResidueIff(x: nat, j: nat, p: nat, v: nat)
    requires j < v && p < v
    ensures (x + p) % v == j <==> x % v == Residue(j, p, v)
  {
    ModOfSum(x, p, v);
  }

  lemma {:induction false} SamePlace(base: seq<string>, i: nat, j: nat)
    requires Distinct(base) && i < |base| && j < |base|
    ensures base[i] == base[j] <==> i == j
  {
  }

  ghost predicate EachRuns(orders: seq<seq<string>>, workload: string) {
    forall k :: 0 <= k < |orders| ==> Distinct(orders[k]) && workload in orders[k]
  }

  lemma {:induction false} PhaseTotal(base: map<string, seq<string>>, v: nat, orders: seq<seq<string>>, start: nat,
                                      phase: Phase, n: nat, place: Place, j: nat)
    requires n <= |orders| && AllReady(base, orders, v) && EachRuns(orders, place.workload)
    requires place.workload in base && |base[place.workload]| == v && 1 <= place.position <= v
    requires Distinct(base[place.workload]) && j < v && base[place.workload][j] == place.variant
    ensures Total(At(place), PhaseEntries(base, v, orders, start, phase, n)) ==
            if phase == place.phase then Residues(n, v, Residue(j, place.position - 1, v)) else 0
  {
    if n > 0 {
      PhaseTotal(base, v, orders, start, phase, n - 1, place, j);
      var before := PhaseEntries(base, v, orders, start, phase, n - 1);
      LastRepetition(base, v, orders[n - 1], start + |before|, phase, n, place, j);
      TotalConcat(At(place), before,
                  RepetitionEntries(base, v, orders[n - 1], start + |before|, phase, n, |orders[n - 1]|));
    }
  }

  lemma {:induction false} LastRepetition(base: map<string, seq<string>>, v: nat, order: seq<string>, start: nat,
                                          phase: Phase, repetition: nat, place: Place, j: nat)
    requires repetition > 0 && Ready(base, order, v) && Distinct(order) && place.workload in order
    requires place.workload in base && |base[place.workload]| == v && 1 <= place.position <= v
    requires Distinct(base[place.workload]) && j < v && base[place.workload][j] == place.variant
    ensures Total(At(place), RepetitionEntries(base, v, order, start, phase, repetition, |order|)) ==
            if phase == place.phase && (repetition - 1) % v == Residue(j, place.position - 1, v) then 1 else 0
  {
    RepetitionTotal(base, v, order, start, phase, repetition, |order|, place);
    var i :| 0 <= i < |order| && order[i] == place.workload;
    RunsOnce(order, |order|, i);
    PlacedIff(base[place.workload], repetition, place.position - 1, j);
  }

  // In a repetition, base[j] stands at position p + 1 exactly for one residue.
  lemma {:induction false} PlacedIff(base: seq<string>, repetition: nat, p: nat, j: nat)
    requires repetition > 0 && Distinct(base) && p < |base| && j < |base|
    ensures Rotated(base, repetition)[p] == base[j] <==> (repetition - 1) % |base| == Residue(j, p, |base|)
  {
    RotatedAt(base, repetition, p);
    SamePlace(base, (repetition - 1 + p) % |base|, j);
    ResidueIff(repetition - 1, j, p, |base|);
  }

  /** Balance: in each phase every variant of every workload stands at every position either the floor or
      the ceiling of repetitions / variants times; so at least once when there are as many repetitions
      as variants. */
  lemma {:induction false} PositionsAreBalanced(s: Shuffles, workloads: seq<string>, variants: seq<string>,
                                                place: Place)
    requires Permutes(s, workloads, variants) && Distinct(workloads) && Distinct(variants)
    requires AllReady(s.base, s.warmups, |variants|) && AllReady(s.base, s.measured, |variants|)
    requires place.workload in workloads && place.variant in variants && 1 <= place.position <= |variants|
    ensures var count := |Orders(s, place.phase)|;
            var times := Total(At(place), ScheduleOf(s, |variants|));
            && count / |variants| <= times <= (count + |variants| - 1) / |variants|
            && (count >= |variants| ==> times >= 1)
  {
    var v, base := |variants|, s.base[place.workload];
    AllRun(s.warmups, workloads, place.workload);
    AllRun(s.measured, workloads, place.workload);
    DistinctIsMultisetProperty(variants, base);
    SameElements(variants, base);
    var j :| 0 <= j < |base| && base[j] == place.variant;
    var before := PhaseEntries(s.base, v, s.warmups, 0, Warmup, |s.warmups|);
    TotalConcat(At(place), before, PhaseEntries(s.base, v, s.measured, |before|, Measured, |s.measured|));
    PhaseTotal(s.base, v, s.warmups, 0, Warmup, |s.warmups|, place, j);
    PhaseTotal(s.base, v, s.measured, |before|, Measured, |s.measured|, place, j);
    ResiduesAreBalanced(|Orders(s, place.phase)|, v, Residue(j, place.position - 1, v));
    CeilingOf(|Orders(s, place.phase)|, v);
  }

  lemma {:induction false} AllRun(orders: seq<seq<string>>, workloads: seq<string>, workload: string)
    requires AllPermute(orders, workloads) && Distinct(workloads) && workload in workloads
    ensures EachRuns(orders, workload)
  {
    forall k | 0 <= k < |orders| ensures Distinct(orders[k]) && workload in orders[k] {
      DistinctIsMultisetProperty(workloads, orders[k]);
      SameElements(workloads, orders[k]);
    }
  }

  lemma {:induction false} CeilingOf(count: nat, v: nat)
    requires v > 0
    ensures (count + v - 1) / v == count / v + if count % v > 0 then 1 else 0
    ensures count >= v ==> count / v >= 1
  {
    var q, r := count / v, count % v;
    assert count == q * v + r;
    if r > 0 {
      assert count + v - 1 == (q + 1) * v + (r - 1);
      DivisionIsUnique(count + v - 1, v, q + 1, r - 1);
    } else {
      DivisionIsUnique(count + v - 1, v, q, v - 1);
    }
  }
}
