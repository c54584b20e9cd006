/** Every entry of the schedule of performance/benchmark.py (131-165), by its place. */
module ScheduleOrder {
  import opened Schedule

  // Block k stands behind the first k blocks of a repetition.
  lemma {:induction false} RepetitionAt(base: map<string, seq<string>>, v: nat, order: seq<string>, start: nat,
                                        phase: Phase, repetition: nat, blocks: nat, k: nat)
    requires repetition > 0 && k < blocks <= |order| && Ready(base, order, v)
    ensures var before := RepetitionEntries(base, v, order, start, phase, repetition, k);
            before + BlockEntries(start + |before|, phase, repetition, order[k], Rotated(base[order[k]], repetition), v)
            <= RepetitionEntries(base, v, order, start, phase, repetition, blocks)
  {
    if k < blocks - 1 { RepetitionAt(base, v, order, start, phase, repetition, blocks - 1, k); }
  }

  // Repetition j + 1 stands behind the first j repetitions of a phase.
  lemma {:induction false} PhaseAt(base: map<string, seq<string>>, v: nat, orders: seq<seq<string>>, start: nat,
                                   phase: Phase, n: nat, j: nat)
    requires j < n <= |orders| && AllReady(base, orders, v)
    ensures var before := PhaseEntries(base, v, orders, start, phase, j);
            before + RepetitionEntries(base, v, orders[j], start + |before|, phase, j + 1, |orders[j]|)
            <= PhaseEntries(base, v, orders, start, phase, n)
  {
    if j < n - 1 { PhaseAt(base, v, orders, start, phase, n - 1, j); }
  }

  // The entry of a phase behind j repetitions, k blocks and p entries.
  lemma {:induction false} EntryAt(base: map<string, seq<string>>, v: nat, orders: seq<seq<string>>, start: nat,
                                   phase: Phase, j: nat, k: nat, p: nat)
    requires j < |orders| && AllReady(base, orders, v) && Ready(base, orders[j], v) && k < |orders[j]| && p < v
    ensures var r, outer := PhaseEntries(base, v, orders, start, phase, |orders|),
                            |PhaseEntries(base, v, orders, start, phase, j)|;
            var inner := |RepetitionEntries(base, v, orders[j], start + outer, phase, j + 1, k)|;
            && outer + inner + p < |r|
            && r[outer + inner + p] == Entry(start + outer + inner + p + 1, phase, j + 1, orders[j][k],
                                             Rotated(base[orders[j][k]], j + 1)[p], p + 1)
  {
    var outer := |PhaseEntries(base, v, orders, start, phase, j)|;
    PhaseAt(base, v, orders, start, phase, |orders|, j);
    RepetitionAt(base, v, orders[j], start + outer, phase, j + 1, |orders[j]|, k);
  }

  /** a * b, by repeated addition: the solver need not reason about products wherever it is used. */
  function Times(a: nat, b: nat): nat { if a == 0 then 0 else Times(a - 1, b) + b }

  lemma {:induction false} TimesIsProduct(a: nat, b: nat)
    ensures Times(a, b) == a * b
  {
    if a > 0 {
      TimesIsProduct(a - 1, b);
      Distribute(a - 1, 1, b);
    }
  }

  // The same with the lengths multiplied out.
  lemma {:induction false} EntryAtPlace(base: map<string, seq<string>>, v: nat, orders: seq<seq<string>>, start: nat,
                                        phase: Phase, w: nat, j: nat, k: nat, p: nat, outer: nat, inner: nat)
    requires j < |orders| && AllReady(base, orders, v) && forall i :: 0 <= i < |orders| ==> |orders[i]| == w
    requires k < w && p < v && outer == Times(j, Times(w, v)) && inner == Times(k, v)
    ensures var r := PhaseEntries(base, v, orders, start, phase, |orders|);
            && Ready(base, orders[j], v) && outer + inner + p < |r|
            && r[outer + inner + p] == Entry(start + outer + inner + p + 1, phase, j + 1, orders[j][k],
                                             VariantAt(base[orders[j][k]], j, p), p + 1)
  {
    assert Ready(base, orders[j], v);
    TimesIsProduct(w, v);
    TimesIsProduct(j, w * v);
    TimesIsProduct(k, v);
    PhaseNumbers(base, v, orders, start, phase, j, w);
    RepetitionNumbers(base, v, orders[j], start + |PhaseEntries(base, v, orders, start, phase, j)|, phase, j + 1, k);
    EntryAt(base, v, orders, start, phase, j, k, p);
    RotatedAt(base[orders[j][k]], j + 1, p);
  }

  // The variant at position p of a base order rotated by j.
  function VariantAt(base: seq<string>, j: nat, p: nat): string
    requires base != []
  {
    base[(j + p) % |base|]
  }

  // Where repetition j + 1 of a phase runs its k-th workload's variant at position p + 1.
  function PlaceOf(s: Shuffles, phase: Phase, w: nat, v: nat, j: nat, k: nat, p: nat): nat {
    (if phase.Warmup? then 0 else Times(|s.warmups|, Times(w, v))) + Times(j, Times(w, v)) + Times(k, v) + p
  }

  // The entry at place i.
  ghost predicate RunsAt(s: Shuffles, all: seq<Entry>, i: nat, phase: Phase, j: nat, workload: string, p: nat) {
    && i < |all| && workload in s.base && s.base[workload] != []
    && all[i] == Entry(i + 1, phase, j + 1, workload, VariantAt(s.base[workload], j, p), p + 1)
  }

  /** Every entry of the schedule: the warmups come first; repetition j + 1 of a phase runs the workloads in its
      own drawn order, and each of them the variants in its base order from variant j on, around. */
  lemma {:induction false} ScheduleIsExact(s: Shuffles, workloads: seq<string>, variants: seq<string>, phase: Phase,
                                           j: nat, k: nat, p: nat)
    requires Permutes(s, workloads, variants) && variants != []
    requires AllReady(s.base, s.warmups, |variants|) && AllReady(s.base, s.measured, |variants|)
    requires j < |if phase.Warmup? then s.warmups else s.measured| && k < |workloads| && p < |variants|
    ensures var order := if phase.Warmup? then s.warmups[j] else s.measured[j];
            && |order| == |workloads|
            && RunsAt(s, ScheduleOf(s, |variants|), PlaceOf(s, phase, |workloads|, |variants|, j, k, p), phase, j,
                      order[k], p)
  {
    var v, w := |variants|, |workloads|;
    PermutationsAreReady(s, workloads, variants, Warmup);
    PermutationsAreReady(s, workloads, variants, Measured);
    if phase.Warmup? {
      WarmupAt(s, v, w, j, k, p, Times(j, Times(w, v)), Times(k, v));
    } else {
      MeasuredAt(s, v, w, j, k, p, Times(|s.warmups|, Times(w, v)), Times(j, Times(w, v)), Times(k, v));
    }
  }

  lemma {:induction false} WarmupAt(s: Shuffles, v: nat, w: nat, j: nat, k: nat, p: nat, outer: nat, inner: nat)
    requires AllReady(s.base, s.warmups, v) && AllReady(s.base, s.measured, v)
    requires j < |s.warmups| && k < w && p < v && outer == Times(j, Times(w, v)) && inner == Times(k, v)
    requires forall i :: 0 <= i < |s.warmups| ==> |s.warmups[i]| == w
    ensures RunsAt(s, ScheduleOf(s, v), outer + inner + p, Warmup, j, s.warmups[j][k], p)
  {
    EntryAtPlace(s.base, v, s.warmups, 0, Warmup, w, j, k, p, outer, inner);
  }

  // The measured entries stand behind the warmups.
  lemma {:induction false} MeasuredAt(s: Shuffles, v: nat, w: nat, j: nat, k: nat, p: nat, first: nat, outer: nat,
                                      inner: nat)
    requires AllReady(s.base, s.warmups, v) && AllReady(s.base, s.measured, v)
    requires j < |s.measured| && k < w && p < v && outer == Times(j, Times(w, v)) && inner == Times(k, v)
    requires first == Times(|s.warmups|, Times(w, v)) && forall i :: 0 <= i < |s.warmups| ==> |s.warmups[i]| == w
    requires forall i :: 0 <= i < |s.measured| ==> |s.measured[i]| == w
    ensures RunsAt(s, ScheduleOf(s, v), first + outer + inner + p, Measured, j, s.measured[j][k], p)
  {
    TimesIsProduct(w, v);
    TimesIsProduct(|s.warmups|, w * v);
    PhaseNumbers(s.base, v, s.warmups, 0, Warmup, |s.warmups|, w);
    EntryAtPlace(s.base, v, s.measured, first, Measured, w, j, k, p, outer, inner);
    BehindWarmups(s, v, first, outer + inner + p);
  }

  lemma {:induction false} BehindWarmups(s: Shuffles, v: nat, first: nat, q: nat)
    requires AllReady(s.base, s.warmups, v) && AllReady(s.base, s.measured, v)
    requires |PhaseEntries(s.base, v, s.warmups, 0, Warmup, |s.warmups|)| == first
    requires q < |PhaseEntries(s.base, v, s.measured, first, Measured, |s.measured|)|
    ensures first + q < |ScheduleOf(s, v)|
    ensures ScheduleOf(s, v)[first + q] == PhaseEntries(s.base, v, s.measured, first, Measured, |s.measured|)[q]
  {
  }
}
