/** Quota allocation of stratified Type-3 sampling (bigMoveBench/selection.py).

    The strength bands are the positions of `eligible`, in declared order.  The source has four
    bands; nothing here depends on their number. */
module Allocation {
  import opened Wrappers
  import opened Ordering

  datatype AllocationError =
    | EmptyBands(bands: seq<nat>)
    | SampleTooSmall
    | NoProgress          // the source's AssertionError
    | EmptyAllocation     // the source's final "produced an empty stratum" check

  // ----- what a fair allocation is, without saying how it is found -----

  ghost predicate Bounded(eligible: seq<nat>, a: seq<nat>) {
    |a| == |eligible| && forall i :: 0 <= i < |a| ==> 1 <= a[i] <= eligible[i]
  }

  /** An unsaturated band is at most one below any other band, and an earlier band lies below a
      later one only when it is saturated. */
  ghost predicate Fair(eligible: seq<nat>, a: seq<nat>, target: nat) {
    && Bounded(eligible, a)
    && Sum(a) == target
    && (forall i, j :: 0 <= i < |a| && 0 <= j < |a| && a[i] < eligible[i] ==> a[j] <= a[i] + 1)
    && (forall i, j :: 0 <= i < j < |a| && a[i] < a[j] ==> a[i] == eligible[i])
  }

  // ----- sums -----

  lemma {:induction false} SumUpdate(s: seq<nat>, i: nat, v: nat)
    requires i < |s|
    ensures Sum(s[i := v]) == Sum(s) - s[i] + v
  {
    var n := |s| - 1;
    if i < n {
      SumUpdate(s[..n], i, v);
      assert s[i := v][..n] == s[..n][i := v];
    } else {
      assert s[i := v][..n] == s[..n];
    }
  }

  lemma {:induction false} SumMonotone(a: seq<nat>, b: seq<nat>)
    requires |a| == |b| && forall i :: 0 <= i < |a| ==> a[i] <= b[i]
    ensures Sum(a) <= Sum(b)
    ensures Sum(a) == Sum(b) ==> a == b
  {
    if a != [] {
      var n := |a| - 1;
      SumMonotone(a[..n], b[..n]);
      assert a == a[..n] + [a[n]] && b == b[..n] + [b[n]];
    }
  }

  lemma {:induction false} SumOfOnes(s: seq<nat>)
    requires forall i :: 0 <= i < |s| ==> s[i] == 1
    ensures Sum(s) == |s|
  {
    if s != [] { SumOfOnes(s[..|s| - 1]); }
  }

  // ----- the central exchange argument -----

  /** Two fair allocations of any two totals never cross: if some band gains, none loses. */
  lemma {:induction false} NeverCross(eligible: seq<nat>, a: seq<nat>, ta: nat, b: seq<nat>, tb: nat, i: nat, j: nat)
    requires Fair(eligible, a, ta) && Fair(eligible, b, tb)
    requires i < |a| && j < |a|
    ensures !(a[i] < b[i] && b[j] < a[j])
  {
    // Unsaturated on opposite sides, i and j would satisfy a[j] == a[i] + 1 == b[i] == b[j] + 1;
    // the order rule then refutes both i < j and j < i.
    assert a[i] < b[i] ==> a[j] <= a[i] + 1;
    assert b[j] < a[j] ==> b[i] <= b[j] + 1;
  }

  lemma {:induction false} FairIsMonotone(eligible: seq<nat>, a: seq<nat>, ta: nat, b: seq<nat>, tb: nat)
    requires Fair(eligible, a, ta) && Fair(eligible, b, tb) && ta <= tb
    ensures forall i :: 0 <= i < |a| ==> a[i] <= b[i]
  {
    if exists j :: 0 <= j < |a| && b[j] < a[j] {
      var j :| 0 <= j < |a| && b[j] < a[j];
      forall i | 0 <= i < |a| ensures b[i] <= a[i] { NeverCross(eligible, a, ta, b, tb, i, j); }
      SumMonotone(b, a);
    }
  }

  /** The fair allocation of a total is unique. */
  lemma {:induction false} FairIsUnique(eligible: seq<nat>, a: seq<nat>, b: seq<nat>, target: nat)
    requires Fair(eligible, a, target) && Fair(eligible, b, target)
    ensures a == b
  {
    FairIsMonotone(eligible, a, target, b, target);
    SumMonotone(a, b);
  }

  /** House monotonicity: one more unit goes to exactly one band. */
  lemma {:induction false} HouseMonotone(eligible: seq<nat>, a: seq<nat>, b: seq<nat>, target: nat) returns (gains: nat)
    requires Fair(eligible, a, target) && Fair(eligible, b, target + 1)
    ensures gains < |a| && b == a[gains := a[gains] + 1]
  {
    FairIsMonotone(eligible, a, target, b, target + 1);
    assert a != b;
    gains :| 0 <= gains < |a| && a[gains] < b[gains];
    var c := a[gains := a[gains] + 1];
    SumUpdate(a, gains, a[gains] + 1);
    SumMonotone(c, b);
  }

  // ----- the algorithm -----

  // The bands whose quota can still grow, in declared order.
  function ActiveFrom(eligible: seq<nat>, a: seq<nat>, from: nat): (r: seq<nat>)
    requires |a| == |eligible| && from <= |a|
    ensures forall k :: 0 <= k < |r| ==> from <= r[k] < |a| && a[r[k]] < eligible[r[k]]
    ensures forall k, l :: 0 <= k < l < |r| ==> r[k] < r[l]
    ensures forall i :: from <= i < |a| && a[i] < eligible[i] ==> i in r
    decreases |a| - from
  {
    if from == |a| then []
    else if a[from] < eligible[from] then [from] + ActiveFrom(eligible, a, from + 1)
    else ActiveFrom(eligible, a, from + 1)
  }

  // Every band filled up to a common level or to its own capacity.
  ghost predicate Filled(eligible: seq<nat>, a: seq<nat>, level: nat) {
    && |a| == |eligible|
    && forall i :: 0 <= i < |a| ==> a[i] == Min(level, eligible[i])
  }

  ghost predicate IsActive(eligible: seq<nat>, a: seq<nat>, active: seq<nat>)
    requires |a| == |eligible|
  {
    && (forall k :: 0 <= k < |active| ==> active[k] < |a| && a[active[k]] < eligible[active[k]])
    && (forall k, l :: 0 <= k < l < |active| ==> active[k] < active[l])
    && (forall i :: 0 <= i < |a| && a[i] < eligible[i] ==> i in active)
  }

  // One unit more for a leading group of the bands that a common level leaves unsaturated is fair.
  lemma {:induction false} LevelPlusLeadersIsFair(eligible: seq<nat>, base: seq<nat>, level: nat, served: set<nat>,
                                                  a: seq<nat>)
    requires level >= 1 && Filled(eligible, base, level) && |a| == |base|
    requires forall i :: 0 <= i < |eligible| ==> 1 <= eligible[i]
    requires forall i :: i in served ==> i < |base| && base[i] < eligible[i]
    requires forall i, j :: 0 <= i < j && j in served && base[i] < eligible[i] ==> i in served
    requires forall i :: 0 <= i < |a| ==> a[i] == if i in served then base[i] + 1 else base[i]
    ensures Fair(eligible, a, Sum(a))
  {
  }

  lemma {:induction false} LevelIsFair(eligible: seq<nat>, a: seq<nat>, level: nat)
    requires level >= 1 && Filled(eligible, a, level)
    requires forall i :: 0 <= i < |eligible| ==> 1 <= eligible[i]
    ensures Fair(eligible, a, Sum(a))
  {
    LevelPlusLeadersIsFair(eligible, a, level, {}, a);
  }

  ghost function Leaders(active: seq<nat>, count: nat): set<nat>
    requires count <= |active|
  {
    set m | 0 <= m < count :: active[m]
  }

  lemma {:induction false} LeadersAreClosed(eligible: seq<nat>, base: seq<nat>, active: seq<nat>, count: nat)
    requires |base| == |eligible| && IsActive(eligible, base, active) && count <= |active|
    ensures forall i, j :: 0 <= i < j && j in Leaders(active, count) && base[i] < eligible[i] ==>
              i in Leaders(active, count)
  {
    forall i: nat, j: nat | i < j && j in Leaders(active, count) && base[i] < eligible[i]
      ensures i in Leaders(active, count)
    {
      var m :| 0 <= m < count && active[m] == j;
      assert i in active;
      var l :| 0 <= l < |active| && active[l] == i;
      assert l < m;
    }
  }

  // The last round: one unit for each of the first `count` active bands.
  method ServeLeaders(eligible: seq<nat>, base: seq<nat>, active: seq<nat>, count: nat, ghost level: nat)
      returns (a: seq<nat>)
    requires level >= 1 && Filled(eligible, base, level) && IsActive(eligible, base, active)
    requires forall i :: 0 <= i < |eligible| ==> 1 <= eligible[i]
    requires count <= |active|
    ensures Sum(a) == Sum(base) + count && Fair(eligible, a, Sum(a))
  {
    a := base;
    for k := 0 to count
      invariant |a| == |base| && Sum(a) == Sum(base) + k
      invariant forall i :: 0 <= i < |a| ==> a[i] == if i in Leaders(active, k) then base[i] + 1 else base[i]
    {
      SumUpdate(a, active[k], a[active[k]] + 1);
      a := a[active[k] := a[active[k]] + 1];
    }
    LeadersAreClosed(eligible, base, active, count);
    LevelPlusLeadersIsFair(eligible, base, level, Leaders(active, count), a);
  }

  // A full round: every active band rises by `quotient`, capped by its capacity.
  method RaiseActive(eligible: seq<nat>, base: seq<nat>, active: seq<nat>, quotient: nat, ghost level: nat)
      returns (a: seq<nat>, consumed: nat)
    requires Filled(eligible, base, level) && IsActive(eligible, base, active)
    requires |active| > 0 && quotient > 0
    ensures Filled(eligible, a, level + quotient)
    ensures Sum(a) == Sum(base) + consumed && 0 < consumed <= |active| * quotient
  {
    a, consumed := base, 0;
    for k := 0 to |active|
      invariant RaisedTo(eligible, base, active, k, level + quotient, a)
      invariant Sum(a) == Sum(base) + consumed
      invariant (k > 0 ==> consumed > 0) && consumed <= k * quotient
    {
      var b := active[k];
      RaiseNext(eligible, base, active, k, quotient, level, a);
      var addition := Min(quotient, eligible[b] - a[b]);
      SumUpdate(a, b, a[b] + addition);
      assert (k + 1) * quotient == k * quotient + quotient;
      a := a[b := a[b] + addition];
      consumed := consumed + addition;
    }
    AllRaised(eligible, base, active, level, quotient, a);
  }

  // The first k active bands have been raised to the level.
  ghost predicate RaisedTo(eligible: seq<nat>, base: seq<nat>, active: seq<nat>, k: nat, level: nat, a: seq<nat>) {
    && |a| == |base| == |eligible| && k <= |active|
    && forall i :: 0 <= i < |a| ==> a[i] == if i in active[..k] then Min(level, eligible[i]) else base[i]
  }

  lemma {:induction false} RaiseNext(eligible: seq<nat>, base: seq<nat>, active: seq<nat>, k: nat, quotient: nat,
                                     level: nat, a: seq<nat>)
    requires Filled(eligible, base, level) && IsActive(eligible, base, active) && k < |active| && quotient > 0
    requires RaisedTo(eligible, base, active, k, level + quotient, a)
    ensures var b := active[k];
            && b < |a| && a[b] < eligible[b]
            && RaisedTo(eligible, base, active, k + 1, level + quotient,
                        a[b := a[b] + Min(quotient, eligible[b] - a[b])])
  {
    assert active[..k + 1] == active[..k] + [active[k]] && active[k] !in active[..k];
  }

  lemma {:induction false} AllRaised(eligible: seq<nat>, base: seq<nat>, active: seq<nat>, level: nat, quotient: nat,
                                     a: seq<nat>)
    requires Filled(eligible, base, level) && IsActive(eligible, base, active)
    requires RaisedTo(eligible, base, active, |active|, level + quotient, a)
    ensures Filled(eligible, a, level + quotient)
  {
    assert active[..|active|] == active;
  }

  // The bands an empty inventory makes unsampleable.
  function EmptyFrom(eligible: seq<nat>, from: nat): (r: seq<nat>)
    requires from <= |eligible|
    ensures forall i :: i in r <==> from <= i < |eligible| && eligible[i] == 0
    decreases |eligible| - from
  {
    if from == |eligible| then []
    else (if eligible[from] == 0 then [from] else []) + EmptyFrom(eligible, from + 1)
  }

  method DivMod(a: nat, b: nat) returns (quotient: nat, remainder: nat)
    requires b > 0
    ensures b * quotient + remainder == a && remainder < b
    ensures quotient == 0 ==> remainder == a
  {
    quotient, remainder := a / b, a % b;
  }

  method WaterFill(eligible: seq<nat>, target: nat) returns (r: Result<seq<nat>, AllocationError>)
    requires forall i :: 0 <= i < |eligible| ==> 1 <= eligible[i]
    requires |eligible| <= target <= Sum(eligible)
    ensures r.Ok? && Fair(eligible, r.value, target)
  {
    var a: seq<nat> := seq(|eligible|, _ => 1);
    SumOfOnes(a);
    ghost var level: nat := 1;
    LevelIsFair(eligible, a, level);
    var remaining: nat := target - |eligible|;
    while remaining != 0
      invariant level >= 1 && Filled(eligible, a, level)
      invariant Sum(a) + remaining == target && Fair(eligible, a, Sum(a))
    {
      var active := ActiveFrom(eligible, a, 0);
      assert IsActive(eligible, a, active);
      if |active| == 0 {
        SumMonotone(eligible, a);
        break;
      }
      var quotient, remainder := DivMod(remaining, |active|);
      if quotient == 0 {
        a := ServeLeaders(eligible, a, active, remainder, level);
        break;
      }
      var consumed;
      a, consumed := RaiseActive(eligible, a, active, quotient, level);
      level := level + quotient;
      remaining := remaining - consumed;
      if consumed == 0 { return Err(NoProgress); }
      LevelIsFair(eligible, a, level);
    }
    if exists i :: 0 <= i < |a| && a[i] == 0 { return Err(EmptyAllocation); }
    return Ok(a);
  }

  /** `_equal_type3_allocation`: it fails exactly on an empty band or on a sample too small to serve
      every band, and otherwise returns the fair allocation.  The "no progress" and "empty stratum"
      exits are never taken. */
  method EqualAllocation(eligible: seq<nat>, sampleSize: int)
      returns (r: Result<seq<nat>, AllocationError>)
    ensures 0 in eligible ==> r == Err(EmptyBands(EmptyFrom(eligible, 0)))
    ensures 0 !in eligible && Min(sampleSize, Sum(eligible)) < |eligible| ==> r == Err(SampleTooSmall)
    ensures 0 !in eligible && Min(sampleSize, Sum(eligible)) >= |eligible| ==>
              r.Ok? && Fair(eligible, r.value, Min(sampleSize, Sum(eligible)))
  {
    var empty := EmptyFrom(eligible, 0);
    if empty != [] {
      assert empty[0] in empty;
      return Err(EmptyBands(empty));
    }
    assert forall i :: 0 <= i < |eligible| && eligible[i] == 0 ==> i in empty;
    var target := Min(sampleSize, Sum(eligible));
    if target < |eligible| { return Err(SampleTooSmall); }
    r := WaterFill(eligible, target);
  }
}
