/** The extension-span index of src/pipeline.cpp: a parent forest that answers which spans enclose
    a document position. */
module NamespaceIndex {

  /** One extension element: the span of its tags and the namespace binding it uses. */
  datatype Use = Use(start: nat, end: nat, prefix: string, uri: string)

  // Spans arrive in opening-tag order.
  ghost predicate SortedByStart(uses: seq<Use>) {
    forall i, j :: 0 <= i < j < |uses| ==> uses[i].start <= uses[j].start
  }

  // Spans are nested or disjoint.
  ghost predicate Laminar(uses: seq<Use>) {
    forall i, j :: 0 <= i < j < |uses| ==> uses[i].end < uses[j].start || uses[j].end <= uses[i].end
  }

  // ----- the brute-force answer -----

  predicate Encloses(u: Use, position: nat) { u.start <= position <= u.end }

  // The enclosing spans among the first `count`, in ascending order.
  function Enclosing(uses: seq<Use>, position: nat, count: nat): seq<nat>
    requires count <= |uses|
  {
    if count == 0 then []
    else Enclosing(uses, position, count - 1) + if Encloses(uses[count - 1], position) then [count - 1] else []
  }

  lemma {:induction false} EnclosingIsFilter(uses: seq<Use>, position: nat, count: nat)
    requires count <= |uses|
    ensures forall i :: i in Enclosing(uses, position, count) <==> 0 <= i < count && Encloses(uses[i], position)
    ensures forall j, k :: 0 <= j < k < |Enclosing(uses, position, count)| ==>
              Enclosing(uses, position, count)[j] < Enclosing(uses, position, count)[k]
  {
    if count != 0 {
      EnclosingIsFilter(uses, position, count - 1);
      var r := Enclosing(uses, position, count - 1);
      forall j | 0 <= j < |r| ensures r[j] < count - 1 { assert r[j] in r; }
    }
  }

  lemma {:induction false} EnclosingSkips(uses: seq<Use>, position: nat, low: nat, high: nat)
    requires low <= high <= |uses|
    requires forall i :: low <= i < high ==> !Encloses(uses[i], position)
    ensures Enclosing(uses, position, high) == Enclosing(uses, position, low)
  {
    if low < high { EnclosingSkips(uses, position, low, high - 1); }
  }

  // ----- the parent forest -----

  /** The parent of span i: the last earlier span that has not ended before span i starts, or
      |uses| when there is none. */
  ghost predicate IsParent(uses: seq<Use>, i: nat, parent: nat)
    requires i < |uses|
  {
    && (parent < i || parent == |uses|)
    && (parent < i ==> uses[parent].end >= uses[i].start)
    && (forall j :: 0 <= j < i && (parent == |uses| || j > parent) ==> uses[j].end < uses[i].start)
  }

  ghost predicate IsForest(uses: seq<Use>, parents: seq<nat>) {
    |parents| == |uses| && forall i :: 0 <= i < |uses| ==> IsParent(uses, i, parents[i])
  }

  // The walk from span i to its root.
  ghost function Chain(uses: seq<Use>, parents: seq<nat>, i: nat): seq<nat>
    requires IsForest(uses, parents) && (i < |uses| || i == |uses|)
    decreases if i == |uses| then 0 else i + 1
  {
    if i == |uses| then []
    else
      assert IsParent(uses, i, parents[i]);
      [i] + Chain(uses, parents, parents[i])
  }

  function Reverse(s: seq<nat>): seq<nat> {
    if s == [] then [] else Reverse(s[1..]) + [s[0]]
  }

  lemma {:induction false} ReverseAppend(s: seq<nat>, x: nat)
    ensures Reverse(s + [x]) == [x] + Reverse(s)
  {
    if s == [] {
      assert [x][1..] == [];
    } else {
      ReverseAppend(s[1..], x);
      assert (s + [x])[1..] == s[1..] + [x];
    }
  }

  lemma {:induction false} ReverseLength(s: seq<nat>)
    ensures |Reverse(s)| == |s|
  {
    if s != [] { ReverseLength(s[1..]); }
  }

  /** On nested-or-disjoint spans the walk above span i visits exactly the spans that enclose its
      start, so a lookup takes one step more than the nesting depth. */
  lemma {:induction false} WalkIsNestingDepth(uses: seq<Use>, parents: seq<nat>, i: nat)
    requires SortedByStart(uses) && Laminar(uses) && IsForest(uses, parents) && i < |uses|
    ensures Reverse(Chain(uses, parents, parents[i])) == Enclosing(uses, uses[i].start, i)
    ensures |Chain(uses, parents, i)| == 1 + |Enclosing(uses, uses[i].start, i)|
  {
    assert IsParent(uses, i, parents[i]);
    var p := parents[i];
    if p == |uses| {
      EnclosingSkips(uses, uses[i].start, 0, i);
    } else {
      WalkIsNestingDepth(uses, parents, p);
      EnclosingSkips(uses, uses[i].start, p + 1, i);
      SameEnclosing(uses, uses[p].start, uses[i].start, p);
      assert Chain(uses, parents, p) == [p] + Chain(uses, parents, parents[p]);
      assert Chain(uses, parents, p)[1..] == Chain(uses, parents, parents[p]);
    }
    ReverseLength(Chain(uses, parents, p));
  }

  lemma {:induction false} SameEnclosing(uses: seq<Use>, a: nat, b: nat, count: nat)
    requires count <= |uses|
    requires forall i :: 0 <= i < count ==> (Encloses(uses[i], a) <==> Encloses(uses[i], b))
    ensures Enclosing(uses, a, count) == Enclosing(uses, b, count)
  {
    if count != 0 { SameEnclosing(uses, a, b, count - 1); }
  }

  // ----- the index object -----

  // The stack of spans kept while span `count` is next: every dropped span ends before `bound`.
  ghost predicate OpenStack(uses: seq<Use>, open: seq<nat>, count: nat, bound: nat) {
    && count <= |uses|
    && (forall k :: 0 <= k < |open| ==> open[k] < count)
    && (forall k, l :: 0 <= k < l < |open| ==> open[k] < open[l])
    && (forall j :: 0 <= j < count && j !in open ==> uses[j].end < bound)
  }

  method PopEnded(uses: seq<Use>, before: seq<nat>, index: nat) returns (open: seq<nat>)
    requires SortedByStart(uses) && index < |uses|
    requires OpenStack(uses, before, index, if index == 0 then 0 else uses[index - 1].start)
    ensures OpenStack(uses, open, index, uses[index].start)
    ensures open != [] ==> uses[open[|open| - 1]].end >= uses[index].start
  {
    open := before;
    while open != [] && uses[open[|open| - 1]].end < uses[index].start
      invariant OpenStack(uses, open, index, uses[index].start)
    {
      assert open == open[..|open| - 1] + [open[|open| - 1]];
      open := open[..|open| - 1];
    }
  }

  lemma {:induction false} TopIsParent(uses: seq<Use>, open: seq<nat>, index: nat)
    requires index < |uses| && OpenStack(uses, open, index, uses[index].start)
    requires open != [] ==> uses[open[|open| - 1]].end >= uses[index].start
    ensures IsParent(uses, index, if open == [] then |uses| else open[|open| - 1])
  {
  }

  ghost predicate IsLastStarted(uses: seq<Use>, i: nat, position: nat) {
    && i < |uses| && uses[i].start <= position
    && forall j :: i < j < |uses| ==> position < uses[j].start
  }

  lemma {:induction false} ChainStep(uses: seq<Use>, parents: seq<nat>, index: nat, visited: seq<nat>)
    requires IsForest(uses, parents) && index < |uses| && IsParent(uses, index, parents[index])
    ensures visited + Chain(uses, parents, index) == (visited + [index]) + Chain(uses, parents, parents[index])
  {
  }

  // One step of the walk: nothing strictly between a span and its parent encloses the position.
  lemma {:induction false} WalkStep(uses: seq<Use>, index: nat, parent: nat, position: nat, out: seq<nat>)
    requires index < |uses| && IsParent(uses, index, parent) && uses[index].start <= position
    ensures var next := if position <= uses[index].end then out + [index] else out;
            Enclosing(uses, position, index + 1) + Reverse(out) ==
            Enclosing(uses, position, if parent == |uses| then 0 else parent + 1) + Reverse(next)
  {
    EnclosingSkips(uses, position, if parent == |uses| then 0 else parent + 1, index);
    ReverseAppend(out, index);
  }

  /** `locator_namespace_index`. */
  class LocatorNamespaceIndex {
    const uses: seq<Use>
    const parents: array<nat>

    ghost predicate Valid()
      reads parents
    {
      SortedByStart(uses) && IsForest(uses, parents[..])
    }

    constructor (uses: seq<Use>)
      requires SortedByStart(uses)
      ensures Valid() && this.uses == uses && fresh(parents)
    {
      this.uses := uses;
      parents := new nat[|uses|](_ => |uses|);
      new;
      var open: seq<nat> := [];
      for index := 0 to |uses|
        invariant OpenStack(uses, open, index, if index == 0 then 0 else uses[index - 1].start)
        invariant forall i :: 0 <= i < index ==> IsParent(uses, i, parents[i])
        invariant forall i :: index <= i < |uses| ==> parents[i] == |uses|
      {
        open := PopEnded(uses, open, index);
        TopIsParent(uses, open, index);
        if open != [] { parents[index] := open[|open| - 1]; }
        open := open + [index];
      }
    }

    // std::upper_bound by start: the number of spans that start at or before the position.
    method UpperBound(position: nat) returns (after: nat)
      requires Valid()
      ensures after <= |uses|
      ensures forall i :: 0 <= i < after ==> uses[i].start <= position
      ensures forall i :: after <= i < |uses| ==> position < uses[i].start
    {
      var high := |uses|;
      after := 0;
      while after < high
        invariant after <= high <= |uses|
        invariant forall i :: 0 <= i < after ==> uses[i].start <= position
        invariant forall i :: high <= i < |uses| ==> position < uses[i].start
      {
        var middle := (after + high) / 2;
        if position < uses[middle].start { high := middle; } else { after := middle + 1; }
      }
    }

    /** The enclosing spans of any position, outermost first, for any spans in opening order: the
        answer needs no nesting.  `visited` is the walk, for the cost bound. */
    method Ancestors(position: nat) returns (out: seq<nat>, ghost visited: seq<nat>)
      requires Valid()
      ensures out == Enclosing(uses, position, |uses|)
      ensures visited != [] ==>
              IsLastStarted(uses, visited[0], position) && visited == Chain(uses, parents[..], visited[0])
      ensures visited == [] ==> out == []
    {
      var after := UpperBound(position);
      EnclosingSkips(uses, position, after, |uses|);
      out, visited := [], [];
      if after == 0 { return; }
      out, visited := WalkUp(after - 1, position);
      assert visited[0] == after - 1;
      out := Reverse(out);
    }

    // From a span that has started up to its root, collecting the enclosing spans innermost first.
    method WalkUp(first: nat, position: nat) returns (out: seq<nat>, ghost visited: seq<nat>)
      requires Valid() && first < |uses| && uses[first].start <= position
      ensures Enclosing(uses, position, first + 1) == Reverse(out)
      ensures visited == Chain(uses, parents[..], first)
    {
      ghost var forest := parents[..];
      ghost var chain := Chain(uses, forest, first);
      var index: nat := first;
      out, visited := [], [];
      while index != |uses|
        invariant index <= first || index == |uses|
        invariant visited + Chain(uses, forest, index) == chain
        invariant Enclosing(uses, position, first + 1) ==
                    Enclosing(uses, position, if index == |uses| then 0 else index + 1) + Reverse(out)
        decreases if index == |uses| then 0 else index + 1
      {
        var parent := parents[index];
        assert parent == forest[index] && IsParent(uses, index, parent);
        ChainStep(uses, forest, index, visited);
        WalkStep(uses, index, parent, position, out);
        visited := visited + [index];
        if position <= uses[index].end { out := out + [index]; }
        index := parent;
      }
    }
  }
}
