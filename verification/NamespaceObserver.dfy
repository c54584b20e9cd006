/** The observer that records extension elements while the document streams by (src/region_filter.cpp 650-690).

    Every element outside the core namespaces becomes one use, whose span is the element and whose prefix
    is the one its own locator step spells. */
module NamespaceObserver {
  import opened Wrappers
  import opened Locators
  import opened NamespaceIndex

  /** A node of the stream; a start tag carries its namespace, "" when it has none, and the step that
      ends its locator. */
  datatype Node = Start(uri: string, step: string) | End | Other

  const CORE_URIS := ["", "http://www.srcML.org/srcML/src", "http://www.srcML.org/srcDiff",
                      "http://www.srcML.org/srcMove"]

  predicate Extension(node: Node) { node.Start? && node.uri !in CORE_URIS }

  // Where the first of ':' and '[' stands, from i on.
  function Separator(step: string, i: nat): (r: nat)
    requires i <= |step|
    ensures i <= r <= |step|
    decreases |step| - i
  {
    if i == |step| || step[i] == ':' || step[i] == '[' then i else Separator(step, i + 1)
  }

  // The lexical prefix of a step, "" when it has none.
  function PrefixOf(step: string): string {
    var at := Separator(step, 0);
    if at < |step| && step[at] == ':' then step[..at] else ""
  }

  /** A step spells the prefix before its colon; the colons of its predicates spell none. */
  lemma {:induction false} PrefixSpelled(name: string, rest: string)
    requires forall i :: 0 <= i < |name| ==> name[i] != ':' && name[i] != '['
    ensures PrefixOf(name + ":" + rest) == name && PrefixOf(name + "[" + rest) == "" && PrefixOf(name) == ""
  {
    SeparatorAfter(name, ":" + rest, 0);
    SeparatorAfter(name, "[" + rest, 0);
    SeparatorAfter(name, "", 0);
    assert name + "" == name && name + ":" + rest == name + (":" + rest) && name + "[" + rest == name + ("[" + rest);
  }

  lemma {:induction false} SeparatorAfter(name: string, rest: string, i: nat)
    requires i <= |name| && forall j :: 0 <= j < |name| ==> name[j] != ':' && name[j] != '['
    requires rest == "" || rest[0] == ':' || rest[0] == '['
    ensures Separator(name + rest, i) == |name|
    decreases |name| - i
  {
    if i < |name| {
      assert (name + rest)[i] == name[i];
      SeparatorAfter(name, rest, i + 1);
    }
  }

  // ----- the observer -----

  /** An open extension element: its depth and the index of its use. */
  datatype Pending = Pending(depth: nat, use: nat)

  datatype State = State(depth: nat, pending: seq<Pending>, uses: seq<Use>)

  predicate InRange(s: State) { forall p :: 0 <= p < |s.pending| ==> s.pending[p].use < |s.uses| }

  // What one node does to the state.
  function Step(s: State, node: Node, index: nat): (r: State)
    requires InRange(s)
    ensures InRange(r)
  {
    match node
    case Other => s
    case Start(uri, step) =>
      if !Extension(node) then s.(depth := s.depth + 1)
      else State(s.depth + 1, s.pending + [Pending(s.depth + 1, |s.uses|)],
                 s.uses + [Use(index, index, PrefixOf(step), uri)])
    case End =>
      var left := if s.depth == 0 then 0 else s.depth - 1;
      var last := |s.pending| - 1;
      if s.pending == [] || s.pending[last].depth != s.depth then s.(depth := left)
      else
        var k := s.pending[last].use;
        State(left, s.pending[..last], s.uses[k := s.uses[k].(end := index)])
  }

  // The state after the first n nodes.
  function StateAfter(nodes: seq<Node>, n: nat): (s: State)
    requires n <= |nodes|
    ensures InRange(s)
  {
    if n == 0 then State(0, [], []) else Step(StateAfter(nodes, n - 1), nodes[n - 1], n - 1)
  }

  /** `xpath_namespace_observer` and the uses it fills in. */
  class XpathNamespaceObserver {
    var depth: nat
    var openExtensions: seq<Pending>
    var uses: seq<Use>

    function Contents(): State
      reads this
    {
      State(depth, openExtensions, uses)
    }

    constructor ()
      ensures Contents() == State(0, [], [])
    {
      depth, openExtensions, uses := 0, [], [];
    }

    method Consume(node: Node, index: nat)
      requires InRange(Contents())
      modifies this
      ensures Contents() == Step(old(Contents()), node, index)
    {
      if node.End? {
        if openExtensions != [] && openExtensions[|openExtensions| - 1].depth == depth {
          var last := openExtensions[|openExtensions| - 1];
          assert InRange(Contents());
          uses := uses[last.use := uses[last.use].(end := index)];
          openExtensions := openExtensions[..|openExtensions| - 1];
        }
        if depth != 0 { depth := depth - 1; }
        return;
      }
      if !node.Start? { return; }
      depth := depth + 1;
      if node.uri in CORE_URIS { return; }
      uses := uses + [Use(index, index, PrefixOf(node.step), node.uri)];
      openExtensions := openExtensions + [Pending(depth, |uses| - 1)];
    }
  }

  // ----- the open elements -----

  // The start tags that are open after the first n nodes, outermost first.
  ghost function OpenAt(nodes: seq<Node>, n: nat): (open: seq<nat>)
    requires n <= |nodes|
    ensures forall p :: 0 <= p < |open| ==> open[p] < n && nodes[open[p]].Start?
    ensures forall p, q :: 0 <= p < q < |open| ==> open[p] < open[q]
  {
    if n == 0 then []
    else
      var open := OpenAt(nodes, n - 1);
      match nodes[n - 1]
      case Start(_, _) => open + [n - 1]
      case End => if open == [] then [] else open[..|open| - 1]
      case Other => open
  }

  // Element s ends at node e.
  ghost predicate EndsAt(nodes: seq<Node>, s: nat, e: nat) {
    s < e < |nodes| && s in OpenAt(nodes, e) && s !in OpenAt(nodes, e + 1)
  }

  // An element that is not open does not open again.
  lemma {:induction false} StaysClosed(nodes: seq<Node>, s: nat, i: nat, j: nat)
    requires s < i <= j <= |nodes| && s !in OpenAt(nodes, i)
    ensures s !in OpenAt(nodes, j)
  {
    if i < j {
      StaysClosed(nodes, s, i, j - 1);
      var before := OpenAt(nodes, j - 1);
      assert forall x :: x in OpenAt(nodes, j) ==> x in before || x == j - 1;
    }
  }

  // An inner element ends before the elements around it.
  lemma {:induction false} InnerEndsFirst(nodes: seq<Node>, s: nat, t: nat, e: nat)
    requires s < t < e && EndsAt(nodes, s, e) && nodes[t].Start?
    ensures t !in OpenAt(nodes, e)
  {
    var open := OpenAt(nodes, e);
    assert nodes[e].End?;
    assert open == open[..|open| - 1] + [open[|open| - 1]];
    assert s == open[|open| - 1];
  }

  // ----- what the uses record -----

  // How many extension elements start among the first n nodes.
  ghost function Count(nodes: seq<Node>, n: nat): nat
    requires n <= |nodes|
  {
    if n == 0 then 0 else Count(nodes, n - 1) + if Extension(nodes[n - 1]) then 1 else 0
  }

  // The use is that of a started extension element, with its end once it is closed.
  ghost predicate UseOf(nodes: seq<Node>, n: nat, u: Use)
    requires n <= |nodes|
  {
    && u.start < n && Extension(nodes[u.start])
    && u.prefix == PrefixOf(nodes[u.start].step) && u.uri == nodes[u.start].uri
    && (u.start !in OpenAt(nodes, n) ==> EndsAt(nodes, u.start, u.end))
  }

  // The use of element i stands in order.
  ghost predicate Recorded(nodes: seq<Node>, uses: seq<Use>, i: nat)
    requires i <= |nodes|
  {
    Count(nodes, i) < |uses| && uses[Count(nodes, i)].start == i
  }

  ghost predicate UsesOf(nodes: seq<Node>, n: nat, uses: seq<Use>)
    requires n <= |nodes|
  {
    && (forall i, j :: 0 <= i < j < |uses| ==> uses[i].start < uses[j].start)
    && (forall k :: 0 <= k < |uses| ==> UseOf(nodes, n, uses[k]))
  }

  ghost predicate AllRecorded(nodes: seq<Node>, n: nat, uses: seq<Use>)
    requires n <= |nodes|
  {
    forall i {:trigger Recorded(nodes, uses, i)} :: 0 <= i < n && Extension(nodes[i]) ==> Recorded(nodes, uses, i)
  }

  /** The uses are the extension elements started among the first n nodes, each once, in opening order. */
  ghost predicate Observed(nodes: seq<Node>, n: nat, uses: seq<Use>)
    requires n <= |nodes|
  {
    |uses| == Count(nodes, n) && UsesOf(nodes, n, uses) && AllRecorded(nodes, n, uses)
  }

  // The open extension elements, outermost first.
  ghost function PendingOf(nodes: seq<Node>, open: seq<nat>): seq<Pending>
    requires forall p :: 0 <= p < |open| ==> open[p] < |nodes|
  {
    if open == [] then []
    else
      var top := open[|open| - 1];
      PendingOf(nodes, open[..|open| - 1]) + if Extension(nodes[top]) then [Pending(|open|, Count(nodes, top))] else []
  }

  lemma {:induction false} PendingDepths(nodes: seq<Node>, open: seq<nat>)
    requires forall p :: 0 <= p < |open| ==> open[p] < |nodes|
    ensures forall p :: 0 <= p < |PendingOf(nodes, open)| ==> PendingOf(nodes, open)[p].depth <= |open|
  {
    if open != [] { PendingDepths(nodes, open[..|open| - 1]); }
  }

  // The last pending entry is that of the innermost open element exactly when its depth says so.
  lemma {:induction false} LastPending(nodes: seq<Node>, open: seq<nat>)
    requires open != [] && forall p :: 0 <= p < |open| ==> open[p] < |nodes|
    ensures var pending, top := PendingOf(nodes, open), open[|open| - 1];
            if pending != [] && pending[|pending| - 1].depth == |open|
            then && Extension(nodes[top]) && pending[|pending| - 1].use == Count(nodes, top)
                 && pending[..|pending| - 1] == PendingOf(nodes, open[..|open| - 1])
            else !Extension(nodes[top]) && pending == PendingOf(nodes, open[..|open| - 1])
  {
    PendingDepths(nodes, open[..|open| - 1]);
  }

  // ----- one node more -----

  // The use of an element stays right while the element does not end.
  lemma {:induction false} UseStays(nodes: seq<Node>, n: nat, u: Use)
    requires n < |nodes| && UseOf(nodes, n, u) && (u.start in OpenAt(nodes, n) ==> u.start in OpenAt(nodes, n + 1))
    ensures UseOf(nodes, n + 1, u)
  {
    if u.start !in OpenAt(nodes, n) { StaysClosed(nodes, u.start, n, n + 1); }
  }

  // A node that ends no recorded element leaves the uses right.
  lemma {:induction false} ObservedStays(nodes: seq<Node>, n: nat, uses: seq<Use>)
    requires n < |nodes| && Observed(nodes, n, uses) && !Extension(nodes[n])
    requires forall s :: s in OpenAt(nodes, n) && Extension(nodes[s]) ==> s in OpenAt(nodes, n + 1)
    ensures Observed(nodes, n + 1, uses)
  {
    forall k | 0 <= k < |uses| ensures UseOf(nodes, n + 1, uses[k]) { UseStays(nodes, n, uses[k]); }
  }

  lemma {:induction false} StartPushes(nodes: seq<Node>, n: nat)
    requires n < |nodes| && nodes[n].Start?
    ensures OpenAt(nodes, n + 1) == OpenAt(nodes, n) + [n]
    ensures PendingOf(nodes, OpenAt(nodes, n + 1)) == PendingOf(nodes, OpenAt(nodes, n)) +
              if Extension(nodes[n]) then [Pending(|OpenAt(nodes, n)| + 1, Count(nodes, n))] else []
  {
    var open := OpenAt(nodes, n);
    assert (open + [n])[..|open|] == open;
  }

  lemma {:induction false} UsesStart(nodes: seq<Node>, n: nat, uses: seq<Use>, u: Use)
    requires n < |nodes| && UsesOf(nodes, n, uses) && Extension(nodes[n])
    requires u == Use(n, n, PrefixOf(nodes[n].step), nodes[n].uri)
    ensures UsesOf(nodes, n + 1, uses + [u])
  {
    var after := uses + [u];
    StartPushes(nodes, n);
    forall k | 0 <= k < |after| ensures UseOf(nodes, n + 1, after[k]) {
      if k < |uses| { UseStays(nodes, n, uses[k]); } else { assert n in OpenAt(nodes, n + 1); }
    }
  }

  lemma {:induction false} RecordedStart(nodes: seq<Node>, n: nat, uses: seq<Use>, u: Use)
    requires n < |nodes| && |uses| == Count(nodes, n) && AllRecorded(nodes, n, uses) && u.start == n
    ensures AllRecorded(nodes, n + 1, uses + [u])
  {
    forall i | 0 <= i < n + 1 && Extension(nodes[i]) ensures Recorded(nodes, uses + [u], i) {
      if i < n { assert Recorded(nodes, uses, i); }
    }
  }

  lemma {:induction false} ObservedStarts(nodes: seq<Node>, n: nat, uses: seq<Use>, u: Use)
    requires n < |nodes| && Observed(nodes, n, uses) && Extension(nodes[n])
    requires u == Use(n, n, PrefixOf(nodes[n].step), nodes[n].uri)
    ensures Observed(nodes, n + 1, uses + [u])
  {
    UsesStart(nodes, n, uses, u);
    RecordedStart(nodes, n, uses, u);
  }

  // The innermost open element ends at an end tag.
  lemma {:induction false} EndPops(nodes: seq<Node>, n: nat)
    requires n < |nodes| && nodes[n].End? && OpenAt(nodes, n) != []
    ensures var open := OpenAt(nodes, n);
            && EndsAt(nodes, open[|open| - 1], n)
            && forall s :: s in OpenAt(nodes, n + 1) <==> s in open && s != open[|open| - 1]
  {
    var open := OpenAt(nodes, n);
    assert open == OpenAt(nodes, n + 1) + [open[|open| - 1]];
  }

  lemma {:induction false} ObservedEnds(nodes: seq<Node>, n: nat, uses: seq<Use>, k: nat)
    requires n < |nodes| && Observed(nodes, n, uses) && nodes[n].End? && k < |uses| && OpenAt(nodes, n) != []
    requires uses[k].start == OpenAt(nodes, n)[|OpenAt(nodes, n)| - 1]
    ensures Observed(nodes, n + 1, uses[k := uses[k].(end := n)])
  {
    var after := uses[k := uses[k].(end := n)];
    EndPops(nodes, n);
    forall l | 0 <= l < |after| ensures UseOf(nodes, n + 1, after[l]) { assert UseOf(nodes, n, uses[l]); }
    forall i | 0 <= i < n + 1 && Extension(nodes[i]) ensures Recorded(nodes, after, i) {
      assert Recorded(nodes, uses, i);
    }
  }

  /** After n nodes the state holds the depth, the open extension elements and the uses. */
  ghost predicate Knows(nodes: seq<Node>, n: nat, s: State) {
    && n <= |nodes| && s.depth == |OpenAt(nodes, n)| && s.pending == PendingOf(nodes, OpenAt(nodes, n))
    && Observed(nodes, n, s.uses)
  }

  lemma {:induction false} KnowsAfterStart(nodes: seq<Node>, n: nat, s: State)
    requires Knows(nodes, n, s) && InRange(s) && n < |nodes| && nodes[n].Start?
    ensures Knows(nodes, n + 1, Step(s, nodes[n], n))
  {
    StartPushes(nodes, n);
    if Extension(nodes[n]) {
      ObservedStarts(nodes, n, s.uses, Use(n, n, PrefixOf(nodes[n].step), nodes[n].uri));
    } else {
      ObservedStays(nodes, n, s.uses);
    }
  }

  // At an end tag the last pending entry tells whether the element that ends is recorded.
  lemma {:induction false} KnowsAfterEnd(nodes: seq<Node>, n: nat, s: State)
    requires Knows(nodes, n, s) && InRange(s) && n < |nodes| && nodes[n].End?
    ensures Knows(nodes, n + 1, Step(s, nodes[n], n))
  {
    var open := OpenAt(nodes, n);
    if open == [] {
      ObservedStays(nodes, n, s.uses);
    } else {
      LastPending(nodes, open);
      EndPops(nodes, n);
      var top := open[|open| - 1];
      if Extension(nodes[top]) {
        assert Recorded(nodes, s.uses, top);
        ObservedEnds(nodes, n, s.uses, Count(nodes, top));
      } else {
        ObservedStays(nodes, n, s.uses);
      }
    }
  }

  lemma {:induction false} KnowsAfter(nodes: seq<Node>, n: nat, s: State)
    requires Knows(nodes, n, s) && InRange(s) && n < |nodes|
    ensures Knows(nodes, n + 1, Step(s, nodes[n], n))
  {
    match nodes[n]
    case Start(_, _) => KnowsAfterStart(nodes, n, s);
    case End => KnowsAfterEnd(nodes, n, s);
    case Other => ObservedStays(nodes, n, s.uses);
  }

  lemma {:induction false} StateKnows(nodes: seq<Node>, n: nat)
    requires n <= |nodes|
    ensures Knows(nodes, n, StateAfter(nodes, n))
  {
    if n != 0 {
      StateKnows(nodes, n - 1);
      KnowsAfter(nodes, n - 1, StateAfter(nodes, n - 1));
    }
  }

  // ----- the whole stream -----

  method Observe(nodes: seq<Node>) returns (uses: seq<Use>)
    ensures Observed(nodes, |nodes|, uses)
  {
    var observer := new XpathNamespaceObserver();
    for index := 0 to |nodes|
      invariant observer.Contents() == StateAfter(nodes, index)
    {
      observer.Consume(nodes[index], index);
    }
    StateKnows(nodes, |nodes|);
    uses := observer.uses;
  }

  /** Every element is closed. */
  ghost predicate Complete(nodes: seq<Node>) { OpenAt(nodes, |nodes|) == [] }

  // Between its tags, and nowhere else, an element is open.
  lemma {:induction false} OpenBetween(nodes: seq<Node>, s: nat, e: nat, i: nat)
    requires EndsAt(nodes, s, e) && i < |nodes|
    ensures s in OpenAt(nodes, i + 1) <==> s <= i < e
  {
    if s == i {
      assert nodes[s].Start?;
      assert OpenAt(nodes, s + 1)[|OpenAt(nodes, s + 1)| - 1] == s;
    } else if s < i < e {
      if s !in OpenAt(nodes, i + 1) { StaysClosed(nodes, s, i + 1, e); }
    } else if e <= i {
      StaysClosed(nodes, s, e + 1, i + 1);
    }
  }

  lemma {:induction false} EndsAtEndTag(nodes: seq<Node>, s: nat, e: nat)
    requires s < e < |nodes|
    ensures EndsAt(nodes, s, e) ==> nodes[e].End?
  {
    if nodes[e].Start? { StartPushes(nodes, e); }
  }

  /** At the start of an element, the recorded spans around it are those of the elements it stands in. */
  lemma {:induction false} SpansAreOpenElements(nodes: seq<Node>, uses: seq<Use>, k: nat, i: nat)
    requires Complete(nodes) && Observed(nodes, |nodes|, uses) && k < |uses| && i < |nodes| && nodes[i].Start?
    ensures Encloses(uses[k], i) <==> uses[k].start in OpenAt(nodes, i + 1)
  {
    assert UseOf(nodes, |nodes|, uses[k]);
    OpenBetween(nodes, uses[k].start, uses[k].end, i);
    EndsAtEndTag(nodes, uses[k].start, uses[k].end);
  }

  /** The recorded spans come in opening order and are nested or disjoint, as the index of the locators
      expects. */
  lemma {:induction false} SpansAreNested(nodes: seq<Node>, uses: seq<Use>)
    requires Complete(nodes) && Observed(nodes, |nodes|, uses)
    ensures SortedByStart(uses) && Laminar(uses)
  {
    forall i, j | 0 <= i < j < |uses| ensures uses[i].end < uses[j].start || uses[j].end <= uses[i].end {
      assert UseOf(nodes, |nodes|, uses[i]) && UseOf(nodes, |nodes|, uses[j]);
      var s, t, e := uses[i].start, uses[j].start, uses[i].end;
      if t < e {
        InnerEndsFirst(nodes, s, t, e);
        if e < uses[j].end { StaysClosed(nodes, t, e, uses[j].end); }
      }
    }
  }
}
