/** Admission over what the stream of the document yields: the uses come from the namespace observer, and a
    candidate starts at the element its locator names (src/region_filter.cpp 655-690, 747-756, 879,
    src/pipeline.cpp 299-341).

    The locators themselves are written by srcReader.  Their convention is that a locator is the path of
    steps of the open elements, without that of the root in archives. */
module StreamAdmission {
  import opened Wrappers
  import opened Locators
  import opened NamespaceIndex
  import opened NamespaceObserver
  import opened Admission

  // ----- the locator of an element -----

  // The steps of these elements, each after a slash.
  ghost function Path(nodes: seq<Node>, elements: seq<nat>): string
    requires forall p :: 0 <= p < |elements| ==> elements[p] < |nodes| && nodes[elements[p]].Start?
  {
    if elements == [] then ""
    else
      var n := |elements| - 1;
      Path(nodes, elements[..n]) + "/" + nodes[elements[n]].step
  }

  /** A step closes its quotations, and beside core prefixes it spells at most its own. */
  ghost predicate StepOk(node: Node)
    requires node.Start?
  {
    && QuoteAt(node.step, |node.step|) == None
    && forall b: nat, e: nat :: IsPrefixToken(node.step, b, e) ==>
         node.step[b..e] in INITIAL_BINDINGS || (Extension(node) && node.step[b..e] == PrefixOf(node.step))
  }

  ghost predicate StepsOk(nodes: seq<Node>) { forall i :: 0 <= i < |nodes| && nodes[i].Start? ==> StepOk(nodes[i]) }

  // The quotation and the names of a text do not depend on what follows it.
  lemma {:induction false} QuoteInPrefix(x: string, y: string, i: nat)
    requires i <= |x|
    ensures QuoteAt(x + y, i) == QuoteAt(x, i)
  {
    if i > 0 {
      QuoteInPrefix(x, y, i - 1);
      assert (x + y)[i - 1] == x[i - 1];
    }
  }

  // Nor on what stands before it, outside of quotations.
  lemma {:induction false} QuoteInSuffix(x: string, y: string, i: nat)
    requires i <= |y| && QuoteAt(x, |x|) == None
    ensures QuoteAt(x + y, |x| + i) == QuoteAt(y, i)
  {
    if i == 0 {
      QuoteInPrefix(x, y, |x|);
    } else {
      QuoteInSuffix(x, y, i - 1);
      assert (x + y)[|x| + i - 1] == y[i - 1];
    }
  }

  lemma {:induction false} InsideInPrefix(x: string, y: string, b: nat)
    requires b <= |x| && InsideName(x, b)
    ensures InsideName(x + y, b)
  {
    var c :| 0 <= c < b && NameStart(x[c]) && NameRun(x, c, b);
    assert NameStart((x + y)[c]) && NameRun(x + y, c, b);
  }

  lemma {:induction false} InsideInSuffix(x: string, y: string, b: nat)
    requires b <= |y| && InsideName(y, b)
    ensures InsideName(x + y, |x| + b)
  {
    var c :| 0 <= c < b && NameStart(y[c]) && NameRun(y, c, b);
    assert NameStart((x + y)[|x| + c]) && NameRun(x + y, |x| + c, |x| + b);
  }

  lemma {:induction false} TokenInPrefix(x: string, y: string, b: nat, e: nat)
    requires e < |x| && IsPrefixToken(x + y, b, e)
    ensures IsPrefixToken(x, b, e) && (x + y)[b..e] == x[b..e]
  {
    QuoteInPrefix(x, y, b);
    if InsideName(x, b) { InsideInPrefix(x, y, b); }
    assert forall k :: 0 <= k < |x| ==> (x + y)[k] == x[k];
  }

  lemma {:induction false} TokenInSuffix(x: string, y: string, b: nat, e: nat)
    requires |x| <= b && QuoteAt(x, |x|) == None && IsPrefixToken(x + y, b, e)
    ensures IsPrefixToken(y, b - |x|, e - |x|) && (x + y)[b..e] == y[b - |x|..e - |x|]
  {
    QuoteInSuffix(x, y, b - |x|);
    if InsideName(y, b - |x|) { InsideInSuffix(x, y, b - |x|); }
    var c, f := b - |x|, e - |x|;
    forall k | c <= k < f ensures NameChar(y[k]) { assert (x + y)[|x| + k] == y[k]; }
    assert (x + y)[e] == y[f] && (x + y)[b] == y[c];
  }

  // A token of two texts with a slash between them is one of the first or of the second.
  lemma {:induction false} TokenOfParts(x: string, y: string, b: nat, e: nat) returns (text: string)
    requires QuoteAt(x, |x|) == None && IsPrefixToken(x + "/" + y, b, e)
    ensures text == (x + "/" + y)[b..e]
    ensures (exists c: nat, f: nat :: IsPrefixToken(x, c, f) && text == x[c..f]) ||
            (exists c: nat, f: nat :: IsPrefixToken(y, c, f) && text == y[c..f])
  {
    var head := x + "/";
    text := (head + y)[b..e];
    assert (head + y)[|x|] == '/' && !NameChar('/');
    assert x + "/" + y == x + ("/" + y);
    if e < |x| {
      TokenInPrefix(x, "/" + y, b, e);
    } else {
      SlashKeepsQuote(x);
      TokenInSuffix(head, y, b, e);
    }
  }

  lemma {:induction false} SlashKeepsQuote(x: string)
    requires QuoteAt(x, |x|) == None
    ensures QuoteAt(x + "/", |x| + 1) == None
  {
    QuoteInPrefix(x, "/", |x|);
  }

  lemma {:induction false} PathIsClosed(nodes: seq<Node>, elements: seq<nat>)
    requires forall p :: 0 <= p < |elements| ==> elements[p] < |nodes| && nodes[elements[p]].Start?
    requires StepsOk(nodes)
    ensures QuoteAt(Path(nodes, elements), |Path(nodes, elements)|) == None
    ensures elements != [] ==> Path(nodes, elements) != "" && Path(nodes, elements)[0] == '/'
  {
    if elements != [] {
      var n := |elements| - 1;
      var outer, step := Path(nodes, elements[..n]), nodes[elements[n]].step;
      PathIsClosed(nodes, elements[..n]);
      SlashKeepsQuote(outer);
      QuoteInSuffix(outer + "/", step, |step|);
      assert n > 0 ==> (outer + "/" + step)[0] == outer[0];
    }
  }

  // The prefix belongs to one of these elements.
  ghost predicate PrefixAmong(nodes: seq<Node>, elements: seq<nat>, prefix: string) {
    exists p :: 0 <= p < |elements| && elements[p] < |nodes| && Extension(nodes[elements[p]])
                && prefix == PrefixOf(nodes[elements[p]].step)
  }

  /** The prefixes that a path spells are core ones and those of its own elements. */
  lemma {:induction false} PathPrefixes(nodes: seq<Node>, elements: seq<nat>, b: nat, e: nat)
    requires forall p :: 0 <= p < |elements| ==> elements[p] < |nodes| && nodes[elements[p]].Start?
    requires StepsOk(nodes) && IsPrefixToken(Path(nodes, elements), b, e)
    ensures var prefix := Path(nodes, elements)[b..e];
            prefix in INITIAL_BINDINGS || PrefixAmong(nodes, elements, prefix)
  {
    var n := |elements| - 1;
    var outer, step := Path(nodes, elements[..n]), nodes[elements[n]].step;
    PathIsClosed(nodes, elements[..n]);
    var text := TokenOfParts(outer, step, b, e);
    if c: nat, f: nat :| IsPrefixToken(outer, c, f) && text == outer[c..f] {
      PathPrefixes(nodes, elements[..n], c, f);
      if PrefixAmong(nodes, elements[..n], text) {
        var p :| 0 <= p < n && elements[..n][p] < |nodes| && Extension(nodes[elements[..n][p]])
                 && text == PrefixOf(nodes[elements[..n][p]].step);
        assert elements[p] == elements[..n][p];
      }
    } else {
      assert StepOk(nodes[elements[n]]);
    }
  }

  // ----- candidates of the stream -----

  /** The candidate starts at the element that its locator names; in archives the root has no step. */
  ghost predicate Streamed(nodes: seq<Node>, archive: bool, c: LocatedCandidate) {
    && c.start < |nodes| && nodes[c.start].Start?
    && var open := OpenAt(nodes, c.start + 1);
       |open| > (if archive then 1 else 0) && c.xpath == Path(nodes, if archive then open[1..] else open)
  }

  /** The document was read to its end, and its locators follow the convention. */
  ghost predicate Conventional(nodes: seq<Node>, uses: seq<Use>) {
    Complete(nodes) && StepsOk(nodes) && Observed(nodes, |nodes|, uses)
  }

  // The prefix of an element around the candidate is bound for it.
  lemma {:induction false} OpenPrefixIsBound(nodes: seq<Node>, uses: seq<Use>, start: nat, s: nat)
    requires Complete(nodes) && Observed(nodes, |nodes|, uses) && start < |nodes| && nodes[start].Start?
    requires s in OpenAt(nodes, start + 1) && s < |nodes| && Extension(nodes[s])
    ensures PrefixOf(nodes[s].step) in Prefixes(UsesAt(uses, start))
  {
    assert Recorded(nodes, uses, s);
    var k := Count(nodes, s);
    assert UseOf(nodes, |nodes|, uses[k]);
    SpansAreOpenElements(nodes, uses, k, start);
    UsesAtIsExact(uses, start);
    assert uses[k] in UsesAt(uses, start);
  }

  lemma {:induction false} OpenPrefixesAreBound(nodes: seq<Node>, uses: seq<Use>, start: nat, elements: seq<nat>,
                                                prefix: string)
    requires Complete(nodes) && Observed(nodes, |nodes|, uses) && start < |nodes| && nodes[start].Start?
    requires forall p :: 0 <= p < |elements| ==> elements[p] in OpenAt(nodes, start + 1)
    requires PrefixAmong(nodes, elements, prefix)
    ensures prefix in Prefixes(UsesAt(uses, start))
  {
    var p :| 0 <= p < |elements| && elements[p] < |nodes| && Extension(nodes[elements[p]])
             && prefix == PrefixOf(nodes[elements[p]].step);
    OpenPrefixIsBound(nodes, uses, start, elements[p]);
  }

  // A path of open elements spells only prefixes bound there.
  lemma {:induction false} OpenPathIsOwn(nodes: seq<Node>, uses: seq<Use>, start: nat, elements: seq<nat>)
    requires Conventional(nodes, uses) && start < |nodes| && nodes[start].Start? && elements != []
    requires forall p :: 0 <= p < |elements| ==>
               elements[p] in OpenAt(nodes, start + 1) && elements[p] < |nodes| && nodes[elements[p]].Start?
    ensures OwnPrefixes(uses, LocatedCandidate(start, Path(nodes, elements)))
  {
    var path := Path(nodes, elements);
    PathIsClosed(nodes, elements);
    forall b: nat, e: nat | IsPrefixToken(path, b, e)
      ensures path[b..e] in INITIAL_BINDINGS.Keys + Prefixes(UsesAt(uses, start))
    {
      PathPrefixes(nodes, elements, b, e);
      if PrefixAmong(nodes, elements, path[b..e]) { OpenPrefixesAreBound(nodes, uses, start, elements, path[b..e]); }
    }
  }

  /** What the observer records covers every locator: a candidate of the stream spells core prefixes and those
      of the recorded spans around it. */
  lemma {:induction false} StreamedPrefixesAreOwn(nodes: seq<Node>, uses: seq<Use>, archive: bool, c: LocatedCandidate)
    requires Conventional(nodes, uses) && Streamed(nodes, archive, c)
    ensures OwnPrefixes(uses, c)
  {
    var open := OpenAt(nodes, c.start + 1);
    OpenPathIsOwn(nodes, uses, c.start, if archive then open[1..] else open);
  }

  ghost predicate AllStreamed(nodes: seq<Node>, archive: bool, registry: seq<Record>) {
    forall id :: 0 <= id < |registry| ==> Streamed(nodes, archive, registry[id].candidate)
  }

  lemma {:induction false} ChosenAreOwn(nodes: seq<Node>, uses: seq<Use>, archive: bool, registry: seq<Record>,
                                        ids: set<nat>)
    requires Conventional(nodes, uses) && AllStreamed(nodes, archive, registry)
    ensures forall c :: c in Chosen(registry, ids, 0) ==> OwnPrefixes(uses, c)
  {
    ChosenElements(registry, ids, 0);
    forall c | c in Chosen(registry, ids, 0) ensures OwnPrefixes(uses, c) {
      var id: nat :| id < |registry| && id in ids && registry[id].candidate == c;
      StreamedPrefixesAreOwn(nodes, uses, archive, c);
    }
  }

  /** Over the stream, admission fails only for a prefix that is not supported or has two meanings around
      published candidates; no locator is rejected. */
  lemma {:induction false} StreamIsAdmittedIff(nodes: seq<Node>, uses: seq<Use>, archive: bool, registry: seq<Record>,
                                               groups: seq<LinkedGroup>, diagnostics: bool)
    requires Conventional(nodes, uses) && AllStreamed(nodes, archive, registry)
    ensures AdmitResults(uses, registry, groups, diagnostics).Ok? <==>
            SomeConsistent(AllUses(uses, Chosen(registry, PublishedIds(registry, groups, diagnostics), 0)))
  {
    ChosenAreOwn(nodes, uses, archive, registry, PublishedIds(registry, groups, diagnostics));
    OwnAdmissionSucceedsIff(uses, Chosen(registry, PublishedIds(registry, groups, diagnostics), 0),
                            Chosen(registry, ActiveIds(registry), 0));
  }

  /** Over the stream, whatever diagnostics mode admits ordinary mode admits, with the same map. */
  lemma {:induction false} DiagnosticsNeverAdmitMore(nodes: seq<Node>, uses: seq<Use>, archive: bool,
                                                     registry: seq<Record>, groups: seq<LinkedGroup>)
    requires Conventional(nodes, uses) && AllStreamed(nodes, archive, registry)
    requires GroupIds(groups) <= ActiveIds(registry) && AdmitResults(uses, registry, groups, true).Ok?
    ensures AdmitResults(uses, registry, groups, false) == AdmitResults(uses, registry, groups, true)
  {
    ChosenAreOwn(nodes, uses, archive, registry, GroupIds(groups));
    OrdinaryModeFollows(uses, registry, groups);
  }

  /** Observing the stream and admitting its candidates. */
  method AdmitStream(nodes: seq<Node>, registry: seq<Record>, groups: seq<LinkedGroup>, diagnostics: bool)
      returns (uses: seq<Use>, r: Result<Bindings, AdmissionError>)
    requires Complete(nodes)
    ensures Observed(nodes, |nodes|, uses) && r == AdmitResults(uses, registry, groups, diagnostics)
  {
    uses := Observe(nodes);
    SpansAreNested(nodes, uses);
    r := AdmitLocators(uses, registry, groups, diagnostics);
  }
}
