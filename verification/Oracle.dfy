/** The text and position oracle of bigMoveBench/oracle.py (208-244, 284-448) and the
    known-false-positive rule of bigMoveBench/evaluate.py (127-197). */
module Oracle {
  import opened Wrappers
  import Text

  // ----- text -----

  datatype Match = Strict | EncodingTolerant

  const REPLACEMENT: char := '\U{FFFD}'
  // U+FFFD in UTF-8, read back as Latin-1
  const MOJIBAKE: string := ['\U{00EF}', '\U{00BF}', '\U{00BD}']

  predicate Contains(s: string, part: string) {
    part <= s || (s != "" && Contains(s[1..], part))
  }

  predicate HasEncodingDamage(value: string) {
    REPLACEMENT in value || Contains(value, MOJIBAKE)
  }

  /** How an observed text matches the expected one.  `repair` is `normalize_encoding_damage`, whose
      Latin-1 and UTF-8 codecs are not part of this model. */
  function TextMatches(repair: string -> string, observed: string, expected: string): Option<Match> {
    var o := Text.Normalize(observed);
    var e := Text.Normalize(expected);
    if o == e then Some(Strict)
    else if (HasEncodingDamage(o) || HasEncodingDamage(e)) && repair(o) == repair(e) then Some(EncodingTolerant)
    else None
  }

  /** Whatever the repair function does, a fragment matches its own indented form, strictly, in both
      directions, and matching does not depend on which of the two texts was observed. */
  lemma {:induction false} IndentedTextMatchesStrictly(repair: string -> string, fragment: string, other: string)
    ensures TextMatches(repair, Text.IndentFragment(fragment), other) == TextMatches(repair, fragment, other)
    ensures TextMatches(repair, other, Text.IndentFragment(fragment)) == TextMatches(repair, other, fragment)
    ensures TextMatches(repair, fragment, Text.IndentFragment(fragment)) == Some(Strict)
    ensures TextMatches(repair, fragment, other) == TextMatches(repair, other, fragment)
  {
    Text.NormalizeIgnoresIndentation(fragment);
  }

  lemma {:induction false} ContainsIff(s: string, part: string)
    ensures Contains(s, part) <==> exists a, b :: s == a + part + b
  {
    if part <= s {
      assert s == [] + part + s[|part|..];
    } else if s != "" {
      ContainsIff(s[1..], part);
      if a, b :| s[1..] == a + part + b { assert s == ([s[0]] + a) + part + b; }
      if a, b :| s == a + part + b {
        assert a != [];
        assert s[1..] == a[1..] + part + b;
      }
    }
  }

  // The text holds a replacement character, or one that was read back in the wrong encoding.
  ghost predicate Damaged(value: string) {
    exists a, b :: value == a + ['\U{FFFD}'] + b || value == a + ['\U{00EF}', '\U{00BF}', '\U{00BD}'] + b
  }

  lemma {:induction false} DamagedIff(value: string)
    ensures HasEncodingDamage(value) <==> Damaged(value)
  {
    ContainsIff(value, MOJIBAKE);
    if REPLACEMENT in value {
      var i :| 0 <= i < |value| && value[i] == REPLACEMENT;
      assert value == value[..i] + [REPLACEMENT] + value[i + 1..];
    }
  }

  /** What a match means: equal normal texts match strictly, and different ones match tolerantly exactly when
      one of them is damaged and repairing makes them equal. */
  lemma {:induction false} MatchMeans(repair: string -> string, observed: string, expected: string)
    ensures var o, e := Text.Normalize(observed), Text.Normalize(expected);
            && (TextMatches(repair, observed, expected) == Some(Strict) <==> o == e)
            && (TextMatches(repair, observed, expected) == Some(EncodingTolerant) <==>
                o != e && (Damaged(o) || Damaged(e)) && repair(o) == repair(e))
  {
    DamagedIff(Text.Normalize(observed));
    DamagedIff(Text.Normalize(expected));
  }

  /** `next(status for value in texts if it matches)`: the status of the first text that matches. */
  function FirstMatch(repair: string -> string, texts: seq<string>, expected: string): Option<Match> {
    if texts == [] then None
    else
      var head := TextMatches(repair, texts[0], expected);
      if head.Some? then head else FirstMatch(repair, texts[1..], expected)
  }

  lemma {:induction false} FirstMatchExists(repair: string -> string, texts: seq<string>, expected: string)
    ensures FirstMatch(repair, texts, expected).Some? <==>
            exists t :: t in texts && TextMatches(repair, t, expected).Some?
  {
    if texts != [] {
      FirstMatchExists(repair, texts[1..], expected);
      assert forall t :: t in texts <==> t == texts[0] || t in texts[1..];
    }
  }

  // ----- positions -----

  datatype Lines = Lines(first: int, last: int)

  predicate Overlap(a: Lines, b: Lines) { a.first <= b.last && b.first <= a.last }

  // The start and end line of a node may come in either order.
  function Ordered(l: Lines): Lines {
    if l.first <= l.last then l else Lines(l.last, l.first)
  }

  predicate HasLine(l: Lines, n: int) { l.first <= n <= l.last }

  /** Ordered ranges overlap exactly when they share a line. */
  lemma {:induction false} OverlapIsSharedLine(a: Lines, b: Lines)
    requires a.first <= a.last && b.first <= b.last
    ensures Overlap(a, b) <==> exists n :: HasLine(a, n) && HasLine(b, n)
  {
    if Overlap(a, b) {
      var n := if a.first < b.first then b.first else a.first;
      assert HasLine(a, n) && HasLine(b, n);
    }
  }

  /** Ordering a range keeps its lines and puts them in order. */
  lemma {:induction false} OrderedKeepsLines(l: Lines)
    ensures Ordered(l).first <= Ordered(l).last
    ensures multiset{Ordered(l).first, Ordered(l).last} == multiset{l.first, l.last}
  {
  }

  /** A reported move.  A location is None when its XPath does not resolve to one node with a
      readable position. */
  datatype Move = Move(id: string, relationship: string, fromTexts: seq<string>, toTexts: seq<string>,
                       fromLines: seq<Option<Lines>>, toLines: seq<Option<Lines>>)

  datatype Positions = Positions(deletes: seq<Lines>, inserts: seq<Lines>)

  predicate Resolved(m: Move) { None !in m.fromLines && None !in m.toLines }

  predicate AllResolved(moves: seq<Move>) { forall m :: m in moves ==> Resolved(m) }

  function OrderedLines(lines: seq<Option<Lines>>): (r: seq<Lines>)
    requires None !in lines
    ensures forall l :: l in r <==> exists o :: o in lines && o.Some? && l == Ordered(o.value)
  {
    if lines == [] then [] else
      assert lines[0] in lines;
      var r := [Ordered(lines[0].value)] + OrderedLines(lines[1..]);
      assert forall o :: o in lines <==> o == lines[0] || o in lines[1..];
      assert forall l :: l in r <==> l == r[0] || l in OrderedLines(lines[1..]);
      r
  }

  /** `reported_position_ranges`: positions are collected per move id, so moves that share an id
      share their positions. */
  function PositionsById(moves: seq<Move>): map<string, Positions>
    requires AllResolved(moves)
  {
    if moves == [] then map[] else
      var m := moves[|moves| - 1];
      assert Resolved(m);
      var before := PositionsById(moves[..|moves| - 1]);
      var p := if m.id in before then before[m.id] else Positions([], []);
      before[m.id := Positions(p.deletes + OrderedLines(m.fromLines), p.inserts + OrderedLines(m.toLines))]
  }

  method CollectPositions(moves: seq<Move>) returns (r: Option<map<string, Positions>>)
    ensures r == if AllResolved(moves) then Some(PositionsById(moves)) else None
  {
    var ranges: map<string, Positions> := map[];
    var i := 0;
    while i < |moves|
      invariant 0 <= i <= |moves|
      invariant AllResolved(moves[..i]) && ranges == PositionsById(moves[..i])
    {
      var m := moves[i];
      assert moves[..i + 1][..i] == moves[..i] && m in moves;
      assert Resolved(m) ==> AllResolved(moves[..i + 1]);
      if None in m.fromLines || None in m.toLines { return None; }
      var p := if m.id in ranges then ranges[m.id] else Positions([], []);
      ranges := ranges[m.id := Positions(p.deletes + OrderedLines(m.fromLines), p.inserts + OrderedLines(m.toLines))];
      i := i + 1;
    }
    assert moves[..i] == moves;
    return Some(ranges);
  }

  // The independent reading of the table: some resolved location of some move with this id.
  ghost predicate DeletesAt(moves: seq<Move>, id: string, l: Lines) {
    exists m, o :: m in moves && m.id == id && o in m.fromLines && o.Some? && l == Ordered(o.value)
  }

  ghost predicate InsertsAt(moves: seq<Move>, id: string, l: Lines) {
    exists m, o :: m in moves && m.id == id && o in m.toLines && o.Some? && l == Ordered(o.value)
  }

  lemma {:induction false} PositionsAreReported(moves: seq<Move>)
    requires AllResolved(moves)
    ensures var table := PositionsById(moves);
            && (forall m :: m in moves ==> m.id in table)
            && (forall id, l :: id in table ==>
                  && (l in table[id].deletes <==> DeletesAt(moves, id, l))
                  && (l in table[id].inserts <==> InsertsAt(moves, id, l)))
            && (forall id, l :: DeletesAt(moves, id, l) || InsertsAt(moves, id, l) ==> id in table)
  {
    if moves != [] {
      var k := |moves| - 1;
      assert Resolved(moves[k]);
      PositionsAreReported(moves[..k]);
      var before := PositionsById(moves[..k]);
      assert moves == moves[..k] + [moves[k]];
      assert forall m :: m in moves <==> m in moves[..k] || m == moves[k];
      forall id, l
        ensures DeletesAt(moves, id, l) <==>
                DeletesAt(moves[..k], id, l) || (id == moves[k].id && l in OrderedLines(moves[k].fromLines))
        ensures InsertsAt(moves, id, l) <==>
                InsertsAt(moves[..k], id, l) || (id == moves[k].id && l in OrderedLines(moves[k].toLines))
      {
        LastMovePositions(moves, id, l);
      }
    }
  }

  lemma {:induction false} LastMovePositions(moves: seq<Move>, id: string, l: Lines)
    requires moves != [] && AllResolved(moves) && Resolved(moves[|moves| - 1])
    ensures var k := |moves| - 1;
            && (DeletesAt(moves, id, l) <==>
                DeletesAt(moves[..k], id, l) || (id == moves[k].id && l in OrderedLines(moves[k].fromLines)))
            && (InsertsAt(moves, id, l) <==>
                InsertsAt(moves[..k], id, l) || (id == moves[k].id && l in OrderedLines(moves[k].toLines)))
  {
    assert moves == moves[..|moves| - 1] + [moves[|moves| - 1]];
  }

  // ----- the positive oracle -----

  datatype Expected = Expected(fromText: string, toText: string, fromLines: Lines, toLines: Lines)

  datatype Failure = Failure(textLinked: bool, fromFound: bool, toFound: bool)

  datatype Assessment =
    | Operational
    | Missed(why: Failure)
    | Detected(move: Move, from: Match, to: Match, classified: bool)

  datatype Detection = Detection(move: Move, from: Match, to: Match)

  predicate LinksText(repair: string -> string, e: Expected, m: Move) {
    && FirstMatch(repair, m.fromTexts, e.fromText).Some?
    && FirstMatch(repair, m.toTexts, e.toText).Some?
  }

  ghost predicate FromFound(moves: seq<Move>, e: Expected, m: Move) {
    exists l :: DeletesAt(moves, m.id, l) && Overlap(l, e.fromLines)
  }

  ghost predicate ToFound(moves: seq<Move>, e: Expected, m: Move) {
    exists l :: InsertsAt(moves, m.id, l) && Overlap(l, e.toLines)
  }

  /** A move detects the expected pair when it links both complete texts and the positions reported
      under its id reach both expected ranges. */
  ghost predicate Detects(repair: string -> string, moves: seq<Move>, e: Expected, m: Move) {
    LinksText(repair, e, m) && FromFound(moves, e, m) && ToFound(moves, e, m)
  }

  ghost function Detecting(repair: string -> string, moves: seq<Move>, e: Expected, m: Move): Option<Detection> {
    if Detects(repair, moves, e, m) then
      Some(Detection(m, FirstMatch(repair, m.fromTexts, e.fromText).value,
                     FirstMatch(repair, m.toTexts, e.toText).value))
    else None
  }

  // The values that f yields on ms, in order.
  ghost function Collect(f: Move -> Option<Detection>, ms: seq<Move>): seq<Detection> {
    if ms == [] then [] else
      var before := Collect(f, ms[..|ms| - 1]);
      var last := f(ms[|ms| - 1]);
      if last.Some? then before + [last.value] else before
  }

  lemma {:induction false} CollectStep(f: Move -> Option<Detection>, ms: seq<Move>, i: nat)
    requires i < |ms|
    ensures Collect(f, ms[..i + 1]) ==
            Collect(f, ms[..i]) + if f(ms[i]).Some? then [f(ms[i]).value] else []
  {
    assert ms[..i + 1][..i] == ms[..i];
  }

  lemma {:induction false} CollectIsExact(f: Move -> Option<Detection>, ms: seq<Move>, d: Detection)
    ensures d in Collect(f, ms) <==> exists m :: m in ms && f(m) == Some(d)
  {
    if ms != [] {
      var k := |ms| - 1;
      CollectIsExact(f, ms[..k], d);
      assert ms == ms[..k] + [ms[k]];
      assert forall m :: m in ms <==> m in ms[..k] || m == ms[k];
    }
  }

  /** The moves that detect the pair, in order, with the statuses of their texts. */
  ghost function Detections(repair: string -> string, moves: seq<Move>, e: Expected): seq<Detection> {
    Collect(m => Detecting(repair, moves, e, m), moves)
  }

  lemma {:induction false} DetectionsAreExact(repair: string -> string, moves: seq<Move>, e: Expected, d: Detection)
    ensures d in Detections(repair, moves, e) <==> d.move in moves && Detecting(repair, moves, e, d.move) == Some(d)
  {
    var f := m => Detecting(repair, moves, e, m);
    CollectIsExact(f, moves, d);
    assert forall m :: f(m) == Some(d) ==> m == d.move;
  }

  function FirstWith(ds: seq<Detection>, relationship: string): (r: Option<Detection>)
    ensures r.Some? ==> r.value in ds && r.value.move.relationship == relationship
    ensures r.None? ==> forall d :: d in ds ==> d.move.relationship != relationship
  {
    if ds == [] then None
    else if ds[0].move.relationship == relationship then Some(ds[0])
    else FirstWith(ds[1..], relationship)
  }

  function Verdict(ds: seq<Detection>, relationship: string, why: Failure): Assessment {
    if ds == [] then Missed(why)
    else
      var first := FirstWith(ds, relationship);
      var d := if first.Some? then first.value else ds[0];
      Detected(d.move, d.from, d.to, first.Some?)
  }

  ghost predicate LinksFrom(repair: string -> string, moves: seq<Move>, e: Expected, m: Move) {
    LinksText(repair, e, m) && FromFound(moves, e, m)
  }

  ghost predicate LinksTo(repair: string -> string, moves: seq<Move>, e: Expected, m: Move) {
    LinksText(repair, e, m) && ToFound(moves, e, m)
  }

  ghost function WhyMissed(repair: string -> string, moves: seq<Move>, e: Expected): Failure {
    Failure(Any(m => LinksText(repair, e, m), moves),
            Any(m => LinksFrom(repair, moves, e, m), moves),
            Any(m => LinksTo(repair, moves, e, m), moves))
  }

  ghost predicate Any(p: Move -> bool, ms: seq<Move>) { exists m :: m in ms && p(m) }

  lemma {:induction false} AnyStep(p: Move -> bool, ms: seq<Move>, i: nat)
    requires i < |ms|
    ensures Any(p, ms[..i + 1]) <==> Any(p, ms[..i]) || p(ms[i])
  {
    assert ms[..i + 1] == ms[..i] + [ms[i]];
    assert forall m :: m in ms[..i + 1] <==> m in ms[..i] || m == ms[i];
  }

  /** What `assess_positive_case` returns.  `expected` is None when the results are rejected by the
      schema or the case metadata is incomplete. */
  ghost function Assess(repair: string -> string, expected: Option<Expected>, moves: seq<Move>,
                        relationship: string): Assessment {
    if expected.None? || !AllResolved(moves) then Operational
    else Verdict(Detections(repair, moves, expected.value), relationship,
                 WhyMissed(repair, moves, expected.value))
  }

  // The status of the first text that matches.
  ghost predicate FirstStatus(repair: string -> string, texts: seq<string>, expected: string, status: Match) {
    exists i :: && 0 <= i < |texts| && TextMatches(repair, texts[i], expected) == Some(status)
                && forall j :: 0 <= j < i ==> TextMatches(repair, texts[j], expected) == None
  }

  lemma {:induction false} FirstMatchIsFirst(repair: string -> string, texts: seq<string>, expected: string)
    requires FirstMatch(repair, texts, expected).Some?
    ensures FirstStatus(repair, texts, expected, FirstMatch(repair, texts, expected).value)
  {
    if TextMatches(repair, texts[0], expected).None? {
      FirstMatchIsFirst(repair, texts[1..], expected);
      var status := FirstMatch(repair, texts, expected).value;
      var i :| 0 <= i < |texts| - 1 && TextMatches(repair, texts[1..][i], expected) == Some(status)
               && forall j :: 0 <= j < i ==> TextMatches(repair, texts[1..][j], expected) == None;
      forall j | 0 <= j < i + 1 ensures TextMatches(repair, texts[j], expected) == None {
        if j > 0 { assert texts[1..][j - 1] == texts[j]; }
      }
      assert texts[i + 1] == texts[1..][i];
    }
  }

  /** What a detection reports: a detecting move, the statuses of its own texts on either side, and whether its
      relationship is the expected one. */
  lemma {:induction false} DetectedMoveIsExact(repair: string -> string, e: Expected, moves: seq<Move>,
                                               relationship: string)
    requires Assess(repair, Some(e), moves, relationship).Detected?
    ensures var a := Assess(repair, Some(e), moves, relationship);
            && a.move in moves && Detects(repair, moves, e, a.move)
            && FirstStatus(repair, a.move.fromTexts, e.fromText, a.from)
            && FirstStatus(repair, a.move.toTexts, e.toText, a.to)
            && (a.classified <==> a.move.relationship == relationship)
  {
    var ds := Detections(repair, moves, e);
    var first := FirstWith(ds, relationship);
    var d := if first.Some? then first.value else ds[0];
    DetectionsAreExact(repair, moves, e, d);
    FirstMatchIsFirst(repair, d.move.fromTexts, e.fromText);
    FirstMatchIsFirst(repair, d.move.toTexts, e.toText);
  }

  method AnyOverlaps(found: seq<Lines>, wanted: Lines) returns (r: bool)
    ensures r <==> exists l :: l in found && Overlap(l, wanted)
  {
    var i := 0;
    while i < |found|
      invariant 0 <= i <= |found|
      invariant forall k :: 0 <= k < i ==> !Overlap(found[k], wanted)
    {
      if Overlap(found[i], wanted) { return true; }
      i := i + 1;
    }
    return false;
  }

  method AssessPositiveCase(repair: string -> string, expected: Option<Expected>, moves: seq<Move>,
                            relationship: string) returns (r: Assessment)
    ensures r == Assess(repair, expected, moves, relationship)
  {
    if expected.None? { return Operational; }
    var e := expected.value;
    var collected := CollectPositions(moves);
    if collected.None? { return Operational; }
    var table := collected.value;
    ghost var detecting := m => Detecting(repair, moves, e, m);
    ghost var linked := m => LinksText(repair, e, m);
    ghost var fromLinked := m => LinksFrom(repair, moves, e, m);
    ghost var toLinked := m => LinksTo(repair, moves, e, m);
    var detected: seq<Detection> := [];
    var textLinked, fromFound, toFound := false, false, false;
    var i := 0;
    while i < |moves|
      invariant 0 <= i <= |moves|
      invariant detected == Collect(detecting, moves[..i])
      invariant textLinked <==> Any(linked, moves[..i])
      invariant fromFound <==> Any(fromLinked, moves[..i])
      invariant toFound <==> Any(toLinked, moves[..i])
    {
      CollectStep(detecting, moves, i);
      AnyStep(linked, moves, i);
      AnyStep(fromLinked, moves, i);
      AnyStep(toLinked, moves, i);
      var links, from, to, found := AssessMove(repair, table, moves, e, moves[i]);
      textLinked := textLinked || links;
      fromFound := fromFound || from;
      toFound := toFound || to;
      if found.Some? { detected := detected + [found.value]; }
      i := i + 1;
    }
    assert moves[..i] == moves;
    r := Verdict(detected, relationship, Failure(textLinked, fromFound, toFound));
  }

  // One turn of the loop over the reported moves.
  method AssessMove(repair: string -> string, table: map<string, Positions>, ghost moves: seq<Move>, e: Expected,
                    m: Move) returns (links: bool, from: bool, to: bool, found: Option<Detection>)
    requires AllResolved(moves) && table == PositionsById(moves) && m in moves
    ensures links <==> LinksText(repair, e, m)
    ensures from <==> LinksFrom(repair, moves, e, m)
    ensures to <==> LinksTo(repair, moves, e, m)
    ensures found == Detecting(repair, moves, e, m)
  {
    var fromStatus := FirstMatch(repair, m.fromTexts, e.fromText);
    var toStatus := FirstMatch(repair, m.toTexts, e.toText);
    if fromStatus.None? || toStatus.None? { return false, false, false, None; }
    PositionsAreReported(moves);
    from := AnyOverlaps(table[m.id].deletes, e.fromLines);
    to := AnyOverlaps(table[m.id].inserts, e.toLines);
    links := true;
    found := if from && to then Some(Detection(m, fromStatus.value, toStatus.value)) else None;
  }

  // ----- what the assessment means -----

  /** A resolvable case is detected exactly when some move detects it, and correctly classified
      exactly when some detecting move has the expected relationship. */
  lemma {:induction false} AssessmentIff(repair: string -> string, e: Expected, moves: seq<Move>, relationship: string)
    requires AllResolved(moves)
    ensures var r := Assess(repair, Some(e), moves, relationship);
            && !r.Operational?
            && (r.Detected? <==> exists m :: m in moves && Detects(repair, moves, e, m))
            && (r.Detected? && r.classified <==>
                exists m :: m in moves && Detects(repair, moves, e, m) && m.relationship == relationship)
            && (r.Detected? ==> r.move in moves && Detects(repair, moves, e, r.move)
                                && (r.classified <==> r.move.relationship == relationship))
  {
    var ds := Detections(repair, moves, e);
    forall d ensures d in ds <==> d.move in moves && Detecting(repair, moves, e, d.move) == Some(d) {
      DetectionsAreExact(repair, moves, e, d);
    }
    forall m | m in moves && Detects(repair, moves, e, m) ensures exists d :: d in ds && d.move == m {
      assert Detecting(repair, moves, e, m).value in ds;
    }
    if ds != [] { assert ds[0] in ds; }
  }

  ghost predicate Passes(a: Assessment) { a.Detected? && a.classified }

  lemma {:induction false} MorePositions(repair: string -> string, e: Expected, moves: seq<Move>, more: seq<Move>,
                                         m: Move)
    requires forall x :: x in moves ==> x in more
    ensures Detects(repair, moves, e, m) ==> Detects(repair, more, e, m)
  {
    forall l ensures DeletesAt(moves, m.id, l) ==> DeletesAt(more, m.id, l)
             ensures InsertsAt(moves, m.id, l) ==> InsertsAt(more, m.id, l) {}
  }

  /** Adding resolvable moves to a passing result keeps it passing, and to a detecting result keeps
      it detecting.  Move ids need not be unique. */
  lemma {:induction false} AddingMovesKeepsAPass(repair: string -> string, e: Expected, moves: seq<Move>,
                                                 more: seq<Move>, relationship: string)
    requires forall m :: m in moves ==> m in more
    requires AllResolved(more)
    ensures Passes(Assess(repair, Some(e), moves, relationship)) ==> Passes(Assess(repair, Some(e), more, relationship))
    ensures Assess(repair, Some(e), moves, relationship).Detected? ==>
            Assess(repair, Some(e), more, relationship).Detected?
  {
    AssessmentIff(repair, e, moves, relationship);
    AssessmentIff(repair, e, more, relationship);
    forall m ensures Detects(repair, moves, e, m) ==> Detects(repair, more, e, m) {
      MorePositions(repair, e, moves, more, m);
    }
  }

  /** A result is judged by its set of moves: reordering or repeating moves changes neither whether it
      is judged, nor whether it is detected, nor whether it is correctly classified. */
  lemma {:induction false} AssessmentIgnoresOrder(repair: string -> string, expected: Option<Expected>,
                                                  moves: seq<Move>, other: seq<Move>, relationship: string)
    requires forall m :: m in moves <==> m in other
    ensures var a := Assess(repair, expected, moves, relationship);
            var b := Assess(repair, expected, other, relationship);
            && a.Operational? == b.Operational? && a.Detected? == b.Detected?
            && (Passes(a) <==> Passes(b))
  {
    assert AllResolved(moves) <==> AllResolved(other);
    if expected.Some? && AllResolved(moves) {
      AddingMovesKeepsAPass(repair, expected.value, moves, other, relationship);
      AddingMovesKeepsAPass(repair, expected.value, other, moves, relationship);
      AssessmentIff(repair, expected.value, moves, relationship);
      AssessmentIff(repair, expected.value, other, relationship);
    }
  }

  /** A reviewed label changes classification only: whether the case is judged and detected, and why
      it was missed, do not depend on the expected relationship. */
  lemma {:induction false} LabelKeepsDetection(repair: string -> string, expected: Option<Expected>, moves: seq<Move>,
                                               original: string, reviewed: string)
    ensures var a := Assess(repair, expected, moves, original);
            var b := Assess(repair, expected, moves, reviewed);
            && a.Operational? == b.Operational? && a.Detected? == b.Detected?
            && (a.Missed? ==> a == b)
            && (Passes(a) && Passes(b) && original != reviewed ==> a.move != b.move)
  {
    if expected.Some? && AllResolved(moves) {
      AssessmentIff(repair, expected.value, moves, original);
      AssessmentIff(repair, expected.value, moves, reviewed);
    }
  }

  /** The end of the pipeline: a move that reports the two indented fragments at the lines where the
      generated wrappers put them is detected, so an unlucky wrapper layout never causes a miss. */
  lemma {:induction false} WrapperMoveIsDetected(repair: string -> string, fromHeader: string, toHeader: string,
                                                 from: string, to: string, m: Move, moves: seq<Move>)
    requires Text.NormalForm(from) && Text.NormalForm(to)
    requires AllResolved(moves) && m in moves
    requires Text.IndentFragment(from) in m.fromTexts && Text.IndentFragment(to) in m.toTexts
    requires var u := Text.BuildUnit(fromHeader, Text.IndentFragment(from));
             Some(Lines(u.firstLine, u.lastLine)) in m.fromLines
    requires var u := Text.BuildUnit(toHeader, Text.IndentFragment(to));
             Some(Lines(u.firstLine, u.lastLine)) in m.toLines
    ensures var u := Text.BuildUnit(fromHeader, Text.IndentFragment(from));
            var v := Text.BuildUnit(toHeader, Text.IndentFragment(to));
            var e := Expected(from, to, Lines(u.firstLine, u.lastLine), Lines(v.firstLine, v.lastLine));
            Passes(Assess(repair, Some(e), moves, m.relationship))
  {
    var u := Text.BuildUnit(fromHeader, Text.IndentFragment(from));
    var v := Text.BuildUnit(toHeader, Text.IndentFragment(to));
    var e := Expected(from, to, Lines(u.firstLine, u.lastLine), Lines(v.firstLine, v.lastLine));
    WrapperIsRecognized(repair, fromHeader, from, m.fromTexts);
    WrapperIsRecognized(repair, toHeader, to, m.toTexts);
    AtExpectedLines(repair, e, m, moves);
  }

  // A text-linked move that reports the expected ranges themselves.
  lemma {:induction false} AtExpectedLines(repair: string -> string, e: Expected, m: Move, moves: seq<Move>)
    requires AllResolved(moves) && m in moves && LinksText(repair, e, m)
    requires Some(e.fromLines) in m.fromLines && e.fromLines.first <= e.fromLines.last
    requires Some(e.toLines) in m.toLines && e.toLines.first <= e.toLines.last
    ensures Passes(Assess(repair, Some(e), moves, m.relationship))
  {
    assert DeletesAt(moves, m.id, Ordered(e.fromLines)) && InsertsAt(moves, m.id, Ordered(e.toLines));
    assert Detects(repair, moves, e, m);
    AssessmentIff(repair, e, moves, m.relationship);
  }

  lemma {:induction false} WrapperIsRecognized(repair: string -> string, header: string, fragment: string,
                                               texts: seq<string>)
    requires Text.NormalForm(fragment) && Text.IndentFragment(fragment) in texts
    ensures var u := Text.BuildUnit(header, Text.IndentFragment(fragment)); u.firstLine <= u.lastLine
    ensures FirstMatch(repair, texts, fragment).Some?
  {
    IndentedTextMatchesStrictly(repair, fragment, fragment);
    FirstMatchExists(repair, texts, fragment);
    Text.WrapperRoundTrip(header, fragment);
  }

  // ----- known false positives -----

  // The index of the first move that satisfies p.
  method FindFirst(p: Move -> bool, moves: seq<Move>) returns (r: Option<nat>)
    ensures r.None? <==> forall m :: m in moves ==> !p(m)
    ensures r.Some? ==> r.value < |moves| && p(moves[r.value]) && forall k :: 0 <= k < r.value ==> !p(moves[k])
  {
    for i := 0 to |moves|
      invariant forall k :: 0 <= k < i ==> !p(moves[k])
    {
      if p(moves[i]) {
        assert moves[i] in moves;
        return Some(i);
      }
    }
    return None;
  }

  /** The known-false-positive rule: the first move that links both complete texts, if any. */
  method FindWholeFragmentMatch(repair: string -> string, e: Expected, moves: seq<Move>) returns (r: Option<nat>)
    ensures r.None? <==> forall m :: m in moves ==> !LinksText(repair, e, m)
    ensures r.Some? ==> && r.value < |moves| && LinksText(repair, e, moves[r.value])
                        && forall k :: 0 <= k < r.value ==> !LinksText(repair, e, moves[k])
  {
    var links := m => LinksText(repair, e, m);
    r := FindFirst(links, moves);
    assert forall m :: links(m) <==> LinksText(repair, e, m);
  }
}
