/** The movement classifier: src/movement_classifier.cpp (9-179) over the endpoint contexts of
    src/location_context.hpp (14-46). */
module Classifier {

  /** The evidence about one endpoint that the classifier reads, with its ancestors outermost first.
      An empty name or region id means that nothing reliable is known. */
  datatype Endpoint = Endpoint(
    file: string, container: string, containerMapped: bool, region: string, regionMapped: bool,
    anchorRegion: string, prefix: nat, suffix: nat, previousAnchor: string, nextAnchor: string,
    anchorReliable: bool, ancestorsReliable: bool, ancestorsInterpretable: bool, ancestors: seq<string>)

  datatype Kind = Stationary | Relocated | Restructured | Ambiguous

  datatype Reason =
    | SameAnchorInterval | DifferentFile | DifferentContainer | DifferentRegion | CrossedSibling
    | AncestorWrapped | AncestorUnwrapped | IncompatibleContext | InsufficientContext

  datatype FileSeen = SameFile | OtherFile | FileUnknown

  datatype ContainerSeen = SameMapped | DifferentMapped | ContainerUnknown

  datatype AnchorSeen = SameInterval | DifferentInterval | Crossed | AnchorUnknown

  datatype AncestorSeen = SameAncestors | Wrapped | Unwrapped | Incompatible | AncestorsUnknown

  datatype Observations = Observations(file: FileSeen, container: ContainerSeen, anchor: AnchorSeen,
                                       ancestor: AncestorSeen)

  datatype Classification = Classification(kind: Kind, reason: Reason, seen: Observations)

  // ----- observing -----

  predicate ProperPrefix(a: seq<string>, b: seq<string>) { |a| < |b| && b[..|a|] == a }

  predicate SameRegion(b: Endpoint, a: Endpoint) { b.anchorRegion != "" && b.anchorRegion == a.anchorRegion }

  /** `shared_sibling_crossed`. */
  predicate SiblingCrossed(b: Endpoint, a: Endpoint) {
    SameRegion(b, a) && (b.prefix > a.suffix || a.prefix > b.suffix)
  }

  function SeeFile(b: Endpoint, a: Endpoint): FileSeen {
    if b.file == "" || a.file == "" then FileUnknown else if b.file == a.file then SameFile else OtherFile
  }

  function SeeContainer(b: Endpoint, a: Endpoint): ContainerSeen {
    if !b.containerMapped || !a.containerMapped then ContainerUnknown
    else if b.container == a.container then SameMapped else DifferentMapped
  }

  function SeeAncestors(b: Endpoint, a: Endpoint): AncestorSeen {
    if !b.ancestorsReliable || !a.ancestorsReliable then AncestorsUnknown
    else if !b.ancestorsInterpretable || !a.ancestorsInterpretable then Incompatible
    else if b.ancestors == a.ancestors then SameAncestors
    else if ProperPrefix(b.ancestors, a.ancestors) then Wrapped
    else if ProperPrefix(a.ancestors, b.ancestors) then Unwrapped
    else Incompatible
  }

  // The anchors before the control-header rule is applied.
  function SeeAnchors(b: Endpoint, a: Endpoint): AnchorSeen {
    if !b.anchorReliable || !a.anchorReliable then AnchorUnknown
    else match SeeContainer(b, a)
      case ContainerUnknown => AnchorUnknown
      case DifferentMapped => DifferentInterval
      case SameMapped =>
        if b.previousAnchor == a.previousAnchor && b.nextAnchor == a.nextAnchor then SameInterval
        else if SiblingCrossed(b, a) then Crossed
        else AnchorUnknown
  }

  // A control header that holds one endpoint, while the other sits just outside a wrapper.
  predicate HeaderHoldsEndpoint(b: Endpoint, a: Endpoint) {
    && SameRegion(b, a) && (b.prefix < b.suffix || a.prefix < a.suffix) && !SiblingCrossed(b, a)
    && (SeeAncestors(b, a).Wrapped? || SeeAncestors(b, a).Unwrapped?)
  }

  function Seen(b: Endpoint, a: Endpoint): Observations {
    var anchors := SeeAnchors(b, a);
    Observations(SeeFile(b, a), SeeContainer(b, a),
                 if anchors.AnchorUnknown? && b.anchorReliable && a.anchorReliable && SeeContainer(b, a).SameMapped?
                    && HeaderHoldsEndpoint(b, a)
                 then SameInterval else anchors,
                 SeeAncestors(b, a))
  }

  /** `observe`, which fills its result field by field. */
  method Observe(b: Endpoint, a: Endpoint) returns (r: Observations)
    ensures r == Seen(b, a)
  {
    r := Observations(FileUnknown, ContainerUnknown, AnchorUnknown, AncestorsUnknown);
    if b.file != "" && a.file != "" {
      r := r.(file := if b.file == a.file then SameFile else OtherFile);
    }
    if b.containerMapped && a.containerMapped {
      r := r.(container := if b.container == a.container then SameMapped else DifferentMapped);
    }
    if b.anchorReliable && a.anchorReliable && r.container.DifferentMapped? {
      r := r.(anchor := DifferentInterval);
    } else if b.anchorReliable && a.anchorReliable && r.container.SameMapped? {
      var same := b.previousAnchor == a.previousAnchor && b.nextAnchor == a.nextAnchor;
      r := r.(anchor := if same then SameInterval else if SiblingCrossed(b, a) then Crossed else AnchorUnknown);
    }
    if b.ancestorsReliable && a.ancestorsReliable {
      if !b.ancestorsInterpretable || !a.ancestorsInterpretable {
        r := r.(ancestor := Incompatible);
      } else if b.ancestors == a.ancestors {
        r := r.(ancestor := SameAncestors);
      } else if ProperPrefix(b.ancestors, a.ancestors) {
        r := r.(ancestor := Wrapped);
      } else if ProperPrefix(a.ancestors, b.ancestors) {
        r := r.(ancestor := Unwrapped);
      } else {
        r := r.(ancestor := Incompatible);
      }
    }
    var headerContainsEndpoint := b.prefix < b.suffix || a.prefix < a.suffix;
    if r.anchor.AnchorUnknown? && b.anchorReliable && a.anchorReliable && r.container.SameMapped?
       && b.anchorRegion != "" && b.anchorRegion == a.anchorRegion && headerContainsEndpoint
       && !SiblingCrossed(b, a) && (r.ancestor.Wrapped? || r.ancestor.Unwrapped?) {
      r := r.(anchor := SameInterval);
    }
  }

  // ----- classifying -----

  predicate RegionsDiffer(b: Endpoint, a: Endpoint) { b.regionMapped && a.regionMapped && b.region != a.region }

  /** The decision list of `classify_movement`. */
  function Decide(seen: Observations, regionsDiffer: bool): Classification {
    if seen.file.OtherFile? then Classification(Relocated, DifferentFile, seen)
    else if seen.file.FileUnknown? then Classification(Ambiguous, InsufficientContext, seen)
    else if seen.container.DifferentMapped? then Classification(Relocated, DifferentContainer, seen)
    else if seen.container.ContainerUnknown? then Classification(Ambiguous, InsufficientContext, seen)
    else if regionsDiffer then Classification(Relocated, DifferentRegion, seen)
    else if seen.anchor.Crossed? then Classification(Relocated, CrossedSibling, seen)
    else if seen.anchor.AnchorUnknown? || seen.ancestor.AncestorsUnknown? then
      Classification(Ambiguous, InsufficientContext, seen)
    else match seen.ancestor
      case SameAncestors => Classification(Stationary, SameAnchorInterval, seen)
      case Wrapped => Classification(Restructured, AncestorWrapped, seen)
      case Unwrapped => Classification(Restructured, AncestorUnwrapped, seen)
      case _ => Classification(Ambiguous, IncompatibleContext, seen)
  }

  function Classify(b: Endpoint, a: Endpoint): Classification { Decide(Seen(b, a), RegionsDiffer(b, a)) }

  // Both files and both containers are known and agree, and the regions do not differ.
  predicate SamePlace(b: Endpoint, a: Endpoint) {
    SeeFile(b, a).SameFile? && SeeContainer(b, a).SameMapped? && !RegionsDiffer(b, a)
  }

  /** `classify_movement`, observation by observation.  A correspondence is relocated exactly when the first
      evidence that decides is a difference of files, containers or regions or a crossing; it is
      stationary or restructured exactly when the place and the anchor interval agree and the ancestors
      are equal or nested; and everything else is ambiguous. */
  method ClassifyMovement(b: Endpoint, a: Endpoint) returns (r: Classification)
    ensures r == Classify(b, a)
    ensures r.kind.Relocated? <==>
            || SeeFile(b, a).OtherFile?
            || (SeeFile(b, a).SameFile? && SeeContainer(b, a).DifferentMapped?)
            || (SeeFile(b, a).SameFile? && SeeContainer(b, a).SameMapped? && RegionsDiffer(b, a))
            || (SamePlace(b, a) && Seen(b, a).anchor.Crossed?)
    ensures r.kind.Stationary? <==>
            SamePlace(b, a) && Seen(b, a).anchor.SameInterval? && SeeAncestors(b, a).SameAncestors?
    ensures r.kind.Restructured? <==>
            && SamePlace(b, a) && Seen(b, a).anchor.SameInterval?
            && (SeeAncestors(b, a).Wrapped? || SeeAncestors(b, a).Unwrapped?)
  {
    var seen := Observe(b, a);
    if seen.file.OtherFile? { return Classification(Relocated, DifferentFile, seen); }
    if seen.file.FileUnknown? { return Classification(Ambiguous, InsufficientContext, seen); }
    if seen.container.DifferentMapped? { return Classification(Relocated, DifferentContainer, seen); }
    if seen.container.ContainerUnknown? { return Classification(Ambiguous, InsufficientContext, seen); }
    if b.regionMapped && a.regionMapped && b.region != a.region {
      return Classification(Relocated, DifferentRegion, seen);
    }
    if seen.anchor.Crossed? { return Classification(Relocated, CrossedSibling, seen); }
    if seen.anchor.AnchorUnknown? || seen.ancestor.AncestorsUnknown? {
      return Classification(Ambiguous, InsufficientContext, seen);
    }
    match seen.ancestor
    case SameAncestors => return Classification(Stationary, SameAnchorInterval, seen);
    case Wrapped => return Classification(Restructured, AncestorWrapped, seen);
    case Unwrapped => return Classification(Restructured, AncestorUnwrapped, seen);
    case _ => return Classification(Ambiguous, IncompatibleContext, seen);
  }

  /** What each reason says: the first evidence that decides, in this order. */
  lemma {:induction false} ReasonsAreExact(b: Endpoint, a: Endpoint)
    ensures var r, here := Classify(b, a).reason, SamePlace(b, a);
            && (r.DifferentFile? <==> b.file != "" && a.file != "" && b.file != a.file)
            && (r.DifferentContainer? <==> SeeFile(b, a).SameFile? && b.containerMapped && a.containerMapped
                                           && b.container != a.container)
            && (r.DifferentRegion? <==> SeeFile(b, a).SameFile? && SeeContainer(b, a).SameMapped?
                                        && b.regionMapped && a.regionMapped && b.region != a.region)
            && (r.CrossedSibling? <==> here && Seen(b, a).anchor.Crossed?)
            && (r.SameAnchorInterval? <==> Classify(b, a).kind.Stationary?)
            && (r.AncestorWrapped? || r.AncestorUnwrapped? <==> Classify(b, a).kind.Restructured?)
            && (r.IncompatibleContext? <==> here && Seen(b, a).anchor.SameInterval? && SeeAncestors(b, a).Incompatible?)
  {
  }

  // ----- swapping the endpoints -----

  function SwapAncestor(s: AncestorSeen): AncestorSeen {
    if s.Wrapped? then Unwrapped else if s.Unwrapped? then Wrapped else s
  }

  function SwapReason(r: Reason): Reason {
    if r.AncestorWrapped? then AncestorUnwrapped else if r.AncestorUnwrapped? then AncestorWrapped else r
  }

  function SwapOf(c: Classification): Classification {
    Classification(c.kind, SwapReason(c.reason), c.seen.(ancestor := SwapAncestor(c.seen.ancestor)))
  }

  /** Swapping the endpoints keeps the kind of movement and every observation, and exchanges only
      wrapping and unwrapping. */
  lemma {:induction false} SwapIsDual(b: Endpoint, a: Endpoint)
    ensures Classify(a, b) == SwapOf(Classify(b, a))
  {
    assert ProperPrefix(b.ancestors, a.ancestors) ==> !ProperPrefix(a.ancestors, b.ancestors);
  }

  /** A construct is never a move of itself: without a change of evidence it is stationary exactly when
      all the evidence is there, and ambiguous otherwise. */
  lemma {:induction false} NothingMovesOntoItself(e: Endpoint)
    ensures Classify(e, e).kind == if e.file != "" && e.containerMapped && e.anchorReliable && e.ancestorsReliable
                                      && e.ancestorsInterpretable then Stationary else Ambiguous
  {
  }

  /** Ancestors that the changed revision adds around the construct, inside those it already had, are a
      wrapping, and ancestors that it loses there an unwrapping, when nothing else changes. */
  lemma {:induction false} InnerAncestorsWrap(e: Endpoint, added: seq<string>)
    requires e.file != "" && e.containerMapped && e.anchorReliable && e.ancestorsReliable && e.ancestorsInterpretable
    requires added != []
    ensures var inner := e.(ancestors := e.ancestors + added);
            && Classify(e, inner).kind == Classify(inner, e).kind == Restructured
            && Classify(e, inner).reason == AncestorWrapped && Classify(inner, e).reason == AncestorUnwrapped
  {
    assert (e.ancestors + added)[..|e.ancestors|] == e.ancestors;
  }

  // ----- crossings -----

  /** The ranks of an endpoint among `count` common siblings: those below `prefix` precede it and those
      from `suffix` on follow it. */
  predicate WellRanked(e: Endpoint, count: nat) { e.prefix <= e.suffix <= count }

  predicate Precedes(r: nat, e: Endpoint) { r < e.prefix }

  predicate Follows(r: nat, count: nat, e: Endpoint) { e.suffix <= r < count }

  /** In one shared region the endpoints are crossed exactly when some common sibling precedes one of
      them and follows the other. */
  lemma {:induction false} CrossedIff(b: Endpoint, a: Endpoint, count: nat)
    requires SameRegion(b, a) && WellRanked(b, count) && WellRanked(a, count)
    ensures SiblingCrossed(b, a) <==>
            exists r: nat :: (Precedes(r, b) && Follows(r, count, a)) || (Precedes(r, a) && Follows(r, count, b))
  {
    if b.prefix > a.suffix { assert Precedes(a.suffix, b) && Follows(a.suffix, count, a); }
    if a.prefix > b.suffix { assert Precedes(b.suffix, a) && Follows(b.suffix, count, b); }
  }

  // ----- withdrawing evidence -----

  /** f has the evidence of e, with any of these withdrawn: the file name, the container mapping, the
      anchor reliability, the anchor region, the reliability and interpretability of the ancestors. */
  predicate Withdraws(e: Endpoint, f: Endpoint) {
    && (f.file == e.file || f.file == "")
    && (f.containerMapped ==> e.containerMapped)
    && (f.anchorReliable ==> e.anchorReliable)
    && (f.anchorRegion == e.anchorRegion || f.anchorRegion == "")
    && (f.ancestorsReliable ==> e.ancestorsReliable)
    && (f.ancestorsInterpretable ==> e.ancestorsInterpretable)
    && f == e.(file := f.file, containerMapped := f.containerMapped, anchorReliable := f.anchorReliable,
               anchorRegion := f.anchorRegion, ancestorsReliable := f.ancestorsReliable,
               ancestorsInterpretable := f.ancestorsInterpretable)
  }

  /** Less of this evidence, on either endpoint or both, never turns one kind into another: the kind
      stays or becomes ambiguous. */
  lemma {:induction false} LessEvidenceIsSafe(b: Endpoint, a: Endpoint, b': Endpoint, a': Endpoint)
    requires Withdraws(b, b') && Withdraws(a, a')
    ensures Classify(b', a').kind == Classify(b, a).kind || Classify(b', a').kind == Ambiguous
  {
  }

  /** So withdrawing it never makes a correspondence eligible as a move, and what its parent carries along is
      never eligible. */
  lemma {:induction false} LessEvidenceAddsNoMove(b: Endpoint, a: Endpoint, b': Endpoint, a': Endpoint, carried: bool)
    requires Withdraws(b, b') && Withdraws(a, a') && MoveEligible(Classify(b', a'), carried)
    ensures MoveEligible(Classify(b, a), carried) && Classify(b, a).kind == Relocated && !carried
  {
    LessEvidenceIsSafe(b, a, b', a');
  }

  /** `move_eligible`. */
  predicate MoveEligible(c: Classification, carriedByParent: bool) { c.kind.Relocated? && !carriedByParent }

  /** The mapping of the structural region is not in that order.  Withdrawing it changes one kind into
      another exactly when the regions were mapped and different, are no longer both mapped, and all
      the remaining evidence places the endpoints in one anchor interval with comparable ancestors. */
  lemma {:induction false} WithdrawingTheRegionIff(b: Endpoint, a: Endpoint, b': Endpoint, a': Endpoint)
    requires b' == b.(regionMapped := b'.regionMapped) && (b'.regionMapped ==> b.regionMapped)
    requires a' == a.(regionMapped := a'.regionMapped) && (a'.regionMapped ==> a.regionMapped)
    ensures (Classify(b', a').kind != Classify(b, a).kind && Classify(b', a').kind != Ambiguous) <==>
            && RegionsDiffer(b, a) && !RegionsDiffer(b', a')
            && Seen(b, a).file == SameFile && Seen(b, a).container == SameMapped && Seen(b, a).anchor == SameInterval
            && (Seen(b, a).ancestor == SameAncestors || Seen(b, a).ancestor == Wrapped
               || Seen(b, a).ancestor == Unwrapped)
  {
  }

  /** The context of an endpoint whose structural region holds no common sibling with a unique identity
      (src/region_filter.cpp 504-513, 566-607): the region is its own anchor region, and the anchors are the
      ends of the container. */
  predicate WithoutSiblings(e: Endpoint) {
    && e.containerMapped && e.regionMapped && e.anchorRegion == e.region && e.prefix == e.suffix == 0
    && e.previousAnchor == e.container + ":begin" && e.nextAnchor == e.container + ":end" && e.anchorReliable
    && e.ancestorsReliable
  }

  /** It does happen: between two continuing blocks of one container without such siblings, a relocation
      becomes stationary. */
  lemma {:induction false} WithdrawingTheRegionCanMislead() returns (b: Endpoint, a: Endpoint)
    ensures WithoutSiblings(b) && WithoutSiblings(a)
    ensures Classify(b, a).kind == Relocated
    ensures Classify(b.(regionMapped := false), a).kind == Stationary
  {
    b := Endpoint("f", "c", true, "block:5", true, "block:5", 0, 0, "c:begin", "c:end", true, true, true,
                  ["block", "if_stmt", "if", "block"]);
    a := b.(region := "block:9", anchorRegion := "block:9");
  }
}
