/** Namespace admission of published locators (src/pipeline.cpp).

    A first pass binds the enclosing extension prefixes of every published candidate and rejects
    what it cannot represent; a second pass adds the harmless bindings of all active candidates. */
module Admission {
  import opened Wrappers
  import opened Locators
  import opened NamespaceIndex

  datatype LocatedCandidate = LocatedCandidate(start: nat, xpath: string)

  datatype Record = Record(candidate: LocatedCandidate, active: bool)

  /** The candidate ids a group links. */
  datatype LinkedGroup = LinkedGroup(deletes: seq<nat>, inserts: seq<nat>)

  datatype AdmissionError = UnsupportedPrefix | ConflictingPrefix(prefix: string) | Locator(error: LocatorError)

  type Bindings = map<string, string>

  const INITIAL_BINDINGS: Bindings := map[
    "src" := "http://www.srcML.org/srcML/src",
    "diff" := "http://www.srcML.org/srcDiff",
    "mv" := "http://www.srcML.org/srcMove"]

  predicate Supported(prefix: string) {
    && prefix != "" && NameStart(prefix[0])
    && forall i :: 0 <= i < |prefix| ==> NameChar(prefix[i])
  }

  // ----- the passes as functions -----

  function BindUse(m: Bindings, u: Use, required: bool): Result<Bindings, AdmissionError> {
    if !Supported(u.prefix) then (if required then Err(UnsupportedPrefix) else Ok(m))
    else if u.prefix !in m then Ok(m[u.prefix := u.uri])
    else if m[u.prefix] != u.uri && required then Err(ConflictingPrefix(u.prefix))
    else Ok(m)
  }

  function BindUses(m: Bindings, us: seq<Use>, required: bool): Result<Bindings, AdmissionError>
    decreases |us|
  {
    if us == [] then Ok(m)
    else match BindUse(m, us[0], required)
      case Err(e) => Err(e)
      case Ok(m') => BindUses(m', us[1..], required)
  }

  // The uses enclosing a candidate, outermost first.
  function UsesAt(uses: seq<Use>, position: nat): seq<Use> {
    Picked(uses, Enclosing(uses, position, |uses|))
  }

  function Picked(uses: seq<Use>, indices: seq<nat>): seq<Use> {
    if indices == [] || indices[0] >= |uses| then []
    else [uses[indices[0]]] + Picked(uses, indices[1..])
  }

  lemma {:induction false} PickedElements(uses: seq<Use>, indices: seq<nat>)
    requires forall k :: 0 <= k < |indices| ==> indices[k] < |uses|
    ensures forall u :: u in Picked(uses, indices) <==> exists i :: i in indices && uses[i] == u
  {
    if indices != [] { PickedElements(uses, indices[1..]); }
  }

  /** The uses a candidate is bound for are exactly the spans around its position. */
  lemma {:induction false} UsesAtIsExact(uses: seq<Use>, position: nat)
    ensures forall u :: u in UsesAt(uses, position) <==> u in uses && Encloses(u, position)
  {
    var e := Enclosing(uses, position, |uses|);
    EnclosingIsFilter(uses, position, |uses|);
    forall k | 0 <= k < |e| ensures e[k] < |uses| { assert e[k] in e; }
    PickedElements(uses, e);
    forall u | u in uses && Encloses(u, position) ensures u in UsesAt(uses, position) {
      var i :| 0 <= i < |uses| && uses[i] == u;
      assert i in e;
    }
  }

  function BindCandidate(m: Bindings, uses: seq<Use>, c: LocatedCandidate,
                         required: bool): Result<Bindings, AdmissionError> {
    match BindUses(m, UsesAt(uses, c.start), required)
    case Err(e) => Err(e)
    case Ok(m') =>
      if !required then Ok(m')
      else match Validate(c.xpath, m'.Keys)
        case Err(e) => Err(Locator(e))
        case Ok(_) => Ok(m')
  }

  function BindAll(m: Bindings, uses: seq<Use>, cs: seq<LocatedCandidate>,
                   required: bool): Result<Bindings, AdmissionError>
    decreases |cs|
  {
    if cs == [] then Ok(m)
    else match BindCandidate(m, uses, cs[0], required)
      case Err(e) => Err(e)
      case Ok(m') => BindAll(m', uses, cs[1..], required)
  }

  function Admit(uses: seq<Use>, published: seq<LocatedCandidate>,
                 active: seq<LocatedCandidate>): Result<Bindings, AdmissionError> {
    match BindAll(INITIAL_BINDINGS, uses, published, true)
    case Err(e) => Err(e)
    case Ok(m) => BindAll(m, uses, active, false)
  }

  // ----- which candidates are published -----

  // The candidates from id `from` on whose id is chosen, in id order.
  function Chosen(registry: seq<Record>, ids: set<nat>, from: nat): seq<LocatedCandidate>
    requires from <= |registry|
    decreases |registry| - from
  {
    if from == |registry| then []
    else (if from in ids then [registry[from].candidate] else []) + Chosen(registry, ids, from + 1)
  }

  function ActiveIds(registry: seq<Record>): set<nat> {
    set id: nat | 0 <= id < |registry| && registry[id].active
  }

  function GroupIds(groups: seq<LinkedGroup>): set<nat> {
    if groups == [] then {}
    else
      var g := groups[0];
      (if g.deletes == [] || g.inserts == [] then {}
       else (set id: nat | id in g.deletes) + (set id: nat | id in g.inserts))
      + GroupIds(groups[1..])
  }

  function PublishedIds(registry: seq<Record>, groups: seq<LinkedGroup>, diagnostics: bool): set<nat> {
    if diagnostics then ActiveIds(registry) else GroupIds(groups)
  }

  /** The admission step of `run_pipeline`. */
  function AdmitResults(uses: seq<Use>, registry: seq<Record>, groups: seq<LinkedGroup>, diagnostics: bool)
      : Result<Bindings, AdmissionError>
  {
    Admit(uses, Chosen(registry, PublishedIds(registry, groups, diagnostics), 0),
          Chosen(registry, ActiveIds(registry), 0))
  }

  lemma {:induction false} ChosenElements(registry: seq<Record>, ids: set<nat>, from: nat)
    requires from <= |registry|
    ensures forall c :: c in Chosen(registry, ids, from) <==>
              exists id: nat :: from <= id < |registry| && id in ids && registry[id].candidate == c
    decreases |registry| - from
  {
    if from != |registry| { ChosenElements(registry, ids, from + 1); }
  }

  // ----- what the passes do to a map -----

  ghost predicate Extends(m: Bindings, m': Bindings) {
    m.Keys <= m'.Keys && forall p :: p in m ==> m'[p] == m[p]
  }

  ghost predicate Binds(m: Bindings, u: Use) {
    u.prefix in m && m[u.prefix] == u.uri
  }

  ghost predicate EnclosesSome(u: Use, uses: seq<Use>, cs: seq<LocatedCandidate>) {
    exists c :: c in cs && u in UsesAt(uses, c.start)
  }

  // Every new binding is that of a supported use, and every supported use has its prefix bound.
  ghost predicate Grows(m: Bindings, us: seq<Use>, m': Bindings) {
    && Extends(m, m')
    && (forall p :: p in m' && p !in m ==> exists u :: u in us && Supported(p) && u.prefix == p && u.uri == m'[p])
    && (forall u :: u in us && Supported(u.prefix) ==> u.prefix in m')
  }

  lemma {:induction false} GrowsCompose(m: Bindings, us: seq<Use>, m': Bindings, vs: seq<Use>, m'': Bindings)
    requires Grows(m, us, m') && Grows(m', vs, m'')
    ensures Grows(m, us + vs, m'')
  {
    forall p | p in m'' && p !in m
      ensures exists u :: u in us + vs && Supported(p) && u.prefix == p && u.uri == m''[p]
    {
      if p in m' {
        var u :| u in us && Supported(p) && u.prefix == p && u.uri == m'[p];
        assert u in us + vs;
      } else {
        var u :| u in vs && Supported(p) && u.prefix == p && u.uri == m''[p];
        assert u in us + vs;
      }
    }
  }

  lemma {:induction false} BindUsesGrows(m: Bindings, us: seq<Use>, required: bool)
    requires BindUses(m, us, required).Ok?
    ensures Grows(m, us, BindUses(m, us, required).value)
    decreases |us|
  {
    if us != [] {
      var m' := BindUse(m, us[0], required).value;
      BindUsesGrows(m', us[1..], required);
      assert Grows(m, [us[0]], m');
      GrowsCompose(m, [us[0]], m', us[1..], BindUses(m, us, required).value);
      assert us == [us[0]] + us[1..];
    }
  }

  lemma {:induction false} RequiredUsesBind(m: Bindings, us: seq<Use>)
    requires BindUses(m, us, true).Ok?
    ensures forall u :: u in us ==> Supported(u.prefix) && Binds(BindUses(m, us, true).value, u)
    decreases |us|
  {
    if us != [] {
      var m' := BindUse(m, us[0], true).value;
      RequiredUsesBind(m', us[1..]);
      BindUsesGrows(m', us[1..], true);
    }
  }

  lemma {:induction false} OptionalUsesSucceed(m: Bindings, us: seq<Use>)
    ensures BindUses(m, us, false).Ok?
    decreases |us|
  {
    if us != [] { OptionalUsesSucceed(BindUse(m, us[0], false).value, us[1..]); }
  }

  // All the uses that enclose some of the candidates, in pass order.
  function AllUses(uses: seq<Use>, cs: seq<LocatedCandidate>): seq<Use> {
    if cs == [] then [] else UsesAt(uses, cs[0].start) + AllUses(uses, cs[1..])
  }

  lemma {:induction false} AllUsesElements(uses: seq<Use>, cs: seq<LocatedCandidate>)
    ensures forall u :: u in AllUses(uses, cs) <==> EnclosesSome(u, uses, cs)
  {
    if cs != [] {
      AllUsesElements(uses, cs[1..]);
      forall u ensures u in AllUses(uses, cs) <==> EnclosesSome(u, uses, cs) {
        if EnclosesSome(u, uses, cs[1..]) {
          var c :| c in cs[1..] && u in UsesAt(uses, c.start);
          assert c in cs;
        }
        if u in UsesAt(uses, cs[0].start) { assert cs[0] in cs; }
      }
    }
  }

  /** Any pass only adds bindings of enclosing uses. */
  lemma {:induction false} PassGrows(m: Bindings, uses: seq<Use>, cs: seq<LocatedCandidate>, required: bool)
    requires BindAll(m, uses, cs, required).Ok?
    ensures Grows(m, AllUses(uses, cs), BindAll(m, uses, cs, required).value)
    decreases |cs|
  {
    if cs != [] {
      var us := UsesAt(uses, cs[0].start);
      var m' := BindCandidate(m, uses, cs[0], required).value;
      BindUsesGrows(m, us, required);
      PassGrows(m', uses, cs[1..], required);
      GrowsCompose(m, us, m', AllUses(uses, cs[1..]), BindAll(m', uses, cs[1..], required).value);
    }
  }

  /** A pass that requires nothing never fails. */
  lemma {:induction false} OptionalPassSucceeds(m: Bindings, uses: seq<Use>, cs: seq<LocatedCandidate>)
    ensures BindAll(m, uses, cs, false).Ok?
    decreases |cs|
  {
    if cs != [] {
      OptionalUsesSucceed(m, UsesAt(uses, cs[0].start));
      OptionalPassSucceeds(BindCandidate(m, uses, cs[0], false).value, uses, cs[1..]);
    }
  }

  /** A published pass that succeeds has bound every enclosing use to its own URI and admitted every
      locator. */
  lemma {:induction false} PublishedPassBinds(m: Bindings, uses: seq<Use>, cs: seq<LocatedCandidate>)
    requires BindAll(m, uses, cs, true).Ok?
    ensures var m' := BindAll(m, uses, cs, true).value;
            && (forall u :: u in AllUses(uses, cs) ==> Supported(u.prefix) && Binds(m', u))
            && (forall c :: c in cs ==> Validate(c.xpath, m'.Keys).Ok?)
    decreases |cs|
  {
    if cs != [] {
      RequiredUsesBind(m, UsesAt(uses, cs[0].start));
      var mid := BindCandidate(m, uses, cs[0], true).value;
      PublishedPassBinds(mid, uses, cs[1..]);
      PassGrows(mid, uses, cs[1..], true);
      var m' := BindAll(m, uses, cs, true).value;
      ValidateIsMonotone(cs[0].xpath, mid.Keys, m'.Keys);
    }
  }

  /** The admission theorem.  Success depends on the published candidates alone; the final map
      extends the one they produced, so unpublished candidates overwrite nothing; and every
      enclosing prefix of a published candidate means its own URI in the final map, against which
      every published locator still validates. */
  lemma {:induction false} AdmissionIsSound(uses: seq<Use>, published: seq<LocatedCandidate>,
                                            active: seq<LocatedCandidate>)
    ensures Admit(uses, published, active).Ok? <==> BindAll(INITIAL_BINDINGS, uses, published, true).Ok?
    ensures Admit(uses, published, active).Ok? ==>
              var m := Admit(uses, published, active).value;
              && Extends(BindAll(INITIAL_BINDINGS, uses, published, true).value, m)
              && Extends(INITIAL_BINDINGS, m)
              && (forall u :: EnclosesSome(u, uses, published) ==> Supported(u.prefix) && Binds(m, u))
              && (forall c :: c in published ==> Validate(c.xpath, m.Keys).Ok?)
  {
    var first := BindAll(INITIAL_BINDINGS, uses, published, true);
    if first.Ok? {
      PassGrows(INITIAL_BINDINGS, uses, published, true);
      PublishedPassBinds(INITIAL_BINDINGS, uses, published);
      OptionalPassSucceeds(first.value, uses, active);
      PassGrows(first.value, uses, active, false);
      AllUsesElements(uses, published);
      var m := Admit(uses, published, active).value;
      forall c | c in published ensures Validate(c.xpath, m.Keys).Ok? {
        ValidateIsMonotone(c.xpath, first.value.Keys, m.Keys);
      }
    }
  }

  lemma {:induction false} AllUsesOfSome(uses: seq<Use>, few: seq<LocatedCandidate>, many: seq<LocatedCandidate>)
    requires forall c :: c in few ==> c in many
    ensures forall u :: u in AllUses(uses, few) ==> u in AllUses(uses, many)
  {
    AllUsesElements(uses, few);
    AllUsesElements(uses, many);
    forall u | EnclosesSome(u, uses, few) ensures EnclosesSome(u, uses, many) {
      var c :| c in few && u in UsesAt(uses, c.start);
      assert c in many;
    }
  }

  // Two maps grown from the same start by uses that a third map binds agree with it.
  lemma {:induction false} GrownMapsAgree(start: Bindings, us: seq<Use>, m: Bindings, full: Bindings)
    requires Grows(start, us, m) && Extends(start, full)
    requires forall u :: u in us ==> Supported(u.prefix) && Binds(full, u)
    requires forall p :: p in full && p !in start ==> exists u :: u in us && u.prefix == p
    ensures m == full
  {
    forall p ensures p in m <==> p in full {
      if p in m && p !in start {
        var u :| u in us && Supported(p) && u.prefix == p && u.uri == m[p];
        assert Binds(full, u);
      }
    }
    forall p | p in m ensures m[p] == full[p] {
      if p !in start {
        var u :| u in us && Supported(p) && u.prefix == p && u.uri == m[p];
        assert Binds(full, u);
      }
    }
  }

  /** Output modes agree: when publishing every active candidate succeeds, and publishing only some
      of them succeeds too, both leave the same map. */
  lemma {:induction false} ModesAgree(uses: seq<Use>, published: seq<LocatedCandidate>, active: seq<LocatedCandidate>)
    requires forall c :: c in published ==> c in active
    requires Admit(uses, active, active).Ok? && Admit(uses, published, active).Ok?
    ensures Admit(uses, active, active) == Admit(uses, published, active)
  {
    var us := AllUses(uses, active);
    PassGrows(INITIAL_BINDINGS, uses, active, true);
    PublishedPassBinds(INITIAL_BINDINGS, uses, active);
    var full := BindAll(INITIAL_BINDINGS, uses, active, true).value;
    PassGrows(full, uses, active, false);
    var again := Admit(uses, active, active).value;
    GrowsCompose(INITIAL_BINDINGS, us, full, us, again);
    GrowsWithRepeats(INITIAL_BINDINGS, us, us, again);
    GrownMapsAgree(INITIAL_BINDINGS, us, again, full);

    PassGrows(INITIAL_BINDINGS, uses, published, true);
    var first := BindAll(INITIAL_BINDINGS, uses, published, true).value;
    PassGrows(first, uses, active, false);
    var ordinary := Admit(uses, published, active).value;
    GrowsCompose(INITIAL_BINDINGS, AllUses(uses, published), first, us, ordinary);
    AllUsesOfSome(uses, published, active);
    GrowsWithRepeats(INITIAL_BINDINGS, AllUses(uses, published), us, ordinary);
    GrownMapsAgree(INITIAL_BINDINGS, us, ordinary, full);
  }

  lemma {:induction false} GrowsWithRepeats(m: Bindings, few: seq<Use>, us: seq<Use>, m': Bindings)
    requires Grows(m, few + us, m') && forall u :: u in few ==> u in us
    ensures Grows(m, us, m')
  {
    forall p | p in m' && p !in m
      ensures exists u :: u in us && Supported(p) && u.prefix == p && u.uri == m'[p]
    {
      var u :| u in few + us && Supported(p) && u.prefix == p && u.uri == m'[p];
      assert u in us;
    }
  }

  // ----- exactly when the published pass succeeds -----

  ghost function Prefixes(us: seq<Use>): set<string> {
    set u | u in us :: u.prefix
  }

  /** Every locator is rooted and uses only prefixes bound by its own candidate or an earlier one. */
  ghost predicate CoveredInTurn(bound: set<string>, uses: seq<Use>, cs: seq<LocatedCandidate>)
    decreases |cs|
  {
    cs == [] ||
    var here := bound + Prefixes(UsesAt(uses, cs[0].start));
    Validate(cs[0].xpath, here).Ok? && CoveredInTurn(here, uses, cs[1..])
  }

  // One map gives every enclosing prefix a single meaning.
  ghost predicate Consistent(m: Bindings, us: seq<Use>, full: Bindings) {
    Extends(m, full) && forall u :: u in us ==> Supported(u.prefix) && Binds(full, u)
  }

  lemma {:induction false} BindUsesConsistent(m: Bindings, us: seq<Use>, full: Bindings)
    requires Consistent(m, us, full)
    ensures BindUses(m, us, true).Ok?
    ensures var m' := BindUses(m, us, true).value;
            Extends(m', full) && m'.Keys == m.Keys + Prefixes(us)
    decreases |us|
  {
    if us != [] {
      assert us[0] in us;
      BindUsesConsistent(BindUse(m, us[0], true).value, us[1..], full);
      assert us == [us[0]] + us[1..];
    }
  }

  lemma {:induction false} ConsistentPassSucceedsIff(m: Bindings, uses: seq<Use>, cs: seq<LocatedCandidate>,
                                                     full: Bindings)
    requires Consistent(m, AllUses(uses, cs), full)
    ensures BindAll(m, uses, cs, true).Ok? <==> CoveredInTurn(m.Keys, uses, cs)
    decreases |cs|
  {
    if cs != [] {
      BindUsesConsistent(m, UsesAt(uses, cs[0].start), full);
      if BindCandidate(m, uses, cs[0], true).Ok? {
        ConsistentPassSucceedsIff(BindCandidate(m, uses, cs[0], true).value, uses, cs[1..], full);
      }
    }
  }

  ghost predicate SomeConsistent(us: seq<Use>) {
    exists full :: Consistent(INITIAL_BINDINGS, us, full)
  }

  /** Admission succeeds if and only if the enclosing prefixes of the published candidates are
      supported and have one meaning each, and every published locator is covered in turn. */
  lemma {:induction false} AdmissionSucceedsIff(uses: seq<Use>, published: seq<LocatedCandidate>,
                                                active: seq<LocatedCandidate>)
    ensures Admit(uses, published, active).Ok? <==>
              SomeConsistent(AllUses(uses, published)) && CoveredInTurn(INITIAL_BINDINGS.Keys, uses, published)
  {
    AdmissionIsSound(uses, published, active);
    var first := BindAll(INITIAL_BINDINGS, uses, published, true);
    if first.Ok? {
      PassGrows(INITIAL_BINDINGS, uses, published, true);
      PublishedPassBinds(INITIAL_BINDINGS, uses, published);
      assert Consistent(INITIAL_BINDINGS, AllUses(uses, published), first.value);
    }
    if SomeConsistent(AllUses(uses, published)) {
      var full :| Consistent(INITIAL_BINDINGS, AllUses(uses, published), full);
      ConsistentPassSucceedsIff(INITIAL_BINDINGS, uses, published, full);
    }
  }

  /** After diagnostics mode succeeds, ordinary mode succeeds exactly when its published locators
      are covered in turn by published candidates alone. */
  lemma {:induction false} OrdinaryAfterDiagnostics(uses: seq<Use>, published: seq<LocatedCandidate>,
                                                    active: seq<LocatedCandidate>)
    requires forall c :: c in published ==> c in active
    requires Admit(uses, active, active).Ok?
    ensures Admit(uses, published, active).Ok? <==> CoveredInTurn(INITIAL_BINDINGS.Keys, uses, published)
  {
    AdmissionSucceedsIff(uses, published, active);
    AdmissionSucceedsIff(uses, active, active);
    AllUsesOfSome(uses, published, active);
    var full :| Consistent(INITIAL_BINDINGS, AllUses(uses, active), full);
    assert Consistent(INITIAL_BINDINGS, AllUses(uses, published), full);
  }

  // ----- the registry level -----

  /** With active published ids, the two output modes agree whenever both succeed. */
  lemma {:induction false} OutputModesAgree(uses: seq<Use>, registry: seq<Record>, groups: seq<LinkedGroup>)
    requires GroupIds(groups) <= ActiveIds(registry)
    requires AdmitResults(uses, registry, groups, true).Ok? && AdmitResults(uses, registry, groups, false).Ok?
    ensures AdmitResults(uses, registry, groups, true) == AdmitResults(uses, registry, groups, false)
  {
    PublishedAreActive(registry, groups);
    ModesAgree(uses, Chosen(registry, GroupIds(groups), 0), Chosen(registry, ActiveIds(registry), 0));
  }

  lemma {:induction false} PublishedAreActive(registry: seq<Record>, groups: seq<LinkedGroup>)
    requires GroupIds(groups) <= ActiveIds(registry)
    ensures forall c :: c in Chosen(registry, GroupIds(groups), 0) ==> c in Chosen(registry, ActiveIds(registry), 0)
  {
    ChosenElements(registry, GroupIds(groups), 0);
    ChosenElements(registry, ActiveIds(registry), 0);
  }

  /** With active published ids, ordinary mode succeeds after diagnostics mode exactly when the published
      locators are covered in turn by published candidates alone. */
  lemma {:induction false} OrdinaryModeSucceedsIff(uses: seq<Use>, registry: seq<Record>, groups: seq<LinkedGroup>)
    requires GroupIds(groups) <= ActiveIds(registry) && AdmitResults(uses, registry, groups, true).Ok?
    ensures AdmitResults(uses, registry, groups, false).Ok? <==>
            CoveredInTurn(INITIAL_BINDINGS.Keys, uses, Chosen(registry, GroupIds(groups), 0))
  {
    PublishedAreActive(registry, groups);
    OrdinaryAfterDiagnostics(uses, Chosen(registry, GroupIds(groups), 0), Chosen(registry, ActiveIds(registry), 0));
  }

  // ----- locators that name their own elements -----

  /** The locator is rooted, and its prefixes are core ones or those of the spans around its own candidate. */
  ghost predicate OwnPrefixes(uses: seq<Use>, c: LocatedCandidate) {
    && c.xpath != "" && c.xpath[0] == '/'
    && forall b: nat, e: nat :: IsPrefixToken(c.xpath, b, e) ==>
         c.xpath[b..e] in INITIAL_BINDINGS.Keys + Prefixes(UsesAt(uses, c.start))
  }

  lemma {:induction false} OwnPrefixesAreCovered(bound: set<string>, uses: seq<Use>, cs: seq<LocatedCandidate>)
    requires INITIAL_BINDINGS.Keys <= bound && forall c :: c in cs ==> OwnPrefixes(uses, c)
    ensures CoveredInTurn(bound, uses, cs)
    decreases |cs|
  {
    if cs != [] {
      var own := INITIAL_BINDINGS.Keys + Prefixes(UsesAt(uses, cs[0].start));
      var here := bound + Prefixes(UsesAt(uses, cs[0].start));
      assert OwnPrefixes(uses, cs[0]);
      ValidateIsExact(cs[0].xpath, own);
      ValidateIsMonotone(cs[0].xpath, own, here);
      OwnPrefixesAreCovered(here, uses, cs[1..]);
    }
  }

  /** Over such locators admission succeeds if and only if the enclosing prefixes of the published candidates
      are supported and have one meaning each. */
  lemma {:induction false} OwnAdmissionSucceedsIff(uses: seq<Use>, published: seq<LocatedCandidate>,
                                                   active: seq<LocatedCandidate>)
    requires forall c :: c in published ==> OwnPrefixes(uses, c)
    ensures Admit(uses, published, active).Ok? <==> SomeConsistent(AllUses(uses, published))
  {
    OwnPrefixesAreCovered(INITIAL_BINDINGS.Keys, uses, published);
    AdmissionSucceedsIff(uses, published, active);
  }

  /** Over such locators ordinary mode succeeds whenever diagnostics mode does, with the same map. */
  lemma {:induction false} OrdinaryModeFollows(uses: seq<Use>, registry: seq<Record>, groups: seq<LinkedGroup>)
    requires GroupIds(groups) <= ActiveIds(registry) && AdmitResults(uses, registry, groups, true).Ok?
    requires forall c :: c in Chosen(registry, GroupIds(groups), 0) ==> OwnPrefixes(uses, c)
    ensures AdmitResults(uses, registry, groups, false) == AdmitResults(uses, registry, groups, true)
  {
    OwnPrefixesAreCovered(INITIAL_BINDINGS.Keys, uses, Chosen(registry, GroupIds(groups), 0));
    OrdinaryModeSucceedsIff(uses, registry, groups);
    OutputModesAgree(uses, registry, groups);
  }

  // ----- what is published -----

  /** The group links code of both revisions. */
  predicate BothSides(g: LinkedGroup) { g.deletes != [] && g.inserts != [] }

  lemma {:induction false} GroupIdsElements(groups: seq<LinkedGroup>, id: nat)
    ensures id in GroupIds(groups) <==> exists g :: g in groups && BothSides(g) && (id in g.deletes || id in g.inserts)
  {
    if groups != [] {
      GroupIdsElements(groups[1..], id);
      assert forall g :: g in groups <==> g == groups[0] || g in groups[1..];
    }
  }

  /** A group without deletes or without inserts never changes the ordinary result. */
  lemma {:induction false} OneSidedGroupsDoNotMatter(uses: seq<Use>, registry: seq<Record>, before: seq<LinkedGroup>,
                                                     g: LinkedGroup, after: seq<LinkedGroup>)
    requires g.deletes == [] || g.inserts == []
    ensures AdmitResults(uses, registry, before + [g] + after, false) ==
            AdmitResults(uses, registry, before + after, false)
  {
    var more, fewer := before + [g] + after, before + after;
    forall id: nat ensures id in GroupIds(more) <==> id in GroupIds(fewer) {
      GroupIdsElements(more, id);
      GroupIdsElements(fewer, id);
      assert forall h :: h in more <==> h in fewer || h == g;
    }
    assert GroupIds(more) == GroupIds(fewer);
  }

  // The final map admits the candidate: the prefixes around it are supported and bound to their own URIs,
  // and its locator spells bound prefixes only.
  ghost predicate AdmitsCandidate(uses: seq<Use>, m: Bindings, c: LocatedCandidate) {
    && (forall u :: u in uses && Encloses(u, c.start) ==> Supported(u.prefix) && Binds(m, u))
    && Validate(c.xpath, m.Keys).Ok?
  }

  lemma {:induction false} PublishedAreAdmitted(uses: seq<Use>, published: seq<LocatedCandidate>,
                                                active: seq<LocatedCandidate>, c: LocatedCandidate)
    requires Admit(uses, published, active).Ok? && c in published
    ensures AdmitsCandidate(uses, Admit(uses, published, active).value, c)
  {
    AdmissionIsSound(uses, published, active);
    UsesAtIsExact(uses, c.start);
    forall u | u in uses && Encloses(u, c.start) ensures EnclosesSome(u, uses, published) {
      assert u in UsesAt(uses, c.start);
    }
  }

  /** When ordinary mode succeeds, every candidate of a group with both sides is admitted by the final map. */
  lemma {:induction false} OrdinaryModeAdmitsGroups(uses: seq<Use>, registry: seq<Record>, groups: seq<LinkedGroup>,
                                                    g: LinkedGroup, id: nat)
    requires AdmitResults(uses, registry, groups, false).Ok? && id < |registry|
    requires g in groups && g.deletes != [] && g.inserts != [] && (id in g.deletes || id in g.inserts)
    ensures AdmitsCandidate(uses, AdmitResults(uses, registry, groups, false).value, registry[id].candidate)
  {
    assert BothSides(g);
    GroupIdsElements(groups, id);
    ChosenElements(registry, GroupIds(groups), 0);
    PublishedAreAdmitted(uses, Chosen(registry, GroupIds(groups), 0), Chosen(registry, ActiveIds(registry), 0),
                         registry[id].candidate);
  }

  /** When diagnostics mode succeeds, every active candidate is admitted by the final map. */
  lemma {:induction false} DiagnosticsAdmitActive(uses: seq<Use>, registry: seq<Record>, groups: seq<LinkedGroup>,
                                                  id: nat)
    requires AdmitResults(uses, registry, groups, true).Ok? && id < |registry| && registry[id].active
    ensures AdmitsCandidate(uses, AdmitResults(uses, registry, groups, true).value, registry[id].candidate)
  {
    ChosenElements(registry, ActiveIds(registry), 0);
    PublishedAreAdmitted(uses, Chosen(registry, ActiveIds(registry), 0), Chosen(registry, ActiveIds(registry), 0),
                         registry[id].candidate);
  }

  // The use stands around a candidate of a group with both sides.
  ghost predicate AroundGroup(registry: seq<Record>, groups: seq<LinkedGroup>, u: Use) {
    exists g, id: nat :: g in groups && g.deletes != [] && g.inserts != [] && (id in g.deletes || id in g.inserts)
                         && id < |registry| && Encloses(u, registry[id].candidate.start)
  }

  // One map extends the initial one and binds the supported prefixes of these uses to their URIs.
  ghost predicate OneMeaning(uses: seq<Use>, registry: seq<Record>, groups: seq<LinkedGroup>) {
    exists full :: Extends(INITIAL_BINDINGS, full) &&
      forall u :: u in uses && AroundGroup(registry, groups, u) ==> Supported(u.prefix) && Binds(full, u)
  }

  lemma {:induction false} PublishedUsesElements(uses: seq<Use>, registry: seq<Record>, groups: seq<LinkedGroup>,
                                                 u: Use)
    ensures u in AllUses(uses, Chosen(registry, GroupIds(groups), 0)) <==> u in uses && AroundGroup(registry, groups, u)
  {
    var published := Chosen(registry, GroupIds(groups), 0);
    AllUsesElements(uses, published);
    ChosenElements(registry, GroupIds(groups), 0);
    if EnclosesSome(u, uses, published) {
      var c :| c in published && u in UsesAt(uses, c.start);
      var id: nat :| id < |registry| && id in GroupIds(groups) && registry[id].candidate == c;
      UsesAtIsExact(uses, c.start);
      GroupIdsElements(groups, id);
    }
    if u in uses && AroundGroup(registry, groups, u) {
      var g, id: nat :| g in groups && g.deletes != [] && g.inserts != [] && (id in g.deletes || id in g.inserts)
                        && id < |registry| && Encloses(u, registry[id].candidate.start);
      assert BothSides(g);
      GroupIdsElements(groups, id);
      UsesAtIsExact(uses, registry[id].candidate.start);
      assert registry[id].candidate in published;
    }
  }

  /** Over locators that name their own elements, ordinary mode succeeds if and only if the prefixes around the
      candidates of groups with both sides are supported and have one meaning each; nothing else vetoes it. */
  lemma {:induction false} OrdinaryModeSucceedsExactly(uses: seq<Use>, registry: seq<Record>, groups: seq<LinkedGroup>)
    requires forall id :: 0 <= id < |registry| ==> OwnPrefixes(uses, registry[id].candidate)
    ensures AdmitResults(uses, registry, groups, false).Ok? <==> OneMeaning(uses, registry, groups)
  {
    var published := Chosen(registry, GroupIds(groups), 0);
    ChosenElements(registry, GroupIds(groups), 0);
    OwnAdmissionSucceedsIff(uses, published, Chosen(registry, ActiveIds(registry), 0));
    forall u ensures u in AllUses(uses, published) <==> u in uses && AroundGroup(registry, groups, u) {
      PublishedUsesElements(uses, registry, groups, u);
    }
    if OneMeaning(uses, registry, groups) {
      var full :| Extends(INITIAL_BINDINGS, full) &&
        forall u :: u in uses && AroundGroup(registry, groups, u) ==> Supported(u.prefix) && Binds(full, u);
      assert Consistent(INITIAL_BINDINGS, AllUses(uses, published), full);
    }
  }

  /** A prefix is supported exactly when a locator can spell it as one prefix token. */
  lemma {:induction false} SupportedIffSpellable(prefix: string)
    ensures Supported(prefix) <==> IsPrefixToken("/" + prefix + ":", 1, |prefix| + 1)
  {
    var x := "/" + prefix + ":";
    assert forall k :: 0 <= k < |prefix| ==> x[k + 1] == prefix[k];
    assert QuoteAt(x, 0) == None && QuoteAt(x, 1) == None && !InsideName(x, 1);
    if IsPrefixToken(x, 1, |prefix| + 1) {
      forall i | 0 <= i < |prefix| ensures NameChar(prefix[i]) { assert NameChar(x[i + 1]); }
    }
  }

  // ----- the passes as the loops of the source -----

  lemma {:induction false} BindUsesStep(m: Bindings, uses: seq<Use>, indices: seq<nat>, k: nat, required: bool)
    requires k < |indices| && indices[k] < |uses|
    ensures BindUses(m, Picked(uses, indices[k..]), required) ==
            var one := BindUse(m, uses[indices[k]], required);
            if one.Err? then one else BindUses(one.value, Picked(uses, indices[k + 1..]), required)
  {
    assert indices[k..][1..] == indices[k + 1..];
    assert Picked(uses, indices[k..])[1..] == Picked(uses, indices[k + 1..]);
  }

  // The loop body for one enclosing use.
  method EmplaceUse(bindings: Bindings, u: Use, required: bool) returns (r: Result<Bindings, AdmissionError>)
    ensures r == BindUse(bindings, u, required)
  {
    if !Supported(u.prefix) {
      if required { return Err(UnsupportedPrefix); }
      return Ok(bindings);
    }
    var m := bindings;
    var inserted := u.prefix !in m;
    if inserted { m := m[u.prefix := u.uri]; }
    if !inserted && m[u.prefix] != u.uri && required { return Err(ConflictingPrefix(u.prefix)); }
    return Ok(m);
  }

  method Bind(index: LocatorNamespaceIndex, bindings: Bindings, c: LocatedCandidate, required: bool)
      returns (r: Result<Bindings, AdmissionError>)
    requires index.Valid()
    ensures r == BindCandidate(bindings, index.uses, c, required)
  {
    var enclosing, _ := index.Ancestors(c.start);
    EnclosingIsFilter(index.uses, c.start, |index.uses|);
    var m := bindings;
    for k := 0 to |enclosing|
      invariant BindUses(m, Picked(index.uses, enclosing[k..]), required) ==
                BindUses(bindings, UsesAt(index.uses, c.start), required)
    {
      assert enclosing[k] in enclosing;
      BindUsesStep(m, index.uses, enclosing, k, required);
      var one := EmplaceUse(m, index.uses[enclosing[k]], required);
      if one.Err? { return one; }
      m := one.value;
    }
    if required {
      var locator := ValidateLocator(c.xpath, m.Keys);
      if locator.Err? { return Err(Locator(locator.error)); }
    }
    return Ok(m);
  }

  lemma {:induction false} BindAllStep(m: Bindings, uses: seq<Use>, c: LocatedCandidate, rest: seq<LocatedCandidate>,
                                       required: bool)
    ensures BindAll(m, uses, [c] + rest, required) ==
            var one := BindCandidate(m, uses, c, required);
            if one.Err? then one else BindAll(one.value, uses, rest, required)
  {
    assert ([c] + rest)[1..] == rest;
  }

  // One pass over the chosen candidate ids, in id order.
  method RunPass(index: LocatorNamespaceIndex, registry: seq<Record>, ids: set<nat>, start: Bindings, required: bool)
      returns (r: Result<Bindings, AdmissionError>)
    requires index.Valid()
    ensures r == BindAll(start, index.uses, Chosen(registry, ids, 0), required)
  {
    var bindings := start;
    for id := 0 to |registry|
      invariant BindAll(bindings, index.uses, Chosen(registry, ids, id), required) ==
                BindAll(start, index.uses, Chosen(registry, ids, 0), required)
    {
      BindAllStep(bindings, index.uses, registry[id].candidate, Chosen(registry, ids, id + 1), required);
      if id in ids {
        var bound := Bind(index, bindings, registry[id].candidate, required);
        if bound.Err? { return bound; }
        bindings := bound.value;
      } else {
        assert [] + Chosen(registry, ids, id + 1) == Chosen(registry, ids, id + 1);
      }
    }
    return Ok(bindings);
  }

  /** The admission step of `run_pipeline`, run as its two passes. */
  method AdmitLocators(uses: seq<Use>, registry: seq<Record>, groups: seq<LinkedGroup>, diagnostics: bool)
      returns (r: Result<Bindings, AdmissionError>)
    requires SortedByStart(uses)
    ensures r == AdmitResults(uses, registry, groups, diagnostics)
  {
    var index := new LocatorNamespaceIndex(uses);
    var first := RunPass(index, registry, PublishedIds(registry, groups, diagnostics), INITIAL_BINDINGS, true);
    if first.Err? { return first; }
    r := RunPass(index, registry, ActiveIds(registry), first.value, false);
  }
}
