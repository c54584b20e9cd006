/** The locator lexer of src/pipeline.cpp: which namespace prefixes a locator uses.

    The character classes are those of std::isalpha and std::isalnum in the "C" locale. */
module Locators {
  import opened Wrappers

  datatype LocatorError = InvalidLocator | UnboundPrefix(prefix: string)

  predicate IsAlpha(c: char) { 'a' <= c <= 'z' || 'A' <= c <= 'Z' }

  predicate NameStart(c: char) { IsAlpha(c) || c == '_' }

  predicate NameChar(c: char) { NameStart(c) || '0' <= c <= '9' || c == '-' || c == '.' }

  predicate Quote(c: char) { c == '\'' || c == '"' }

  const LOWER := "abcdefghijklmnopqrstuvwxyz"
  const UPPER := "ABCDEFGHIJKLMNOPQRSTUVWXYZ"
  const DIGITS := "0123456789"

  /** The classes of characters, listed. */
  lemma {:induction false} CharacterClasses(c: char)
    ensures NameStart(c) <==> c in LOWER || c in UPPER || c == '_'
    ensures NameChar(c) <==> c in LOWER || c in UPPER || c == '_' || c in DIGITS || c == '-' || c == '.'
    ensures Quote(c) <==> c in {'\'', '"'}
  {
    Listed(c, LOWER, 'a');
    Listed(c, UPPER, 'A');
    Listed(c, DIGITS, '0');
  }

  // A list of consecutive characters is a range.
  lemma {:induction false} Listed(c: char, list: string, first: char)
    requires list != [] && first as int + |list| < 128
    requires forall i :: 0 <= i < |list| ==> list[i] as int == first as int + i
    ensures c in list <==> first <= c && c as int < first as int + |list|
  {
    if first <= c && c as int < first as int + |list| { assert list[c as int - first as int] == c; }
  }

  // ----- the lexer as a function -----

  function NameEnd(x: string, i: nat): (e: nat)
    requires i <= |x|
    ensures i <= e <= |x|
    ensures forall k :: i <= k < e ==> NameChar(x[k])
    ensures e < |x| ==> !NameChar(x[e])
    decreases |x| - i
  {
    if i < |x| && NameChar(x[i]) then NameEnd(x, i + 1) else i
  }

  function QuoteStep(quote: Option<char>, c: char): Option<char> {
    if quote.Some? then (if c == quote.value then None else quote)
    else if Quote(c) then Some(c) else None
  }

  // The prefixes read from position i on, `quote` being the open quotation mark.
  function Scan(x: string, i: nat, quote: Option<char>): seq<string>
    requires i <= |x|
    decreases |x| - i
  {
    if i == |x| then []
    else if quote.Some? || Quote(x[i]) || !NameStart(x[i]) then Scan(x, i + 1, QuoteStep(quote, x[i]))
    else
      var e := NameEnd(x, i + 1);
      if e < |x| && x[e] == ':' then [x[i..e]] + Scan(x, e + 1, None) else Scan(x, e, None)
  }

  function FirstUnbound(prefixes: seq<string>, bound: set<string>): Result<(), LocatorError> {
    if prefixes == [] then Ok(())
    else if prefixes[0] !in bound then Err(UnboundPrefix(prefixes[0]))
    else FirstUnbound(prefixes[1..], bound)
  }

  /** `validate_locator_namespaces`. */
  function Validate(x: string, bound: set<string>): Result<(), LocatorError> {
    if x == "" || x[0] != '/' then Err(InvalidLocator)
    else FirstUnbound(Scan(x, 0, None), bound)
  }

  // ----- what a prefix is, without the lexer -----

  // The open quotation mark before position i.
  ghost function QuoteAt(x: string, i: nat): (q: Option<char>)
    requires i <= |x|
    ensures q.Some? ==> Quote(q.value)
  {
    if i == 0 then None else QuoteStep(QuoteAt(x, i - 1), x[i - 1])
  }

  ghost predicate NameRun(x: string, b: nat, e: nat)
    requires b <= e <= |x|
  {
    forall k :: b <= k < e ==> NameChar(x[k])
  }

  // Some name that starts before i still runs up to i.
  ghost predicate InsideName(x: string, i: nat)
    requires i <= |x|
  {
    exists b :: 0 <= b < i && NameStart(x[b]) && NameRun(x, b, i)
  }

  /** x[b..e] is an unquoted name, starting no later than any name that runs into it, followed by
      a colon. */
  ghost predicate IsPrefixToken(x: string, b: nat, e: nat) {
    && b < e < |x| && x[e] == ':'
    && NameStart(x[b]) && NameRun(x, b, e)
    && QuoteAt(x, b) == None
    && !InsideName(x, b)
  }

  // ----- the lexer reads exactly those -----

  lemma {:induction false} QuoteFree(x: string, i: nat, j: nat)
    requires i <= j <= |x| && QuoteAt(x, i) == None
    requires forall k :: i <= k < j ==> !Quote(x[k])
    ensures forall k :: i <= k <= j ==> QuoteAt(x, k) == None
  {
    if i < j {
      QuoteFree(x, i, j - 1);
    }
  }

  // The lexer may stop at i: no name that started earlier continues with x[i].
  ghost predicate Boundary(x: string, i: nat)
    requires i <= |x|
  {
    i < |x| && QuoteAt(x, i) == None && NameChar(x[i]) ==> !InsideName(x, i)
  }

  // InsideName is a one-pass state: it holds after x[i] iff x[i] starts or continues a name.
  lemma {:induction false} InsideNext(x: string, i: nat)
    requires i < |x|
    ensures InsideName(x, i + 1) <==> NameChar(x[i]) && (NameStart(x[i]) || InsideName(x, i))
  {
    if InsideName(x, i + 1) {
      var b :| 0 <= b < i + 1 && NameStart(x[b]) && NameRun(x, b, i + 1);
      assert b < i ==> NameRun(x, b, i);
    }
    if NameStart(x[i]) { assert NameRun(x, i, i + 1); }
    if NameChar(x[i]) && InsideName(x, i) {
      var b :| 0 <= b < i && NameStart(x[b]) && NameRun(x, b, i);
      assert NameRun(x, b, i + 1);
    }
  }

  lemma {:induction false} BoundaryNext(x: string, i: nat)
    requires i < |x| && Boundary(x, i)
    requires QuoteAt(x, i).Some? || Quote(x[i]) || !NameStart(x[i])
    ensures Boundary(x, i + 1)
  {
    InsideNext(x, i);
  }

  // p is the text of a prefix token that starts at `from` or later.
  ghost predicate IsPrefixFrom(x: string, from: nat, p: string) {
    exists b: nat, e: nat :: from <= b && IsPrefixToken(x, b, e) && p == x[b..e]
  }

  // Skipping positions that start no token loses no prefix.
  lemma {:induction false} SkipPositions(x: string, from: nat, to: nat, p: string)
    requires from <= to
    requires forall b: nat, e: nat :: from <= b < to ==> !IsPrefixToken(x, b, e)
    ensures IsPrefixFrom(x, from, p) <==> IsPrefixFrom(x, to, p)
  {
    if IsPrefixFrom(x, from, p) {
      var b: nat, e: nat :| from <= b && IsPrefixToken(x, b, e) && p == x[b..e];
      assert to <= b;
    }
  }

  // From a place where the lexer may stop it reads p exactly when p is a prefix from there on.
  ghost predicate ReadsTokens(x: string, i: nat, p: string)
    requires i <= |x|
  {
    p in Scan(x, i, QuoteAt(x, i)) <==> IsPrefixFrom(x, i, p)
  }

  lemma {:induction false} ReadsOther(x: string, i: nat, p: string)
    requires i < |x| && (QuoteAt(x, i).Some? || Quote(x[i]) || !NameStart(x[i])) && ReadsTokens(x, i + 1, p)
    ensures ReadsTokens(x, i, p)
  {
    SkipPositions(x, i, i + 1, p);
  }

  lemma {:induction false} ReadsPrefix(x: string, i: nat, e: nat, p: string)
    requires i < e < |x| && e == NameEnd(x, i + 1) && x[e] == ':' && Boundary(x, i)
    requires QuoteAt(x, i) == None && !Quote(x[i]) && NameStart(x[i]) && ReadsTokens(x, e + 1, p)
    ensures ReadsTokens(x, i, p)
  {
    NameTokens(x, i);
    assert Scan(x, i, None) == [x[i..e]] + Scan(x, e + 1, None);
    SkipPositions(x, i + 1, e + 1, p);
    FirstOrLater(x, i, e, p);
  }

  lemma {:induction false} ReadsName(x: string, i: nat, e: nat, p: string)
    requires i < e <= |x| && e == NameEnd(x, i + 1) && (e < |x| ==> x[e] != ':') && Boundary(x, i)
    requires QuoteAt(x, i) == None && !Quote(x[i]) && NameStart(x[i]) && ReadsTokens(x, e, p)
    ensures ReadsTokens(x, i, p)
  {
    NameTokens(x, i);
    SkipPositions(x, i, e, p);
  }

  lemma {:induction false} ScanReadsTokens(x: string, i: nat, p: string)
    requires i <= |x| && Boundary(x, i)
    ensures ReadsTokens(x, i, p)
    decreases |x| - i
  {
    if i == |x| {
    } else if QuoteAt(x, i).Some? || Quote(x[i]) || !NameStart(x[i]) {
      BoundaryNext(x, i);
      ScanReadsTokens(x, i + 1, p);
      ReadsOther(x, i, p);
    } else {
      var e := NameEnd(x, i + 1);
      NameTokens(x, i);
      if e < |x| && x[e] == ':' {
        ScanReadsTokens(x, e + 1, p);
        ReadsPrefix(x, i, e, p);
      } else {
        ScanReadsTokens(x, e, p);
        ReadsName(x, i, e, p);
      }
    }
  }

  lemma {:induction false} FirstOrLater(x: string, i: nat, e: nat, p: string)
    requires IsPrefixToken(x, i, e) && forall f: nat :: IsPrefixToken(x, i, f) ==> f == e
    ensures IsPrefixFrom(x, i, p) <==> p == x[i..e] || IsPrefixFrom(x, i + 1, p)
  {
    if IsPrefixFrom(x, i, p) {
      var b: nat, f: nat :| i <= b && IsPrefixToken(x, b, f) && p == x[b..f];
      assert b == i ==> f == e;
    }
  }

  lemma {:induction false} NameEndIsUnique(x: string, i: nat, f: nat)
    requires i <= f < |x| && NameRun(x, i, f) && !NameChar(x[f])
    ensures NameEnd(x, i) == f
    decreases f - i
  {
    if i < f { NameEndIsUnique(x, i + 1, f); }
  }

  // The name the lexer reads at i, and where it stops after it.
  lemma {:induction false} NameTokens(x: string, i: nat)
    requires i < |x| && Boundary(x, i) && QuoteAt(x, i) == None && NameStart(x[i])
    ensures var e := NameEnd(x, i + 1);
            var colon := e < |x| && x[e] == ':';
            && QuoteAt(x, e) == None && Boundary(x, e)
            && (colon ==> IsPrefixToken(x, i, e) && QuoteAt(x, e + 1) == None && Boundary(x, e + 1))
            && (forall f: nat :: IsPrefixToken(x, i, f) ==> colon && f == e)
            && (forall b: nat, f: nat :: i < b <= e ==> !IsPrefixToken(x, b, f))
  {
    var e := NameEnd(x, i + 1);
    QuoteFree(x, i, e);
    assert NameRun(x, i, e);
    if e < |x| { InsideNext(x, e); }
    forall b: nat, f: nat | i < b <= e ensures !IsPrefixToken(x, b, f) {
      assert b < e ==> NameRun(x, i, b);
      assert b < e ==> InsideName(x, b);
    }
    forall f: nat | IsPrefixToken(x, i, f) ensures e < |x| && f == e {
      NameEndIsUnique(x, i + 1, f);
    }
  }

  /** The lexer finds exactly the prefix tokens of the locator. */
  lemma {:induction false} ScanIsExact(x: string, p: string)
    ensures p in Scan(x, 0, None) <==> exists b: nat, e: nat :: IsPrefixToken(x, b, e) && p == x[b..e]
  {
    ScanReadsTokens(x, 0, p);
    assert IsPrefixFrom(x, 0, p) <==> exists b: nat, e: nat :: IsPrefixToken(x, b, e) && p == x[b..e];
  }

  lemma {:induction false} FirstUnboundIsExact(prefixes: seq<string>, bound: set<string>)
    ensures FirstUnbound(prefixes, bound).Ok? <==> forall p :: p in prefixes ==> p in bound
    ensures FirstUnbound(prefixes, bound).Err? ==>
              exists i :: 0 <= i < |prefixes| && prefixes[i] !in bound &&
                FirstUnbound(prefixes, bound).error == UnboundPrefix(prefixes[i]) &&
                forall j :: 0 <= j < i ==> prefixes[j] in bound
  {
    if prefixes != [] && prefixes[0] in bound {
      FirstUnboundIsExact(prefixes[1..], bound);
      if FirstUnbound(prefixes, bound).Err? {
        var i :| 0 <= i < |prefixes| - 1 && prefixes[1..][i] !in bound &&
                 FirstUnbound(prefixes, bound).error == UnboundPrefix(prefixes[1..][i]) &&
                 forall j :: 0 <= j < i ==> prefixes[1..][j] in bound;
        forall j | 0 <= j < i + 1 ensures prefixes[j] in bound {
          if j > 0 { assert prefixes[1..][j - 1] == prefixes[j]; }
        }
        assert prefixes[i + 1] == prefixes[1..][i];
      }
    }
  }

  /** A locator is admitted exactly when it is rooted and every prefix token it holds is bound. */
  lemma {:induction false} ValidateIsExact(x: string, bound: set<string>)
    ensures Validate(x, bound).Ok? <==>
              && x != "" && x[0] == '/'
              && forall b: nat, e: nat :: IsPrefixToken(x, b, e) ==> x[b..e] in bound
    ensures Validate(x, bound) == Err(InvalidLocator) <==> x == "" || x[0] != '/'
  {
    FirstUnboundIsExact(Scan(x, 0, None), bound);
    forall p ensures p in Scan(x, 0, None) <==> exists b: nat, e: nat :: IsPrefixToken(x, b, e) && p == x[b..e] {
      ScanIsExact(x, p);
    }
    if Validate(x, bound).Ok? {
      forall b: nat, e: nat | IsPrefixToken(x, b, e) ensures x[b..e] in bound {
        assert x[b..e] in Scan(x, 0, None);
      }
    }
  }

  /** The reported prefix is one that the locator spells and nothing binds. */
  lemma {:induction false} ReportedPrefixIsUnbound(x: string, bound: set<string>, p: string)
    requires Validate(x, bound) == Err(UnboundPrefix(p))
    ensures p !in bound && exists b: nat, e: nat :: IsPrefixToken(x, b, e) && p == x[b..e]
  {
    FirstUnboundIsExact(Scan(x, 0, None), bound);
    ScanIsExact(x, p);
  }

  /** More bindings never reject an admitted locator. */
  lemma {:induction false} ValidateIsMonotone(x: string, bound: set<string>, more: set<string>)
    requires Validate(x, bound).Ok? && bound <= more
    ensures Validate(x, more).Ok?
  {
    ValidateIsExact(x, bound);
    ValidateIsExact(x, more);
  }

  // ----- the lexer as the loop of the source -----

  method ValidateLocator(x: string, bound: set<string>) returns (r: Result<(), LocatorError>)
    ensures r == Validate(x, bound)
  {
    if x == "" || x[0] != '/' { return Err(InvalidLocator); }
    var quote: Option<char> := None;
    var index := 0;
    while index < |x|
      invariant index <= |x|
      invariant Validate(x, bound) == FirstUnbound(Scan(x, index, quote), bound)
    {
      var character := x[index];
      if quote.Some? {
        if character == quote.value { quote := None; }
        index := index + 1;
        continue;
      }
      if Quote(character) {
        quote := Some(character);
        index := index + 1;
        continue;
      }
      if !NameStart(character) {
        index := index + 1;
        continue;
      }
      var begin := index;
      index := index + 1;
      while index < |x| && NameChar(x[index])
        invariant begin < index <= |x|
        invariant NameEnd(x, begin + 1) == NameEnd(x, index)
      {
        index := index + 1;
      }
      if index < |x| && x[index] == ':' {
        var prefix := x[begin..index];
        if prefix !in bound { return Err(UnboundPrefix(prefix)); }
        index := index + 1;
      }
    }
    return Ok(());
  }
}
