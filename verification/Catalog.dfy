/** The catalog import and its framed inventories: bigMoveBench/catalog.py (207-220, 264-320, 569-597) and
    the framed key of bigMoveBench/oracle.py (47-53). */
module Catalog {
  import opened Wrappers
  import opened Ordering

  // ----- import -----

  /** One CSV row: its conflict key (pair kind and row hash) and the two functions it describes. */
  datatype Source = Source(key: string, one: Function, two: Function, functionality: int)

  datatype Function = Function(id: int, metadata: string)

  datatype ImportError = ConflictingFunction(id: int)

  datatype Imported = Imported(multiplicity: map<string, nat>, known: Known)


  // How often a key occurs.
  function Occurrences(keys: seq<string>, k: string): nat {
    if keys == [] then 0 else Occurrences(keys[..|keys| - 1], k) + if keys[|keys| - 1] == k then 1 else 0
  }

  lemma {:induction false} OccurrencesConcat(a: seq<string>, b: seq<string>, k: string)
    ensures Occurrences(a + b, k) == Occurrences(a, k) + Occurrences(b, k)
  {
    if b == [] {
      assert a + b == a;
    } else {
      assert (a + b)[..|a + b| - 1] == a + b[..|b| - 1];
      OccurrencesConcat(a, b[..|b| - 1], k);
    }
  }

  function Keys(rows: seq<Source>): (r: seq<string>)
    ensures |r| == |rows| && forall i :: 0 <= i < |rows| ==> r[i] == rows[i].key
  {
    seq(|rows|, i requires 0 <= i < |rows| => rows[i].key)
  }

  /** A row mentions two functions, for one functionality. */
  datatype Mention = Mention(functionality: int, described: Function)

  function MentionsOf(rows: seq<Source>): seq<Mention> {
    if rows == [] then [] else
      var last := rows[|rows| - 1];
      MentionsOf(rows[..|rows| - 1]) + [Mention(last.functionality, last.one), Mention(last.functionality, last.two)]
  }

  lemma {:induction false} MentionsElements(rows: seq<Source>, m: Mention)
    ensures m in MentionsOf(rows) <==>
            exists r :: r in rows && m.functionality == r.functionality
                && (m.described == r.one || m.described == r.two)
  {
    if rows != [] {
      var n := |rows| - 1;
      MentionsElements(rows[..n], m);
      assert forall r :: r in rows <==> r in rows[..n] || r == rows[n];
    }
  }

  /** What is known of the functions: their metadata, and which functionality uses which function. */
  datatype Known = Known(functions: map<int, string>, uses: set<(int, int)>)

  ghost predicate Describes(functions: map<int, string>, m: Mention) {
    m.described.id in functions && functions[m.described.id] == m.described.metadata
  }

  ghost predicate Fits(all: map<int, string>, known: Known, mentions: seq<Mention>) {
    && (forall id :: id in known.functions ==> id in all && all[id] == known.functions[id])
    && (forall m :: m in mentions ==> Describes(all, m))
  }

  /** The mentions describe every function consistently with each other and with what is known. */
  ghost predicate Consistent(known: Known, mentions: seq<Mention>) {
    exists all: map<int, string> :: Fits(all, known, mentions)
  }

  // Exactly what was known before and what the mentions say.
  ghost predicate Remembers(k: Known, known: Known, mentions: seq<Mention>) {
    && Fits(k.functions, known, mentions)
    && (forall id :: id in k.functions ==> id in known.functions || exists m :: m in mentions && m.described.id == id)
    && (forall u :: u in k.uses <==>
          u in known.uses || exists m :: m in mentions && u == (m.functionality, m.described.id))
  }

  // The table after `keys` have been added to `start`.
  ghost predicate Tallied(table: map<string, nat>, start: map<string, nat>, keys: seq<string>) {
    && (forall k :: Lookup(table, k) == Lookup(start, k) + Occurrences(keys, k))
    && (forall k :: k in table <==> k in start || k in keys)
  }

  /** `executemany` of the upsert over one batch. */
  method FlushPairs(table: map<string, nat>, batch: seq<string>) returns (r: map<string, nat>)
    ensures Tallied(r, table, batch)
  {
    r := table;
    for i := 0 to |batch|
      invariant Tallied(r, table, batch[..i])
    {
      assert batch[..i + 1][..i] == batch[..i] && batch[..i + 1] == batch[..i] + [batch[i]];
      r := r[batch[i] := Lookup(r, batch[i]) + 1];
    }
    assert batch[..|batch|] == batch;
  }

  lemma {:induction false} ConflictIsInconsistent(k: Known, known: Known, mentions: seq<Mention>, m: Mention)
    requires Remembers(k, known, mentions)
    requires m.described.id in k.functions && k.functions[m.described.id] != m.described.metadata
    ensures !Consistent(known, mentions + [m])
  {
    forall all: map<int, string> ensures !Fits(all, known, mentions + [m]) {
      assert m in mentions + [m];
      if m.described.id !in known.functions {
        var x :| x in mentions && x.described.id == m.described.id;
        assert x in mentions + [m] && Describes(k.functions, x);
      }
    }
  }

  lemma {:induction false} RememberedIsExact(k: Known, known: Known, mentions: seq<Mention>, m: Mention)
    requires Remembers(k, known, mentions)
    requires m.described.id in k.functions ==> k.functions[m.described.id] == m.described.metadata
    ensures Remembers(Known(k.functions[m.described.id := m.described.metadata],
                            k.uses + {(m.functionality, m.described.id)}),
                      known, mentions + [m])
  {
    assert forall x :: x in mentions + [m] <==> x in mentions || x == m;
  }

  /** `_remember_function`: it fails exactly when the mention contradicts what was remembered. */
  method RememberFunction(k: Known, m: Mention, ghost known: Known, ghost mentions: seq<Mention>)
      returns (r: Result<Known, ImportError>)
    requires Remembers(k, known, mentions)
    ensures r.Ok? <==> Consistent(known, mentions + [m])
    ensures r.Ok? ==> Remembers(r.value, known, mentions + [m])
    ensures r.Err? ==> r.error == ConflictingFunction(m.described.id)
  {
    var f := m.described;
    if f.id in k.functions && k.functions[f.id] != f.metadata {
      ConflictIsInconsistent(k, known, mentions, m);
      return Err(ConflictingFunction(f.id));
    }
    RememberedIsExact(k, known, mentions, m);
    r := Ok(Known(k.functions[f.id := f.metadata], k.uses + {(m.functionality, f.id)}));
    assert Fits(r.value.functions, known, mentions + [m]);
  }

  // An inconsistent beginning stays inconsistent.
  lemma {:induction false} ConsistentPrefix(known: Known, rows: seq<Source>, i: nat)
    requires i <= |rows| && Consistent(known, MentionsOf(rows))
    ensures Consistent(known, MentionsOf(rows[..i]))
  {
    var all :| Fits(all, known, MentionsOf(rows));
    forall m | m in MentionsOf(rows[..i]) ensures Describes(all, m) {
      MentionsElements(rows[..i], m);
      MentionsElements(rows, m);
    }
    assert Fits(all, known, MentionsOf(rows[..i]));
  }

  // Both functions of row i.
  method RememberRow(k: Known, row: Source, ghost known: Known, ghost rows: seq<Source>, ghost i: nat)
      returns (r: Result<Known, ImportError>)
    requires i < |rows| && row == rows[i] && Remembers(k, known, MentionsOf(rows[..i]))
    ensures r.Ok? <==> Consistent(known, MentionsOf(rows[..i + 1]))
    ensures r.Ok? ==> Remembers(r.value, known, MentionsOf(rows[..i + 1]))
  {
    ghost var before := MentionsOf(rows[..i]);
    ghost var one, two := Mention(row.functionality, row.one), Mention(row.functionality, row.two);
    assert rows[..i + 1][..i] == rows[..i];
    assert MentionsOf(rows[..i + 1]) == before + [one] + [two];
    r := RememberFunction(k, Mention(row.functionality, row.one), known, before);
    if r.Err? {
      LongerIsInconsistent(known, before + [one], two);
      return;
    }
    r := RememberFunction(r.value, Mention(row.functionality, row.two), known, before + [one]);
  }

  lemma {:induction false} LongerIsInconsistent(known: Known, mentions: seq<Mention>, m: Mention)
    requires !Consistent(known, mentions)
    ensures !Consistent(known, mentions + [m])
  {
    forall all: map<int, string> ensures !Fits(all, known, mentions + [m]) {
      if Fits(all, known, mentions + [m]) {
        assert forall x :: x in mentions ==> x in mentions + [m];
        assert Fits(all, known, mentions);
      }
    }
  }

  method FlushBatch(table: map<string, nat>, batch: seq<string>, ghost start: map<string, nat>,
                    ghost flushed: seq<string>)
      returns (r: map<string, nat>)
    requires Tallied(table, start, flushed)
    ensures Tallied(r, start, flushed + batch)
  {
    r := FlushPairs(table, batch);
    forall k ensures Occurrences(flushed + batch, k) == Occurrences(flushed, k) + Occurrences(batch, k) {
      OccurrencesConcat(flushed, batch, k);
    }
  }

  /** The rows that the batch holds, and the table without them. */
  datatype Batched = Batched(table: map<string, nat>, batch: seq<string>)

  // The keys so far are in the table or in the batch.
  ghost predicate Holds(b: Batched, start: map<string, nat>, keys: seq<string>) {
    |b.batch| <= |keys| && b.batch == keys[|keys| - |b.batch|..] && Tallied(b.table, start, keys[..|keys| - |b.batch|])
  }

  lemma {:induction false} HoldsAppend(b: Batched, start: map<string, nat>, keys: seq<string>, key: string)
    requires Holds(b, start, keys)
    ensures Holds(Batched(b.table, b.batch + [key]), start, keys + [key])
  {
    var flushed := |keys| - |b.batch|;
    assert (keys + [key])[..flushed] == keys[..flushed] && (keys + [key])[flushed..] == keys[flushed..] + [key];
  }

  // Flushes the batch.
  method FlushAll(b: Batched, ghost start: map<string, nat>, ghost keys: seq<string>) returns (table: map<string, nat>)
    requires Holds(b, start, keys)
    ensures Tallied(table, start, keys)
  {
    ghost var flushed := keys[..|keys| - |b.batch|];
    assert flushed + b.batch == keys;
    table := FlushBatch(b.table, b.batch, start, flushed);
  }

  lemma {:induction false} HoldsFlushed(table: map<string, nat>, start: map<string, nat>, keys: seq<string>)
    requires Tallied(table, start, keys)
    ensures Holds(Batched(table, []), start, keys)
  {
    assert keys[..|keys|] == keys;
  }

  // Adds a key, and flushes a full batch; what is kept never fills one.
  method AddToBatch(b: Batched, key: string, batchSize: nat, ghost start: map<string, nat>, ghost keys: seq<string>)
      returns (r: Batched)
    requires |b.batch| < batchSize && Holds(b, start, keys)
    ensures |r.batch| < batchSize && Holds(r, start, keys + [key])
  {
    HoldsAppend(b, start, keys, key);
    r := Batched(b.table, b.batch + [key]);
    if |r.batch| >= batchSize {
      var table := FlushAll(r, start, keys + [key]);
      HoldsFlushed(table, start, keys + [key]);
      r := Batched(table, []);
    }
  }

  // What has been imported of the first i rows.
  ghost predicate Imports(known: Known, b: Batched, start: Imported, rows: seq<Source>, i: nat) {
    i <= |rows| && Remembers(known, start.known, MentionsOf(rows[..i])) && Holds(b, start.multiplicity, Keys(rows[..i]))
  }

  method ImportRow(known: Known, b: Batched, batchSize: nat, ghost start: Imported, rows: seq<Source>, i: nat)
      returns (r: Result<Known, ImportError>, next: Batched)
    requires i < |rows| && |b.batch| < batchSize && Imports(known, b, start, rows, i)
    ensures r.Ok? ==> |next.batch| < batchSize && Imports(r.value, next, start, rows, i + 1)
    ensures r.Err? ==> !Consistent(start.known, MentionsOf(rows))
  {
    next := b;
    r := RememberRow(known, rows[i], start.known, rows, i);
    if r.Err? {
      LaterRowsStayInconsistent(start.known, rows, i + 1);
      return;
    }
    KeysNext(rows, i);
    next := AddToBatch(b, rows[i].key, batchSize, start.multiplicity, Keys(rows[..i]));
  }

  lemma {:induction false} KeysNext(rows: seq<Source>, i: nat)
    requires i < |rows|
    ensures Keys(rows[..i + 1]) == Keys(rows[..i]) + [rows[i].key]
  {
  }

  lemma {:induction false} LaterRowsStayInconsistent(known: Known, rows: seq<Source>, i: nat)
    requires i <= |rows| && !Consistent(known, MentionsOf(rows[..i]))
    ensures !Consistent(known, MentionsOf(rows))
  {
    if Consistent(known, MentionsOf(rows)) { ConsistentPrefix(known, rows, i); }
  }

  // The last, partial batch.
  method FinishImport(known: Known, b: Batched, ghost start: Imported, ghost rows: seq<Source>) returns (r: Imported)
    requires Imports(known, b, start, rows, |rows|)
    ensures Tallied(r.multiplicity, start.multiplicity, Keys(rows))
    ensures Remembers(r.known, start.known, MentionsOf(rows)) && Consistent(start.known, MentionsOf(rows))
  {
    assert rows[..|rows|] == rows;
    var table := FlushAll(b, start.multiplicity, Keys(rows));
    assert Fits(known.functions, start.known, MentionsOf(rows));
    return Imported(table, known);
  }

  /** `_import_export`: batching does not matter.  Whatever the batch size, the import succeeds exactly
      when the rows describe every function consistently, and then every key has gained as much
      multiplicity as it has rows, and the functions and their uses are the known ones and those of the
      rows. */
  method ImportExport(start: Imported, rows: seq<Source>, batchSize: nat) returns (r: Result<Imported, ImportError>)
    requires batchSize > 0
    ensures r.Ok? <==> Consistent(start.known, MentionsOf(rows))
    ensures r.Ok? ==> && Tallied(r.value.multiplicity, start.multiplicity, Keys(rows))
                      && Remembers(r.value.known, start.known, MentionsOf(rows))
  {
    var known := start.known;
    var b := Batched(start.multiplicity, []);
    for i := 0 to |rows|
      invariant |b.batch| < batchSize && Imports(known, b, start, rows, i)
    {
      var remembered, next := ImportRow(known, b, batchSize, start, rows, i);
      if remembered.Err? { return Err(remembered.error); }
      known, b := remembered.value, next;
    }
    var imported := FinishImport(known, b, start, rows);
    return Ok(imported);
  }

  // ----- conservation -----

  /** A catalog imported from nothing: the multiplicities sum to the imported rows, and what they count
      beyond one per catalog row are the duplicate source rows. */
  lemma {:induction false} MultiplicitiesAreConserved(table: map<string, nat>, rows: seq<string>, keys: seq<string>)
    requires Tallied(table, map[], rows) && Distinct(keys) && forall k :: k in keys <==> k in table
    ensures Total(k => Lookup(table, k), keys) == |rows|
    ensures Total(k => if Lookup(table, k) == 0 then 0 else Lookup(table, k) - 1, keys) == |rows| - |keys|
  {
    OccurrencesAreConserved(rows, keys);
    TotalPointwise(k => Lookup(table, k), k => Occurrences(rows, k), keys);
    forall k | k in keys ensures Lookup(table, k) > 0 { EveryKeyOccurs(rows, k); }
    TotalSplit(k => Lookup(table, k), k => if Lookup(table, k) == 0 then 0 else Lookup(table, k) - 1, k => 1, keys);
    TotalOfOnes(k => 1, keys);
  }

  lemma {:induction false} EveryKeyOccurs(rows: seq<string>, k: string)
    ensures k in rows <==> Occurrences(rows, k) > 0
  {
    if rows != [] {
      var n := |rows| - 1;
      EveryKeyOccurs(rows[..n], k);
      assert rows == rows[..n] + [rows[n]];
    }
  }

  lemma {:induction false} OccurrencesAreConserved(rows: seq<string>, keys: seq<string>)
    requires Distinct(keys) && forall k :: k in rows ==> k in keys
    ensures Total(k => Occurrences(rows, k), keys) == |rows|
  {
    if rows == [] {
      ZeroTotal(keys);
    } else {
      var n := |rows| - 1;
      assert rows[n] in rows && forall k :: k in rows[..n] ==> k in rows;
      OccurrencesAreConserved(rows[..n], keys);
      OneTotal(rows[n], keys);
      TotalSplit(k => Occurrences(rows, k), k => Occurrences(rows[..n], k), k => if k == rows[n] then 1 else 0, keys);
    }
  }

  lemma {:induction false} ZeroTotal(keys: seq<string>)
    ensures Total(k => Occurrences([], k), keys) == 0
  {
    if keys != [] { ZeroTotal(keys[1..]); }
  }

  lemma {:induction false} OneTotal(x: string, keys: seq<string>)
    requires Distinct(keys)
    ensures Total(k => if k == x then 1 else 0, keys) == if x in keys then 1 else 0
  {
    if keys != [] { OneTotal(x, keys[1..]); }
  }

  // ----- framing -----

  newtype byte = x: int | 0 <= x < 256

  const LIMIT: nat := 0x1_0000_0000_0000_0000

  function Power(k: nat): nat { if k == 0 then 1 else 256 * Power(k - 1) }

  /** `int.to_bytes(k, "big")`. */
  function Bytes(n: nat, k: nat): (r: seq<byte>)
    ensures |r| == k
  {
    if k == 0 then [] else Bytes(n / 256, k - 1) + [(n % 256) as byte]
  }

  function Value(bytes: seq<byte>): nat {
    if bytes == [] then 0 else 256 * Value(bytes[..|bytes| - 1]) + bytes[|bytes| - 1] as nat
  }

  lemma {:induction false} ValueOfBytes(n: nat, k: nat)
    requires n < Power(k)
    ensures Value(Bytes(n, k)) == n
  {
    if k > 0 {
      ValueOfBytes(n / 256, k - 1);
      assert Bytes(n, k)[..k - 1] == Bytes(n / 256, k - 1);
    }
  }

  lemma {:induction false} EightBytes()
    ensures Power(8) == LIMIT
  {
    assert Power(2) == 0x1_0000 && Power(4) == 0x1_0000_0000 && Power(6) == 0x1_0000_0000_0000;
  }

  datatype FrameError = TooLong | Truncated

  /** The bytes that reach the hasher: each row after its length in eight bytes. */
  function Framed(rows: seq<seq<byte>>): seq<byte> {
    if rows == [] then [] else Bytes(|rows[0]|, 8) + rows[0] + Framed(rows[1..])
  }

  lemma {:induction false} FramedConcat(a: seq<seq<byte>>, b: seq<seq<byte>>)
    ensures Framed(a + b) == Framed(a) + Framed(b)
  {
    if a == [] {
      assert a + b == b;
    } else {
      assert (a + b)[1..] == a[1..] + b;
      FramedConcat(a[1..], b);
    }
  }

  /** The hashing loop; a length that does not fit in eight bytes is an error. */
  method FrameRows(rows: seq<seq<byte>>) returns (r: Result<seq<byte>, FrameError>)
    ensures r.Ok? <==> forall row :: row in rows ==> |row| < LIMIT
    ensures r == if r.Ok? then Ok(Framed(rows)) else Err(TooLong)
  {
    var hashed: seq<byte> := [];
    for i := 0 to |rows|
      invariant hashed == Framed(rows[..i])
      invariant forall row :: row in rows[..i] ==> |row| < LIMIT
    {
      assert rows[..i + 1] == rows[..i] + [rows[i]];
      if |rows[i]| >= LIMIT {
        assert rows[i] in rows;
        return Err(TooLong);
      }
      FramedConcat(rows[..i], [rows[i]]);
      assert Framed([rows[i]]) == Bytes(|rows[i]|, 8) + rows[i] + Framed([]);
      hashed := hashed + Bytes(|rows[i]|, 8);
      hashed := hashed + rows[i];
    }
    assert rows[..|rows|] == rows;
    return Ok(hashed);
  }

  /** Reads framed rows back. */
  function Unframed(stream: seq<byte>): Result<seq<seq<byte>>, FrameError>
    decreases |stream|
  {
    if stream == [] then Ok([])
    else if |stream| < 8 then Err(Truncated)
    else
      var size := Value(stream[..8]);
      if |stream| - 8 < size then Err(Truncated)
      else
        var rest := Unframed(stream[8 + size..]);
        if rest.Err? then rest else Ok([stream[8..8 + size]] + rest.value)
  }

  /** The framing is decodable: the rows can be read back from the hashed bytes. */
  lemma {:induction false} FramingRoundTrip(rows: seq<seq<byte>>)
    requires forall row :: row in rows ==> |row| < LIMIT
    ensures Unframed(Framed(rows)) == Ok(rows)
  {
    if rows != [] {
      var head, tail := rows[0], Framed(rows[1..]);
      var stream := Framed(rows);
      assert head in rows;
      EightBytes();
      ValueOfBytes(|head|, 8);
      assert stream[..8] == Bytes(|head|, 8) && stream[8..8 + |head|] == head && stream[8 + |head|..] == tail;
      assert forall row :: row in rows[1..] ==> row in rows;
      FramingRoundTrip(rows[1..]);
      assert rows == [head] + rows[1..];
    }
  }

  /** Hence two inventories that hash the same bytes are the same inventory, and two keys that hash the
      same bytes have the same parts. */
  lemma {:induction false} FramingIsInjective(a: seq<seq<byte>>, b: seq<seq<byte>>)
    requires forall row :: row in a ==> |row| < LIMIT
    requires forall row :: row in b ==> |row| < LIMIT
    ensures Framed(a) == Framed(b) <==> a == b
  {
    FramingRoundTrip(a);
    FramingRoundTrip(b);
  }
}
