/** The execution journal of bigMoveBench/normalized_execution.py (144-172, 273-397) and the run loop
    over it (1231-1360): a resumable serial run that may be interrupted after any commit.

    The SQL table is the sequence of its rows in insertion order; the clock, the identity hashes and
    the stored JSON columns other than the scored record are left out. */
module Journal {
  import opened Wrappers
  import opened Scoring

  datatype Status = Running | Interrupted | Terminal(record: Record)

  datatype Attempt = Attempt(id: string, caseId: string, ordinal: nat, status: Status)

  type Table = seq<Attempt>

  // ----- the SQL statements -----

  /** `COALESCE(MAX(attempt_ordinal), -1) + 1` over the attempts of a case. */
  function NextOrdinal(t: Table, c: string): nat {
    if t == [] then 0 else
      var last := t[|t| - 1];
      var before := NextOrdinal(t[..|t| - 1], c);
      if last.caseId == c && last.ordinal >= before then last.ordinal + 1 else before
  }

  /** `ORDER BY attempt_ordinal DESC LIMIT 1` over the terminal attempts of a case. */
  function LatestTerminal(t: Table, c: string): (r: Option<Attempt>)
    ensures r.Some? ==> r.value.caseId == c && r.value.status.Terminal?
  {
    if t == [] then None else
      var last := t[|t| - 1];
      var before := LatestTerminal(t[..|t| - 1], c);
      if last.caseId == c && last.status.Terminal? && (before.None? || before.value.ordinal < last.ordinal)
      then Some(last) else before
  }

  function InterruptRow(a: Attempt): Attempt { if a.status.Running? then a.(status := Interrupted) else a }

  function FinishRow(a: Attempt, id: string, record: Record): Attempt {
    if a.id == id && a.status.Running? then a.(status := Terminal(record)) else a
  }

  /** `recover_running`. */
  function Recovered(t: Table): (r: Table)
    ensures |r| == |t| && forall k :: 0 <= k < |t| ==> r[k] == InterruptRow(t[k])
  {
    seq(|t|, k requires 0 <= k < |t| => InterruptRow(t[k]))
  }

  /** The UPDATE of `finish`. */
  function Finished(t: Table, id: string, record: Record): (r: Table)
    ensures |r| == |t| && forall k :: 0 <= k < |t| ==> r[k] == FinishRow(t[k], id, record)
  {
    seq(|t|, k requires 0 <= k < |t| => FinishRow(t[k], id, record))
  }

  function Begun(t: Table, id: string, c: string): Table { t + [Attempt(id, c, NextOrdinal(t, c), Running)] }

  predicate IdInUse(t: Table, id: string) { exists k :: 0 <= k < |t| && t[k].id == id }

  function TerminalCases(t: Table): set<string> { set a | a in t && a.status.Terminal? :: a.caseId }

  /** `latest_results`: the latest terminal record of every case that has one. */
  function LatestResults(t: Table): map<string, Record> {
    map c | c in TerminalCases(t) && LatestTerminal(t, c).Some? :: LatestTerminal(t, c).value.status.record
  }

  // ----- the journal object -----

  datatype JournalError = NotRunning | DuplicateAttempt

  class ExecutionJournal {
    var attempts: Table
    var completed: bool

    constructor ()
      ensures attempts == [] && !completed
    {
      attempts, completed := [], false;
    }

    method RecoverRunning() returns (interrupted: nat)
      modifies this`attempts
      ensures attempts == Recovered(old(attempts))
      ensures interrupted == |set k | 0 <= k < |old(attempts)| && old(attempts)[k].status.Running?|
    {
      interrupted := |set k | 0 <= k < |attempts| && attempts[k].status.Running?|;
      var i := 0;
      while i < |attempts|
        invariant 0 <= i <= |attempts| == |old(attempts)|
        invariant forall k :: 0 <= k < i ==> attempts[k] == InterruptRow(old(attempts)[k])
        invariant forall k :: i <= k < |attempts| ==> attempts[k] == old(attempts)[k]
      {
        if attempts[i].status.Running? { attempts := attempts[i := attempts[i].(status := Interrupted)]; }
        i := i + 1;
      }
      assert attempts == Recovered(old(attempts));
    }

    method FindLatestTerminal(c: string) returns (r: Option<Attempt>)
      ensures r == LatestTerminal(attempts, c)
    {
      r := None;
      var i := 0;
      while i < |attempts|
        invariant 0 <= i <= |attempts|
        invariant r == LatestTerminal(attempts[..i], c)
      {
        var a := attempts[i];
        assert attempts[..i + 1][..i] == attempts[..i];
        if a.caseId == c && a.status.Terminal? && (r.None? || r.value.ordinal < a.ordinal) { r := Some(a); }
        i := i + 1;
      }
      assert attempts[..i] == attempts;
    }

    /** The attempt id is the primary key: inserting one that is in use fails and changes nothing. */
    method Begin(id: string, c: string) returns (r: Result<nat, JournalError>)
      modifies this`attempts
      ensures r == if IdInUse(old(attempts), id) then Err(DuplicateAttempt) else Ok(NextOrdinal(old(attempts), c))
      ensures attempts == if r.Ok? then Begun(old(attempts), id, c) else old(attempts)
    {
      var ordinal := 0;
      var i := 0;
      while i < |attempts|
        invariant 0 <= i <= |attempts|
        invariant ordinal == NextOrdinal(attempts[..i], c)
        invariant !IdInUse(attempts[..i], id)
      {
        if attempts[i].id == id { return Err(DuplicateAttempt); }
        assert attempts[..i + 1][..i] == attempts[..i];
        if attempts[i].caseId == c && attempts[i].ordinal >= ordinal { ordinal := attempts[i].ordinal + 1; }
        i := i + 1;
      }
      assert attempts[..i] == attempts;
      attempts := attempts + [Attempt(id, c, ordinal, Running)];
      return Ok(ordinal);
    }

    /** Finishing an attempt that is not running is an error and changes nothing. */
    method Finish(id: string, record: Record) returns (r: Result<(), JournalError>)
      modifies this`attempts
      ensures r.Ok? <==>
              exists k :: 0 <= k < |old(attempts)| && old(attempts)[k].id == id && old(attempts)[k].status.Running?
      ensures attempts == Finished(old(attempts), id, record)
      ensures r.Err? ==> r.error == NotRunning && attempts == old(attempts)
    {
      var found := false;
      var i := 0;
      while i < |attempts|
        invariant 0 <= i <= |attempts| == |old(attempts)|
        invariant forall k :: 0 <= k < i ==> attempts[k] == FinishRow(old(attempts)[k], id, record)
        invariant forall k :: i <= k < |attempts| ==> attempts[k] == old(attempts)[k]
        invariant found <==> exists k :: 0 <= k < i && old(attempts)[k].id == id && old(attempts)[k].status.Running?
        invariant !found ==> attempts == old(attempts)
      {
        if attempts[i].id == id && attempts[i].status.Running? {
          found := true;
          attempts := attempts[i := attempts[i].(status := Terminal(record))];
        }
        i := i + 1;
      }
      assert attempts == Finished(old(attempts), id, record);
      return if found then Ok(()) else Err(NotRunning);
    }

    /** `COUNT(DISTINCT case_id)` over the terminal attempts. */
    method CompletedCaseCount() returns (n: nat)
      ensures n == |TerminalCases(attempts)|
    {
      var counted: set<string> := {};
      n := 0;
      var i := 0;
      while i < |attempts|
        invariant 0 <= i <= |attempts|
        invariant counted == TerminalCases(attempts[..i]) && n == |counted|
      {
        var a := attempts[i];
        assert attempts[..i + 1] == attempts[..i] + [a];
        if a.status.Terminal? && a.caseId !in counted {
          counted := counted + {a.caseId};
          n := n + 1;
        }
        i := i + 1;
      }
      assert attempts[..i] == attempts;
    }

    // The status of the run; `CompletedStatusIsHonest` says what it means.
    method MarkRunning()
      modifies this`completed
      ensures !completed
    {
      completed := false;
    }

    method MarkCompleted()
      modifies this`completed
      ensures completed
    {
      completed := true;
    }
  }

  // ----- what the table says -----

  // The number of attempts of a case.
  function Rows(t: Table, c: string): nat {
    if t == [] then 0 else Rows(t[..|t| - 1], c) + if t[|t| - 1].caseId == c then 1 else 0
  }

  /** Ordinals are dense: each attempt is numbered by the attempts of its case before it. */
  ghost predicate Dense(t: Table) { forall k :: 0 <= k < |t| ==> DenseAt(t, k) }

  ghost predicate DenseAt(t: Table, k: nat)
    requires k < |t|
  {
    t[k].ordinal == Rows(t[..k], t[k].caseId)
  }

  ghost predicate UniqueIds(t: Table) { forall i, j :: 0 <= i < j < |t| ==> t[i].id != t[j].id }

  // Only the newest attempt can be running, so at most one is.
  ghost predicate RunningIsLast(t: Table) {
    forall k :: 0 <= k < |t| && t[k].status.Running? ==> k == |t| - 1
  }

  ghost predicate NoneRunning(t: Table) { forall k :: 0 <= k < |t| ==> !t[k].status.Running? }

  /** An attempt that was begun after a terminal attempt of its case retries a retryable outcome. */
  ghost predicate OnlyRetried(t: Table) {
    forall j, k :: 0 <= j < k < |t| && t[j].caseId == t[k].caseId && t[j].status.Terminal? ==>
      Retryable(t[j].status.record.outcome)
  }

  ghost predicate HasTerminal(t: Table, c: string) { LatestTerminal(t, c).Some? }

  ghost predicate AllTerminal(t: Table, cases: seq<string>) {
    forall c :: c in cases ==> HasTerminal(t, c)
  }

  // Rows may only be added, and a row may only leave the running status.
  ghost predicate Evolves(t: Table, u: Table) {
    && |t| <= |u|
    && forall k :: 0 <= k < |t| ==>
         && u[k].id == t[k].id && u[k].caseId == t[k].caseId && u[k].ordinal == t[k].ordinal
         && (t[k].status.Running? || u[k].status == t[k].status)
  }

  lemma {:induction false} RowsOfSameCases(t: Table, u: Table, c: string)
    requires |t| == |u| && forall k :: 0 <= k < |t| ==> t[k].caseId == u[k].caseId
    ensures Rows(t, c) == Rows(u, c)
  {
    if t != [] { RowsOfSameCases(t[..|t| - 1], u[..|u| - 1], c); }
  }

  lemma {:induction false} DenseOfSameKeys(t: Table, u: Table)
    requires |t| == |u| && Evolves(t, u) && Dense(t)
    ensures Dense(u)
  {
    forall k | 0 <= k < |u| ensures DenseAt(u, k) {
      assert DenseAt(t, k);
      RowsOfSameCases(t[..k], u[..k], u[k].caseId);
    }
  }

  lemma {:induction false} DensePrefix(t: Table, n: nat)
    requires n <= |t| && Dense(t)
    ensures Dense(t[..n])
  {
    forall k | 0 <= k < n ensures DenseAt(t[..n], k) {
      assert DenseAt(t, k);
      assert t[..n][..k] == t[..k];
    }
  }

  lemma {:induction false} NextOrdinalCounts(t: Table, c: string)
    requires Dense(t)
    ensures NextOrdinal(t, c) == Rows(t, c)
  {
    if t != [] {
      assert DenseAt(t, |t| - 1);
      DensePrefix(t, |t| - 1);
      NextOrdinalCounts(t[..|t| - 1], c);
    }
  }

  ghost predicate NoTerminalFrom(t: Table, c: string, k: nat) {
    forall j :: k <= j < |t| && t[j].caseId == c ==> !t[j].status.Terminal?
  }

  // The latest terminal attempt of c is the one at index k.
  ghost predicate LatestAt(t: Table, c: string, k: nat) {
    && k < |t| && LatestTerminal(t, c) == Some(t[k]) && t[k].ordinal < Rows(t, c)
    && NoTerminalFrom(t, c, k + 1)
  }

  lemma {:induction false} LatestAfter(t: Table, c: string, k: nat)
    requires t != [] && LatestAt(t[..|t| - 1], c, k)
    requires t[|t| - 1].caseId == c ==> !t[|t| - 1].status.Terminal?
    ensures LatestAt(t, c, k)
  {
    forall j | k + 1 <= j < |t| && t[j].caseId == c ensures !t[j].status.Terminal? {
      if j < |t| - 1 { assert t[..|t| - 1][j] == t[j]; }
    }
  }

  // The latest terminal attempt is the terminal attempt with the highest index.
  lemma {:induction false} LatestIsLast(t: Table, c: string) returns (k: nat)
    requires Dense(t)
    ensures if LatestTerminal(t, c).None? then NoTerminalFrom(t, c, 0) else LatestAt(t, c, k)
  {
    k := 0;
    if t != [] {
      var n := |t| - 1;
      var last := t[n];
      DensePrefix(t, n);
      k := LatestIsLast(t[..n], c);
      assert DenseAt(t, n);
      if last.caseId == c && last.status.Terminal? {
        k := n;
      } else if LatestTerminal(t[..n], c).Some? {
        LatestAfter(t, c, k);
      } else {
        assert forall j :: 0 <= j < n ==> t[..n][j] == t[j];
      }
    }
  }

  lemma {:induction false} LatestOfUntouched(t: Table, u: Table, c: string)
    requires |t| <= |u| && u[..|t|] == t
    requires forall k :: |t| <= k < |u| ==> u[k].caseId != c
    ensures LatestTerminal(u, c) == LatestTerminal(t, c)
  {
    if |u| > |t| {
      assert u[..|u| - 1][..|t|] == t;
      LatestOfUntouched(t, u[..|u| - 1], c);
    } else {
      assert u == t;
    }
  }
}
