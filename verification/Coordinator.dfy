/** The bounded scheduler of srcmove_history/coordinator.py (78-343) as a state machine over the steps
    of its threads: the coordinator thread submits, receives and publishes; each worker acquires an
    outcome slot, takes work, executes it and hands the outcome over.  Any of them may fail; then the
    stop event is set and the coordinator drains the results until every worker has left.

    Workers are interchangeable, so the state counts the ones that wait for a slot (`idle`), wait for
    work (`holding`), have failed outside of a pair (`dying`) or have left (`gone`), and keeps the items
    of the others.  A worker that is inside a call when the stop event is set may still complete the
    call, and its context may fail when it is closed.  An interrupt may end the draining before the workers
    are joined.  Polling timeouts are steps that change nothing and are left out. */
module Coordinator {

  /** The items are first, first + 1, ..., last - 1. */
  datatype Config = Config(first: nat, last: nat, workers: nat, queueCapacity: nat, outcomeCapacity: nat)

  /** Abandoned: an interrupt ended the draining, and the workers are left to themselves. */
  datatype Phase = Working | Draining | Joined | Abandoned

  datatype State = State(
    submitted: nat, taken: nat, // queue holds the items from `taken` up to `submitted`
    queue: seq<nat>,
    idle: nat, holding: nat, executing: set<nat>, ready: set<nat>, dying: nat, gone: nat,
    failed: set<nat>, // the items whose execution raised an error
    results: seq<nat>, slots: nat,
    pending: set<nat>, published: seq<nat>,
    stop: bool, errors: nat, failure: bool, phase: Phase)

  /** Why the coordinator stops early. */
  datatype Cause = WorkerError | PublishError | SourceError | Noticed | Interrupted

  datatype Step =
    | Submit
    | Acquire
    | Take
    | Execute(item: nat, raises: bool)
    | Deliver(item: nat)
    | Crash
    | CrashClosing
    | Report
    | Leave
    | GiveUp
    | Receive
    | Publish
    | Fail(cause: Cause)
    | Complete
    | Discard
    | Join
    | Abandon

  /** `_validated_capacities`. */
  predicate ValidConfig(c: Config) {
    c.first <= c.last && c.workers > 0 && c.queueCapacity > 0 && c.outcomeCapacity >= c.workers
  }

  function Start(c: Config): State {
    State(c.first, c.first, [], c.workers, 0, {}, {}, 0, 0, {}, [], c.outcomeCapacity, {}, [], false, 0, false, Working)
  }

  function NextPublication(c: Config, s: State): nat { c.first + |s.published| }

  // ----- the steps -----

  /** The next item can be received or published. */
  predicate MayReceive(c: Config, s: State) {
    s.phase == Working && s.results != [] && NextPublication(c, s) !in s.pending
  }

  predicate MayPublish(c: Config, s: State) { s.phase == Working && NextPublication(c, s) in s.pending }

  predicate MayFail(c: Config, s: State, cause: Cause) {
    && s.phase == Working
    && match cause
       case WorkerError => MayReceive(c, s) && s.results[0] in s.failed
       case PublishError => MayPublish(c, s)
       case SourceError => !s.stop && s.submitted < c.last
       case Noticed => s.errors > 0 && NextPublication(c, s) !in s.pending
       case Interrupted => true
  }

  // The `finally` block up to the draining: the pending outcomes are dropped with their slots.
  function Stopped(s: State, failure: bool): State {
    s.(stop := true, slots := s.slots + |s.pending|, pending := {}, failure := failure, phase := Draining)
  }

  function AfterFail(s: State, cause: Cause): State
    requires cause.WorkerError? ==> s.results != []
    requires cause.Noticed? ==> s.errors > 0
  {
    match cause
    case WorkerError => Stopped(s.(results := s.results[1..], slots := s.slots + 1), true)
    case Noticed => Stopped(s.(errors := s.errors - 1), true)
    case _ => Stopped(s, true)
  }

  predicate Takes(c: Config, s: State, step: Step, u: State) {
    match step
    case Submit =>
      && s.phase == Working && !s.stop && s.submitted < c.last && |s.queue| < c.queueCapacity
      && u == s.(queue := s.queue + [s.submitted], submitted := s.submitted + 1)
    case Acquire =>
      && s.idle > 0 && s.slots > 0
      && u == s.(idle := s.idle - 1, holding := s.holding + 1, slots := s.slots - 1)
    case Take =>
      && s.holding > 0 && s.queue != []
      && u == s.(holding := s.holding - 1, executing := s.executing + {s.queue[0]}, queue := s.queue[1..],
                 taken := s.taken + 1)
    case Execute(item, raises) =>
      && item in s.executing
      && u == s.(executing := s.executing - {item}, ready := s.ready + {item},
                 failed := s.failed + if raises then {item} else {})
    case Deliver(item) =>
      && item in s.ready && |s.results| < c.outcomeCapacity
      && u == s.(ready := s.ready - {item}, results := s.results + [item], idle := s.idle + 1)
    case Crash =>
      && s.idle > 0
      && u == s.(idle := s.idle - 1, dying := s.dying + 1, stop := true)
    case CrashClosing =>
      && s.stop && s.holding > 0
      && u == s.(holding := s.holding - 1, slots := s.slots + 1, dying := s.dying + 1)
    case Report =>
      && s.dying > 0
      && u == s.(dying := s.dying - 1, gone := s.gone + 1, errors := s.errors + 1)
    case Leave =>
      && s.stop && s.idle > 0
      && u == s.(idle := s.idle - 1, gone := s.gone + 1)
    case GiveUp =>
      && s.stop && s.holding > 0
      && u == s.(holding := s.holding - 1, slots := s.slots + 1, gone := s.gone + 1)
    case Receive =>
      && MayReceive(c, s) && s.results[0] !in s.failed
      && u == s.(results := s.results[1..], pending := s.pending + {s.results[0]})
    case Publish =>
      && MayPublish(c, s)
      && u == s.(pending := s.pending - {NextPublication(c, s)}, published := s.published + [NextPublication(c, s)],
                 slots := s.slots + 1)
    case Fail(cause) => MayFail(c, s, cause) && u == AfterFail(s, cause)
    case Complete =>
      && s.phase == Working && s.submitted == c.last && NextPublication(c, s) == s.submitted
      && u == Stopped(s, s.failure)
    case Discard =>
      && s.phase == Draining && s.results != []
      && u == s.(results := s.results[1..], slots := s.slots + 1)
    case Join =>
      && s.phase == Draining && s.gone == c.workers && s.results == []
      && u == s.(failure := s.failure || s.errors > 0, phase := Joined)
    case Abandon => s.phase == Draining && u == s.(failure := true, phase := Abandoned)
  }

  /** Steps that nothing forces: an execution, a worker or its context, the publisher or the input fails, or
      the process is interrupted. */
  predicate Fault(step: Step) {
    || step.Crash? || step.CrashClosing? || step.Abandon?
    || (step.Execute? && step.raises)
    || (step.Fail? && (step.cause.PublishError? || step.cause.SourceError? || step.cause.Interrupted?))
  }

  // ----- the invariant -----

  /** Published items are first, first + 1, ... in order, each once, and none of them failed. */
  ghost predicate InOrder(c: Config, s: State) {
    forall k :: 0 <= k < |s.published| ==> s.published[k] == c.first + k && s.published[k] !in s.failed
  }

  // The work queue holds exactly the submitted items that nobody took, in order.
  ghost predicate QueueOk(c: Config, s: State) {
    && c.first <= s.taken <= s.submitted <= c.last
    && |s.queue| == s.submitted - s.taken <= c.queueCapacity
    && forall k :: 0 <= k < |s.queue| ==> s.queue[k] == s.taken + k
  }

  // The items in flight are taken and unpublished, each in one place; none is lost before draining.
  ghost predicate InFlightOk(c: Config, s: State) {
    && NextPublication(c, s) <= s.taken
    && (forall x :: x in s.executing || x in s.ready || x in s.results || x in s.pending
                    ==> NextPublication(c, s) <= x < s.taken)
    && s.executing !! s.ready && s.executing !! s.pending && s.ready !! s.pending
    && (forall k :: 0 <= k < |s.results| ==>
          s.results[k] !in s.executing && s.results[k] !in s.ready && s.results[k] !in s.pending)
    && (forall j, k :: 0 <= j < k < |s.results| ==> s.results[j] != s.results[k])
  }

  ghost predicate NothingLost(c: Config, s: State) {
    s.phase == Working ==>
      && (forall x :: NextPublication(c, s) <= x < s.taken ==>
            x in s.executing || x in s.ready || x in s.results || x in s.pending)
      && |s.executing| + |s.ready| + |s.results| + |s.pending| == s.taken - NextPublication(c, s)
  }

  // Failed items were taken, and neither wait for execution nor for publication.
  ghost predicate FailedOk(s: State) {
    forall x :: x in s.failed ==> x < s.taken && x !in s.executing && x !in s.pending
  }

  // Every worker is somewhere, and every outcome slot is free, held by a worker or by an outcome.
  ghost predicate Conserved(c: Config, s: State) {
    && s.idle + s.holding + |s.executing| + |s.ready| + s.dying + s.gone == c.workers
    && s.slots + s.holding + |s.executing| + |s.ready| + |s.results| + |s.pending| == c.outcomeCapacity
  }

  // Workers leave only after the stop event; before draining it means that some worker failed.
  ghost predicate PhaseOk(c: Config, s: State) {
    && (s.phase == Working ==>
       !s.failure && (if s.stop then s.dying + s.errors > 0 else s.dying + s.errors + s.gone == 0))
    && (s.phase != Working ==> s.stop && s.pending == {} && (s.failure || |s.published| == c.last - c.first))
    && (s.phase == Abandoned ==> s.failure)
    && (s.phase == Joined ==> s.gone == c.workers && s.results == [] && (s.errors > 0 ==> s.failure))
  }

  ghost predicate Inv(c: Config, s: State) {
    && InOrder(c, s) && QueueOk(c, s) && InFlightOk(c, s) && NothingLost(c, s) && FailedOk(s) && Conserved(c, s)
    && PhaseOk(c, s)
  }

  lemma {:induction false} StartIsOk(c: Config)
    requires ValidConfig(c)
    ensures Inv(c, Start(c))
  {
  }

  lemma {:induction false} MoveItem(a: set<nat>, x: nat)
    ensures x in a ==> |a - {x}| == |a| - 1
    ensures x !in a ==> |a + {x}| == |a| + 1
  {
  }

  lemma {:induction false} TakeKeeps(c: Config, s: State, u: State)
    requires Inv(c, s) && Takes(c, s, Take, u)
    ensures Inv(c, u)
  {
    assert s.queue[0] == s.taken;
    MoveItem(s.executing, s.taken);
  }

  lemma {:induction false} ExecuteKeeps(c: Config, s: State, item: nat, raises: bool, u: State)
    requires Inv(c, s) && Takes(c, s, Execute(item, raises), u)
    ensures Inv(c, u)
  {
    MoveItem(s.executing, item);
    MoveItem(s.ready, item);
  }

  lemma {:induction false} DeliverKeeps(c: Config, s: State, item: nat, u: State)
    requires Inv(c, s) && Takes(c, s, Deliver(item), u)
    ensures Inv(c, u)
  {
    MoveItem(s.ready, item);
    assert forall x :: x in u.results <==> x in s.results || x == item;
  }

  // What remains of the results without the first.
  lemma {:induction false} DropResult(s: State)
    requires s.results != []
    ensures s.results[0] in s.results
    ensures forall x :: x in s.results <==> x in s.results[1..] || x == s.results[0]
  {
    assert s.results == [s.results[0]] + s.results[1..];
  }

  lemma {:induction false} ReceiveKeeps(c: Config, s: State, u: State)
    requires Inv(c, s) && Takes(c, s, Receive, u)
    ensures Inv(c, u)
  {
    DropResult(s);
    MoveItem(s.pending, s.results[0]);
  }

  lemma {:induction false} PublishKeeps(c: Config, s: State, u: State)
    requires Inv(c, s) && Takes(c, s, Publish, u)
    ensures Inv(c, u)
  {
    MoveItem(s.pending, NextPublication(c, s));
  }

  lemma {:induction false} FailKeeps(c: Config, s: State, cause: Cause, u: State)
    requires Inv(c, s) && Takes(c, s, Fail(cause), u)
    ensures Inv(c, u)
  {
    if cause.WorkerError? { DropResult(s); }
  }

  lemma {:induction false} DiscardKeeps(c: Config, s: State, u: State)
    requires Inv(c, s) && Takes(c, s, Discard, u)
    ensures Inv(c, u)
  {
    DropResult(s);
  }

  // The steps of workers that hold no item.
  predicate WorkerMoves(step: Step) { step.Acquire? || step.Leave? || step.GiveUp? }

  predicate WorkerFails(step: Step) { step.Crash? || step.CrashClosing? || step.Report? }

  lemma {:induction false} WorkerMovesKeep(c: Config, s: State, step: Step, u: State)
    requires Inv(c, s) && Takes(c, s, step, u) && WorkerMoves(step)
    ensures Inv(c, u)
  {
  }

  lemma {:induction false} WorkerFailsKeep(c: Config, s: State, step: Step, u: State)
    requires Inv(c, s) && Takes(c, s, step, u) && WorkerFails(step)
    ensures Inv(c, u)
  {
  }

  lemma {:induction false} SubmitKeeps(c: Config, s: State, u: State)
    requires Inv(c, s) && Takes(c, s, Submit, u)
    ensures Inv(c, u)
  {
  }

  lemma {:induction false} EndKeeps(c: Config, s: State, step: Step, u: State)
    requires Inv(c, s) && Takes(c, s, step, u) && (step.Complete? || step.Join? || step.Abandon?)
    ensures Inv(c, u)
  {
  }

  // The steps of workers that take, hold or hand over an item.
  predicate WorkerCarries(step: Step) { step.Take? || step.Execute? || step.Deliver? }

  lemma {:induction false} WorkerCarriesKeep(c: Config, s: State, step: Step, u: State)
    requires Inv(c, s) && Takes(c, s, step, u) && WorkerCarries(step)
    ensures Inv(c, u)
  {
    match step
    case Take => TakeKeeps(c, s, u);
    case Execute(item, raises) => ExecuteKeeps(c, s, item, raises, u);
    case Deliver(item) => DeliverKeeps(c, s, item, u);
  }

  lemma {:induction false} CoordinatorKeeps(c: Config, s: State, step: Step, u: State)
    requires Inv(c, s) && Takes(c, s, step, u) && !WorkerMoves(step) && !WorkerFails(step) && !WorkerCarries(step)
    ensures Inv(c, u)
  {
    match step
    case Submit => SubmitKeeps(c, s, u);
    case Receive => ReceiveKeeps(c, s, u);
    case Publish => PublishKeeps(c, s, u);
    case Fail(cause) => FailKeeps(c, s, cause, u);
    case Discard => DiscardKeeps(c, s, u);
    case _ => EndKeeps(c, s, step, u);
  }

  /** Every step of every thread keeps the invariant, failures included. */
  lemma {:induction false} StepKeeps(c: Config, s: State, step: Step, u: State)
    requires Inv(c, s) && Takes(c, s, step, u)
    ensures Inv(c, u)
  {
    if WorkerMoves(step) {
      WorkerMovesKeep(c, s, step, u);
    } else if WorkerFails(step) {
      WorkerFailsKeep(c, s, step, u);
    } else if WorkerCarries(step) {
      WorkerCarriesKeep(c, s, step, u);
    } else {
      CoordinatorKeeps(c, s, step, u);
    }
  }

  // ----- whole runs -----

  ghost predicate Next(c: Config, s: State, u: State) { exists step :: Takes(c, s, step, u) }

  ghost predicate Run(c: Config, states: seq<State>) {
    && states != [] && states[0] == Start(c)
    && forall k :: 0 < k < |states| ==> Next(c, states[k - 1], states[k])
  }

  lemma {:induction false} RunKeeps(c: Config, states: seq<State>, k: nat)
    requires ValidConfig(c) && Run(c, states) && k < |states|
    ensures Inv(c, states[k])
  {
    if k == 0 {
      StartIsOk(c);
    } else {
      RunKeeps(c, states, k - 1);
      assert Next(c, states[k - 1], states[k]);
      var step :| Takes(c, states[k - 1], step, states[k]);
      StepKeeps(c, states[k - 1], step, states[k]);
    }
  }

  /** At every moment of every run, failures included: what has been published is a contiguous run of
      items from the first, in order, none of which failed; outcomes that wait for publication are
      bounded by the outcome capacity and neither queue exceeds its capacity; and until the draining no
      worker is further ahead of publication than the outcome capacity. */
  lemma {:induction false} PublicationIsOrderedAndBounded(c: Config, states: seq<State>, k: nat)
    requires ValidConfig(c) && Run(c, states) && k < |states|
    ensures var s := states[k];
            && (forall i :: 0 <= i < |s.published| ==> s.published[i] == c.first + i && s.published[i] !in s.failed)
            && |s.results| + |s.pending| <= c.outcomeCapacity && |s.queue| <= c.queueCapacity
            && (s.phase == Working ==>
                  forall x :: x in s.executing || x in s.ready || x in s.results || x in s.pending ==>
                    NextPublication(c, s) <= x < NextPublication(c, s) + c.outcomeCapacity)
  {
    RunKeeps(c, states, k);
  }

  // ----- progress -----

  // Some thread can move without a fault.
  ghost predicate Moves(c: Config, s: State, step: Step) { !Fault(step) && exists u :: Takes(c, s, step, u) }

  ghost predicate Enabled(c: Config, s: State) { exists step :: Moves(c, s, step) }

  lemma {:induction false} CanMove(c: Config, s: State, step: Step, u: State)
    requires !Fault(step) && Takes(c, s, step, u)
    ensures Enabled(c, s)
  {
    assert Moves(c, s, step);
  }

  // A worker that has taken an item can go on.
  lemma {:induction false} BusyWorkerMoves(c: Config, s: State)
    requires ValidConfig(c) && Inv(c, s) && (s.executing != {} || s.ready != {})
    ensures Enabled(c, s)
  {
    if s.executing != {} {
      var item :| item in s.executing;
      CanMove(c, s, Execute(item, false),
              s.(executing := s.executing - {item}, ready := s.ready + {item}, failed := s.failed + {}));
    } else {
      var item :| item in s.ready;
      CanMove(c, s, Deliver(item), s.(ready := s.ready - {item}, results := s.results + [item], idle := s.idle + 1));
    }
  }

  lemma {:induction false} FirstResultMoves(c: Config, s: State)
    requires Inv(c, s) && MayReceive(c, s)
    ensures Enabled(c, s)
  {
    if s.results[0] in s.failed {
      CanMove(c, s, Fail(WorkerError), AfterFail(s, WorkerError));
    } else {
      CanMove(c, s, Receive, s.(results := s.results[1..], pending := s.pending + {s.results[0]}));
    }
  }

  // Without a failed worker and with nothing in flight, the next item can be submitted or taken.
  lemma {:induction false} QuietWorkerMoves(c: Config, s: State)
    requires ValidConfig(c) && Inv(c, s) && s.phase == Working && !s.stop && NextPublication(c, s) !in s.pending
    requires s.executing == {} && s.ready == {} && s.results == [] && s.submitted > s.taken
    ensures Enabled(c, s)
  {
    NothingInFlight(c, s);
    if s.holding > 0 {
      CanMove(c, s, Take, s.(holding := s.holding - 1, executing := s.executing + {s.queue[0]}, queue := s.queue[1..],
                             taken := s.taken + 1));
    } else {
      CanMove(c, s, Acquire, s.(idle := s.idle - 1, holding := s.holding + 1, slots := s.slots - 1));
    }
  }

  // Without the next publication nothing else can be pending alone.
  lemma {:induction false} NothingInFlight(c: Config, s: State)
    requires Inv(c, s) && s.phase == Working && NextPublication(c, s) !in s.pending
    requires s.executing == {} && s.ready == {} && s.results == []
    ensures s.taken == NextPublication(c, s) && s.pending == {}
  {
  }

  lemma {:induction false} WorkingMoves(c: Config, s: State)
    requires ValidConfig(c) && Inv(c, s) && s.phase == Working
    ensures Enabled(c, s)
  {
    if MayPublish(c, s) {
      var p := NextPublication(c, s);
      CanMove(c, s, Publish, s.(pending := s.pending - {p}, published := s.published + [p], slots := s.slots + 1));
    } else if s.results != [] {
      FirstResultMoves(c, s);
    } else if s.executing != {} || s.ready != {} {
      BusyWorkerMoves(c, s);
    } else if s.dying > 0 {
      CanMove(c, s, Report, s.(dying := s.dying - 1, gone := s.gone + 1, errors := s.errors + 1));
    } else if s.stop {
      CanMove(c, s, Fail(Noticed), AfterFail(s, Noticed));
    } else if s.submitted > s.taken {
      QuietWorkerMoves(c, s);
    } else {
      NothingInFlight(c, s);
      if s.submitted < c.last {
        CanMove(c, s, Submit, s.(queue := s.queue + [s.submitted], submitted := s.submitted + 1));
      } else {
        CanMove(c, s, Complete, Stopped(s, s.failure));
      }
    }
  }

  // After the stop event every worker can go on until it has left: the results always have room for it.
  lemma {:induction false} StoppedWorkerMoves(c: Config, s: State)
    requires ValidConfig(c) && Inv(c, s) && s.phase != Working && s.gone < c.workers
    ensures Enabled(c, s)
  {
    if s.executing != {} || s.ready != {} {
      BusyWorkerMoves(c, s);
    } else if s.dying > 0 {
      CanMove(c, s, Report, s.(dying := s.dying - 1, gone := s.gone + 1, errors := s.errors + 1));
    } else if s.idle > 0 {
      CanMove(c, s, Leave, s.(idle := s.idle - 1, gone := s.gone + 1));
    } else {
      CanMove(c, s, GiveUp, s.(holding := s.holding - 1, slots := s.slots + 1, gone := s.gone + 1));
    }
  }

  lemma {:induction false} DrainingMoves(c: Config, s: State)
    requires ValidConfig(c) && Inv(c, s) && s.phase == Draining
    ensures Enabled(c, s)
  {
    if s.gone < c.workers {
      StoppedWorkerMoves(c, s);
    } else if s.results != [] {
      CanMove(c, s, Discard, s.(results := s.results[1..], slots := s.slots + 1));
    } else {
      CanMove(c, s, Join, s.(failure := s.failure || s.errors > 0, phase := Joined));
    }
  }

  // The run is over: the workers are joined, or left by an interrupted coordinator and gone.
  predicate Over(c: Config, s: State) { s.phase == Joined || (s.phase == Abandoned && s.gone == c.workers) }

  /** No deadlock: until the run is over some thread can take a step, without a further fault and whatever has
      failed so far. */
  lemma {:induction false} NoDeadlock(c: Config, states: seq<State>)
    requires ValidConfig(c) && Run(c, states)
    ensures Over(c, states[|states| - 1]) || Enabled(c, states[|states| - 1])
  {
    var s := states[|states| - 1];
    RunKeeps(c, states, |states| - 1);
    match s.phase
    case Working => WorkingMoves(c, s);
    case Draining => DrainingMoves(c, s);
    case Abandoned => if s.gone < c.workers { StoppedWorkerMoves(c, s); }
    case Joined =>
  }

  function PhaseLeft(p: Phase): nat { match p case Working => 2 case Draining => 1 case _ => 0 }

  // The work left, weighted so that every step reduces it.
  function Left(c: Config, s: State): int {
    16 * (c.last - s.submitted) + 13 * |s.queue| + 9 * |s.executing| + 7 * |s.ready| + 3 * |s.results| + |s.pending|
    + 3 * s.idle + 2 * s.holding + s.dying + PhaseLeft(s.phase)
  }

  lemma {:induction false} LeftIsNatural(c: Config, s: State)
    requires Inv(c, s)
    ensures Left(c, s) >= 0
  {
  }

  // The steps that move an item.
  lemma {:induction false} ItemStepsUseWork(c: Config, s: State, step: Step, u: State)
    requires Inv(c, s) && Takes(c, s, step, u)
    requires step.Take? || step.Execute? || step.Deliver? || step.Receive? || step.Publish?
    ensures Left(c, u) < Left(c, s)
  {
    match step
    case Take => MoveItem(s.executing, s.queue[0]);
    case Execute(item, raises) =>
      MoveItem(s.executing, item);
      MoveItem(s.ready, item);
    case Deliver(item) => MoveItem(s.ready, item);
    case Receive => MoveItem(s.pending, s.results[0]);
    case Publish => MoveItem(s.pending, NextPublication(c, s));
  }

  lemma {:induction false} OtherStepsUseWork(c: Config, s: State, step: Step, u: State)
    requires Takes(c, s, step, u)
    requires !(step.Take? || step.Execute? || step.Deliver? || step.Receive? || step.Publish?)
    ensures Left(c, u) < Left(c, s)
  {
    if step.Fail? { FailUsesWork(c, s, step.cause, u); }
  }

  lemma {:induction false} FailUsesWork(c: Config, s: State, cause: Cause, u: State)
    requires MayFail(c, s, cause) && u == AfterFail(s, cause)
    ensures Left(c, u) < Left(c, s)
  {
  }

  lemma {:induction false} NextUsesWork(c: Config, states: seq<State>, k: nat)
    requires ValidConfig(c) && Run(c, states) && 0 < k < |states|
    ensures 0 <= Left(c, states[k]) < Left(c, states[k - 1])
  {
    RunKeeps(c, states, k - 1);
    assert Next(c, states[k - 1], states[k]);
    var step :| Takes(c, states[k - 1], step, states[k]);
    if step.Take? || step.Execute? || step.Deliver? || step.Receive? || step.Publish? {
      ItemStepsUseWork(c, states[k - 1], step, states[k]);
    } else {
      OtherStepsUseWork(c, states[k - 1], step, states[k]);
    }
    RunKeeps(c, states, k);
    LeftIsNatural(c, states[k]);
  }

  /** Every run ends: it takes at most sixteen steps for each item, three for each worker and two more. */
  lemma {:induction false} RunsAreBounded(c: Config, states: seq<State>, k: nat)
    requires ValidConfig(c) && Run(c, states) && k < |states|
    ensures 0 <= Left(c, states[k]) <= 16 * (c.last - c.first) + 3 * c.workers + 2 - k
  {
    if k > 0 {
      RunsAreBounded(c, states, k - 1);
      NextUsesWork(c, states, k);
    }
  }

  /** However the threads interleave and whatever fails, in every run that cannot go on all workers have left.
      They are joined, with every outcome slot given back, unless the draining was interrupted; then each slot
      that is missing belongs to a result that nobody discarded.  What was published is a prefix of the items,
      in order and without a failed one, and the run reports a failure or has published every item. */
  lemma {:induction false} EveryRunJoinsItsWorkers(c: Config, states: seq<State>)
    requires ValidConfig(c) && Run(c, states)
    ensures |states| <= 16 * (c.last - c.first) + 3 * c.workers + 3
    ensures var s := states[|states| - 1];
            !Enabled(c, s) ==>
              && s.gone == c.workers && s.pending == {} && s.slots + |s.results| == c.outcomeCapacity
              && (if s.phase == Joined then s.results == [] else s.phase == Abandoned && s.failure)
              && (forall i :: 0 <= i < |s.published| ==> s.published[i] == c.first + i && s.published[i] !in s.failed)
              && (s.failure || |s.published| == c.last - c.first)
  {
    RunsAreBounded(c, states, |states| - 1);
    NoDeadlock(c, states);
    RunKeeps(c, states, |states| - 1);
  }

  // Only an interrupt while draining abandons the workers.
  ghost predicate Drained(c: Config, states: seq<State>) {
    forall k :: 0 < k < |states| ==> !Takes(c, states[k - 1], Abandon, states[k])
  }

  lemma {:induction false} OnlyAbandonAbandons(c: Config, s: State, step: Step, u: State)
    requires Takes(c, s, step, u) && s.phase != Abandoned && !step.Abandon?
    ensures u.phase != Abandoned
  {
  }

  lemma {:induction false} DrainedKeeps(c: Config, states: seq<State>, k: nat)
    requires Run(c, states) && Drained(c, states) && k < |states|
    ensures states[k].phase != Abandoned
  {
    if k > 0 {
      DrainedKeeps(c, states, k - 1);
      assert Next(c, states[k - 1], states[k]);
      var step :| Takes(c, states[k - 1], step, states[k]);
      OnlyAbandonAbandons(c, states[k - 1], step, states[k]);
    }
  }

  /** Without such an interrupt a run that cannot go on has joined all workers and got back every slot. */
  lemma {:induction false} UninterruptedRunsJoin(c: Config, states: seq<State>)
    requires ValidConfig(c) && Run(c, states) && Drained(c, states) && !Enabled(c, states[|states| - 1])
    ensures var s := states[|states| - 1];
            s.phase == Joined && s.gone == c.workers && s.slots == c.outcomeCapacity && s.results == []
  {
    EveryRunJoinsItsWorkers(c, states);
    DrainedKeeps(c, states, |states| - 1);
  }

  // The fault can strike in this state.
  ghost predicate MayStrike(c: Config, s: State, step: Step) { Fault(step) && exists u :: Takes(c, s, step, u) }

  /** The machine is as hostile as the program's surroundings: an interrupt can come at any moment before the
      workers are joined, and a publication or the input can fail whenever it is used. */
  lemma {:induction false} CoordinatorMayFail(c: Config, s: State)
    ensures s.phase == Working ==> MayStrike(c, s, Fail(Interrupted))
    ensures s.phase == Draining ==> MayStrike(c, s, Abandon)
    ensures s.phase == Working && c.first + |s.published| in s.pending ==> MayStrike(c, s, Fail(PublishError))
    ensures s.phase == Working && !s.stop && s.submitted < c.last ==> MayStrike(c, s, Fail(SourceError))
  {
    if s.phase == Working {
      assert Takes(c, s, Fail(Interrupted), AfterFail(s, Interrupted));
      if MayPublish(c, s) { assert Takes(c, s, Fail(PublishError), AfterFail(s, PublishError)); }
      if !s.stop && s.submitted < c.last { assert Takes(c, s, Fail(SourceError), AfterFail(s, SourceError)); }
    }
    if s.phase == Draining { assert Takes(c, s, Abandon, s.(failure := true, phase := Abandoned)); }
  }

  /** A worker can crash while it waits for a slot, its context can fail when it leaves, and any execution can
      fail. */
  lemma {:induction false} WorkersMayFail(c: Config, s: State)
    ensures s.idle > 0 ==> MayStrike(c, s, Crash)
    ensures s.stop && s.holding > 0 ==> MayStrike(c, s, CrashClosing)
    ensures forall item: nat :: item in s.executing ==> MayStrike(c, s, Execute(item, true))
  {
    if s.idle > 0 { assert Takes(c, s, Crash, s.(idle := s.idle - 1, dying := s.dying + 1, stop := true)); }
    if s.stop && s.holding > 0 {
      assert Takes(c, s, CrashClosing, s.(holding := s.holding - 1, slots := s.slots + 1, dying := s.dying + 1));
    }
    forall item: nat | item in s.executing ensures MayStrike(c, s, Execute(item, true)) {
      assert Takes(c, s, Execute(item, true),
                   s.(executing := s.executing - {item}, ready := s.ready + {item}, failed := s.failed + {item}));
    }
  }

  // ----- runs without a fault -----

  ghost predicate FaultFreeStep(c: Config, s: State, u: State) { exists step :: !Fault(step) && Takes(c, s, step, u) }

  ghost predicate FaultFree(c: Config, states: seq<State>) {
    forall k :: 0 < k < |states| ==> FaultFreeStep(c, states[k - 1], states[k])
  }

  ghost predicate Untroubled(s: State) {
    && s.failed == {} && s.dying == 0 && s.errors == 0 && !s.failure
    && s.phase != Abandoned && (s.stop ==> s.phase != Working)
  }

  lemma {:induction false} UntroubledKeeps(c: Config, s: State, step: Step, u: State)
    requires Untroubled(s) && !Fault(step) && Takes(c, s, step, u)
    ensures Untroubled(u)
  {
  }

  lemma {:induction false} FaultFreeKeeps(c: Config, states: seq<State>, k: nat)
    requires ValidConfig(c) && Run(c, states) && FaultFree(c, states) && k < |states|
    ensures Untroubled(states[k])
  {
    if k > 0 {
      FaultFreeKeeps(c, states, k - 1);
      assert FaultFreeStep(c, states[k - 1], states[k]);
      var step :| !Fault(step) && Takes(c, states[k - 1], step, states[k]);
      UntroubledKeeps(c, states[k - 1], step, states[k]);
    }
  }

  /** A run without a fault that cannot go on has published every item, in order, and reports no failure. */
  lemma {:induction false} FaultFreeRunsPublishEverything(c: Config, states: seq<State>)
    requires ValidConfig(c) && Run(c, states) && FaultFree(c, states) && !Enabled(c, states[|states| - 1])
    ensures states[|states| - 1].published == seq(c.last - c.first, k requires 0 <= k => c.first + k)
    ensures !states[|states| - 1].failure
  {
    EveryRunJoinsItsWorkers(c, states);
    FaultFreeKeeps(c, states, |states| - 1);
    AllInOrder(c, states[|states| - 1].published);
  }

  lemma {:induction false} AllInOrder(c: Config, published: seq<nat>)
    requires c.first <= c.last && |published| == c.last - c.first
    requires forall i :: 0 <= i < |published| ==> published[i] == c.first + i
    ensures published == seq(c.last - c.first, k requires 0 <= k => c.first + k)
  {
  }
}
