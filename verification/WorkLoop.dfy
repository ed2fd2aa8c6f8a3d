/**
 The work loop of `pkg/kgo/atomic_maybe_work.go`, with every load, compare-and-swap
 and store of its one atomic word as a step of its own.
 */
module WorkLoop {
  import opened Wrappers

  datatype Word = Unstarted | Working | ContinueWorking

  /** A call of `maybeBegin`: about to load, about to swap what it loaded, or returned whether to begin. */
  datatype Caller = Loading | Loaded(seen: Word) | Returned(begins: bool)

  /**
   A worker: told to start, in an iteration, about to load in `maybeFinish`,
   about to swap working for unstarted, about to store working, or told to go on.
   */
  datatype Worker = Spawned | Iterating | Finishing(again: bool) | Stopping | Demoting | Continuing

  /** `owed` records that a call has returned since the last iteration started. */
  datatype Loop = Loop(word: Word, callers: map<nat, Caller>, workers: map<nat, Worker>, owed: bool)

  const Idle := Loop(Unstarted, map[], map[], false)

  datatype Action =
    | Call(t: nat) | Load(t: nat) | Swap(t: nat)
    | StartIteration(w: nat) | EndIteration(w: nat, again: bool) | FinishLoad(w: nat) | FinishSwap(w: nat)
    | FinishStore(w: nat) | HardFinish(w: nat)

  predicate OfWorker(a: Action) {
    a.StartIteration? || a.EndIteration? || a.FinishLoad? || a.FinishSwap? || a.FinishStore? || a.HardFinish?
  }

  predicate Enabled(l: Loop, a: Action) {
    match a
    case Call(t) => t !in l.callers
    case Load(t) => t in l.callers && l.callers[t] == Loading
    case Swap(t) => t in l.callers && l.callers[t].Loaded?
    case StartIteration(w) => w in l.workers && (l.workers[w] == Spawned || l.workers[w] == Continuing)
    case EndIteration(w, _) => w in l.workers && l.workers[w] == Iterating
    case FinishLoad(w) => w in l.workers && l.workers[w].Finishing?
    case FinishSwap(w) => w in l.workers && l.workers[w] == Stopping
    case FinishStore(w) => w in l.workers && l.workers[w] == Demoting
    case HardFinish(w) => w in l.workers && (l.workers[w] == Spawned || l.workers[w] == Iterating)
  }

  function SetWorker(l: Loop, w: nat, pc: Worker): Loop { l.(workers := l.workers[w := pc]) }

  function Step(l: Loop, a: Action): Loop
    requires Enabled(l, a)
  {
    match a
    case Call(t) => l.(callers := l.callers[t := Loading])
    case Load(t) =>
      if l.word == ContinueWorking then l.(callers := l.callers[t := Returned(false)], owed := true)
      else l.(callers := l.callers[t := Loaded(l.word)])
    case Swap(t) =>
      var seen := l.callers[t].seen;
      if l.word != seen then l.(callers := l.callers[t := Loading])
      else if seen == Unstarted then
        Loop(Working, l.callers[t := Returned(true)], l.workers[t := Spawned], true)
      else Loop(ContinueWorking, l.callers[t := Returned(false)], l.workers, true)
    case StartIteration(w) => SetWorker(l, w, Iterating).(owed := false)
    case EndIteration(w, again) => SetWorker(l, w, Finishing(again))
    case FinishLoad(w) =>
      var again := l.workers[w].again;
      match l.word {
        case Working => SetWorker(l, w, if again then Continuing else Stopping)
        case ContinueWorking => SetWorker(l, w, Demoting)
        case Unstarted => if again then SetWorker(l, w, Continuing) else l.(workers := l.workers - {w})
      }
    case FinishSwap(w) =>
      if l.word == Working then l.(word := Unstarted, workers := l.workers - {w})
      else SetWorker(l, w, Continuing)
    case FinishStore(w) => SetWorker(l, w, Continuing).(word := Working)
    case HardFinish(w) => l.(word := Unstarted, workers := l.workers - {w})
  }

  ghost predicate IsRun(ls: seq<Loop>, actions: seq<Action>) {
    |ls| == |actions| + 1 && ls[0] == Idle &&
    forall i :: 0 <= i < |actions| ==> Enabled(ls[i], actions[i]) && ls[i + 1] == Step(ls[i], actions[i])
  }

  // ---------------------------------------------------------------------
  // One worker
  // ---------------------------------------------------------------------

  /** A worker exists exactly while the word is not unstarted, it is the only one, and it demotes only what it saw. */
  ghost predicate Inv(l: Loop) {
    (l.workers == map[] <==> l.word == Unstarted) &&
    (forall v, w :: v in l.workers && w in l.workers ==> v == w) &&
    (forall w :: w in l.workers && l.workers[w] == Demoting ==> l.word == ContinueWorking) &&
    (forall t :: t in l.callers && l.callers[t].Loaded? ==> l.callers[t].seen != ContinueWorking)
  }

  lemma NoneLeft(workers: map<nat, Worker>, w: nat)
    requires w in workers && forall v, u :: v in workers && u in workers ==> v == u
    ensures workers - {w} == map[]
  {
  }

  lemma StepInv(l: Loop, a: Action)
    requires Inv(l) && Enabled(l, a)
    ensures Inv(Step(l, a))
  {
    var l' := Step(l, a);
    if OfWorker(a) {
      NoneLeft(l.workers, a.w);
      assert a.w in l'.workers || l'.workers == map[];
    } else if a.Swap? && l.callers[a.t].seen == l.word == Unstarted {
      assert l.workers == map[] && l'.workers.Keys == {a.t};
    } else {
      assert l'.workers == l.workers;
    }
  }

  lemma {:induction false} RunInv(ls: seq<Loop>, actions: seq<Action>, i: nat)
    requires IsRun(ls, actions) && i < |ls|
    ensures Inv(ls[i])
  {
    if i > 0 {
      RunInv(ls, actions, i - 1);
      StepInv(ls[i - 1], actions[i - 1]);
    }
  }

  /**
   In no interleaving are there two workers, and `maybeBegin` says to begin
   exactly to the caller that makes the first one: never while there is one.
   */
  lemma OneWorker(ls: seq<Loop>, actions: seq<Action>, i: nat)
    requires IsRun(ls, actions) && i < |ls|
    ensures |ls[i].workers| <= 1
    ensures i < |actions| && actions[i].Swap? && ls[i + 1].callers[actions[i].t] == Returned(true) ==>
      ls[i].workers == map[]
    ensures i < |actions| && actions[i].Swap? ==>
      (ls[i + 1].callers[actions[i].t] == Returned(true) <==> ls[i + 1].workers != ls[i].workers) &&
      (ls[i + 1].workers != ls[i].workers ==> ls[i + 1].workers == map[actions[i].t := Spawned])
  {
    RunInv(ls, actions, i);
    if ls[i].workers != map[] {
      var w :| w in ls[i].workers;
      assert ls[i].workers.Keys == {w};
      assert |ls[i].workers| == |ls[i].workers.Keys|;
    }
  }

  // ---------------------------------------------------------------------
  // No lost wakeup
  // ---------------------------------------------------------------------

  /** Whatever the worker does next, it starts another iteration before it can stop. */
  ghost predicate WillIterate(l: Loop) {
    l.word == ContinueWorking || exists w :: w in l.workers && l.workers[w] in {Spawned, Continuing, Demoting}
  }

  ghost predicate Honest(l: Loop) { Inv(l) && (l.owed ==> l.workers != map[] && WillIterate(l)) }

  /** How many of its own steps the worker can take before it starts an iteration. */
  function Distance(pc: Worker): nat {
    match pc
    case Spawned => 0
    case Continuing => 0
    case Demoting => 1
    case Stopping => 1
    case Finishing(_) => 2
    case Iterating => 3
  }

  ghost predicate Within(l: Loop, n: nat) { forall w :: w in l.workers ==> Distance(l.workers[w]) <= n }

  lemma HonestStep(l: Loop, a: Action)
    requires Honest(l) && Enabled(l, a) && !a.HardFinish?
    ensures Honest(Step(l, a))
    ensures l.owed && !a.StartIteration? ==> Step(l, a).owed && Step(l, a).workers != map[]
  {
    StepInv(l, a);
    if a.Swap? && Step(l, a).workers != l.workers { assert Step(l, a).workers[a.t] == Spawned; }
    if OfWorker(a) { NoneLeft(l.workers, a.w); }
  }

  /** A step of the worker brings it nearer to the next iteration; other steps leave it where it is. */
  lemma CloserStep(l: Loop, a: Action, n: nat)
    requires Honest(l) && l.owed && Enabled(l, a) && !a.HardFinish? && !a.StartIteration? && Within(l, n)
    ensures if OfWorker(a) then n > 0 && Within(Step(l, a), n - 1) else Within(Step(l, a), n)
  {
  }

  /** The worker's own steps among the first `n` actions from `i` on. */
  function WorkerSteps(actions: seq<Action>, i: nat, n: nat): nat
    requires i + n <= |actions|
  {
    if n == 0 then 0 else WorkerSteps(actions, i, n - 1) + if OfWorker(actions[i + n - 1]) then 1 else 0
  }

  lemma {:induction false} RunHonest(ls: seq<Loop>, actions: seq<Action>, i: nat)
    requires IsRun(ls, actions) && i < |ls| && forall j :: 0 <= j < |actions| ==> !actions[j].HardFinish?
    ensures Honest(ls[i])
  {
    if i > 0 {
      RunHonest(ls, actions, i - 1);
      HonestStep(ls[i - 1], actions[i - 1]);
    }
  }

  lemma {:induction false} StillClose(ls: seq<Loop>, actions: seq<Action>, i: nat, n: nat)
    requires IsRun(ls, actions) && i + n < |ls| && forall j :: 0 <= j < |actions| ==> !actions[j].HardFinish?
    requires ls[i].owed && forall j :: i <= j < i + n ==> !actions[j].StartIteration?
    ensures ls[i + n].owed && WorkerSteps(actions, i, n) <= 3 && Within(ls[i + n], 3 - WorkerSteps(actions, i, n))
  {
    RunHonest(ls, actions, i + n);
    if n > 0 {
      StillClose(ls, actions, i, n - 1);
      RunHonest(ls, actions, i + n - 1);
      HonestStep(ls[i + n - 1], actions[i + n - 1]);
      CloserStep(ls[i + n - 1], actions[i + n - 1], 3 - WorkerSteps(actions, i, n - 1));
    }
  }

  ghost predicate AboutToIterate(l: Loop) {
    forall w :: w in l.workers ==> l.workers[w] == Spawned || l.workers[w] == Continuing
  }

  /**
   No wakeup is lost: once a `maybeBegin` has returned, then as long as no
   iteration has started since, there is a worker, and after at most three more
   of its own steps the only step left to it is to start one.
   */
  lemma WakeupServed(ls: seq<Loop>, actions: seq<Action>, i: nat, n: nat)
    requires IsRun(ls, actions) && i < |actions| && forall j :: 0 <= j < |actions| ==> !actions[j].HardFinish?
    requires (actions[i].Load? || actions[i].Swap?) && ls[i + 1].callers[actions[i].t].Returned?
    requires i + 1 + n < |ls| && forall j :: i + 1 <= j < i + 1 + n ==> !actions[j].StartIteration?
    ensures ls[i + 1 + n].workers != map[] && WorkerSteps(actions, i + 1, n) <= 3
    ensures WorkerSteps(actions, i + 1, n) == 3 ==>
      AboutToIterate(ls[i + 1 + n])
  {
    assert ls[i + 1] == Step(ls[i], actions[i]) && ls[i + 1].owed;
    StillClose(ls, actions, i + 1, n);
    RunHonest(ls, actions, i + 1 + n);
  }

  // ---------------------------------------------------------------------
  // What the worker itself asks for
  // ---------------------------------------------------------------------

  /** The worker was told to go on, by its own `maybeFinish(true)` or otherwise. */
  predicate GoesOn(pc: Worker) { pc == Finishing(true) || pc == Demoting || pc == Continuing }

  lemma AgainStep(l: Loop, a: Action, w: nat)
    requires Inv(l) && Enabled(l, a) && !a.HardFinish? && a != StartIteration(w)
    requires w in l.workers && GoesOn(l.workers[w])
    ensures var l' := Step(l, a);
      w in l'.workers && GoesOn(l'.workers[w]) &&
      Distance(l'.workers[w]) + (if OfWorker(a) then 1 else 0) <= Distance(l.workers[w])
  {
  }

  /**
   `maybeFinish(true)` never ends the worker: until it starts its next iteration
   it stays a worker, and after at most two of its own steps starting one is the
   only step left to it.
   */
  lemma {:induction false} AgainIsKept(ls: seq<Loop>, actions: seq<Action>, i: nat, w: nat, n: nat)
    requires IsRun(ls, actions) && forall j :: 0 <= j < |actions| ==> !actions[j].HardFinish?
    requires i < |actions| && actions[i] == EndIteration(w, true)
    requires i + 1 + n < |ls| && forall j :: i + 1 <= j < i + 1 + n ==> actions[j] != StartIteration(w)
    ensures var l := ls[i + 1 + n];
      w in l.workers && GoesOn(l.workers[w]) && WorkerSteps(actions, i + 1, n) + Distance(l.workers[w]) <= 2 &&
      (WorkerSteps(actions, i + 1, n) == 2 ==> l.workers[w] == Continuing)
  {
    if n == 0 {
      assert ls[i + 1] == Step(ls[i], actions[i]);
    } else {
      AgainIsKept(ls, actions, i, w, n - 1);
      RunInv(ls, actions, i + n);
      AgainStep(ls[i + n], actions[i + n], w);
    }
  }

  /** A call of `maybeBegin` returns in this step. */
  predicate ReturnsAt(l: Loop, a: Action)
    requires Enabled(l, a)
  {
    (a.Load? || a.Swap?) && Step(l, a).callers[a.t].Returned?
  }

  lemma {:induction false} OwedStays(ls: seq<Loop>, actions: seq<Action>, j: nat, i: nat)
    requires IsRun(ls, actions) && j <= i < |ls| && ls[j].owed
    requires forall k :: j <= k < i ==> !actions[k].StartIteration?
    ensures ls[i].owed
  {
    if j < i {
      OwedStays(ls, actions, j, i - 1);
      assert ls[i] == Step(ls[i - 1], actions[i - 1]);
    }
  }

  /** In an iteration, or past its end without having been told to go on. */
  predicate WithinIteration(pc: Worker) { pc == Iterating || pc.Finishing? || pc == Stopping }

  lemma IterationStep(l: Loop, a: Action, w: nat)
    requires Inv(l) && Enabled(l, a) && w in Step(l, a).workers && WithinIteration(Step(l, a).workers[w])
    ensures a == StartIteration(w) || (w in l.workers && WithinIteration(l.workers[w]) && !a.StartIteration?)
  {
  }

  /** The iteration that the worker is in, or has ended. */
  lemma {:induction false} IterationOf(ls: seq<Loop>, actions: seq<Action>, i: nat, w: nat) returns (s: nat)
    requires IsRun(ls, actions) && i < |ls| && w in ls[i].workers && WithinIteration(ls[i].workers[w])
    ensures s < i && actions[s] == StartIteration(w) && forall j :: s < j < i ==> !actions[j].StartIteration?
  {
    RunInv(ls, actions, i - 1);
    IterationStep(ls[i - 1], actions[i - 1], w);
    s := i - 1;
    if actions[s] != StartIteration(w) { s := IterationOf(ls, actions, i - 1, w); }
  }

  predicate Ending(pc: Worker) { pc == Finishing(false) || pc == Stopping }

  lemma EndingStep(l: Loop, a: Action, w: nat)
    requires Inv(l) && Enabled(l, a) && w in Step(l, a).workers && Ending(Step(l, a).workers[w])
    ensures a == EndIteration(w, false) || (w in l.workers && Ending(l.workers[w]) && !a.StartIteration?)
  {
  }

  lemma {:induction false} EndOf(ls: seq<Loop>, actions: seq<Action>, i: nat, w: nat) returns (k: nat)
    requires IsRun(ls, actions) && i < |ls| && w in ls[i].workers && Ending(ls[i].workers[w])
    ensures k < i && actions[k] == EndIteration(w, false) && forall j :: k < j < i ==> !actions[j].StartIteration?
  {
    RunInv(ls, actions, i - 1);
    EndingStep(ls[i - 1], actions[i - 1], w);
    k := i - 1;
    if actions[k] != EndIteration(w, false) { k := EndOf(ls, actions, i - 1, w); }
  }

  lemma LastStep(l: Loop, a: Action, w: nat)
    requires Honest(l) && Enabled(l, a) && !a.HardFinish? && w in l.workers && w !in Step(l, a).workers
    ensures Ending(l.workers[w]) && !l.owed && !a.StartIteration?
  {
    HonestStep(l, a);
    if OfWorker(a) { NoneLeft(l.workers, a.w); }
  }

  /**
   A worker ends only after its own `maybeFinish(false)`, and only if no call of
   `maybeBegin` has returned since the iteration before it started.
   */
  lemma EndsOnlyWhenDone(ls: seq<Loop>, actions: seq<Action>, i: nat, w: nat) returns (s: nat, k: nat)
    requires IsRun(ls, actions) && forall j :: 0 <= j < |actions| ==> !actions[j].HardFinish?
    requires i < |actions| && w in ls[i].workers && w !in ls[i + 1].workers
    ensures s < k < i && actions[s] == StartIteration(w) && actions[k] == EndIteration(w, false)
    ensures forall j :: s < j < i ==> !actions[j].StartIteration? && !ReturnsAt(ls[j], actions[j])
  {
    RunHonest(ls, actions, i);
    LastStep(ls[i], actions[i], w);
    k := EndOf(ls, actions, i, w);
    assert Enabled(ls[k], actions[k]);
    s := IterationOf(ls, actions, k, w);
    assert !actions[k].StartIteration?;
    forall j | s < j < i ensures !actions[j].StartIteration? && !ReturnsAt(ls[j], actions[j]) {
      if ReturnsAt(ls[j], actions[j]) {
        assert ls[j + 1] == Step(ls[j], actions[j]) && ls[j + 1].owed;
        OwedStays(ls, actions, j + 1, i);
      }
    }
  }

  /**
   The word says to continue only after a call that returned since the word was
   last demoted, and since the worker last looked at it unless the worker is
   about to demote it: one wakeup does not make two iterations.
   */
  lemma {:induction false} ContinueNeedsCall(ls: seq<Loop>, actions: seq<Action>, i: nat) returns (k: nat)
    requires IsRun(ls, actions) && i < |ls| && ls[i].word == ContinueWorking
    ensures k < i && ReturnsAt(ls[k], actions[k])
    ensures forall j :: k < j < i ==> !actions[j].FinishStore?
    ensures (forall w :: w in ls[i].workers ==> ls[i].workers[w] != Demoting) ==>
      forall j :: k < j < i ==> !actions[j].FinishLoad?
  {
    k := i - 1;
    RunInv(ls, actions, k);
    assert ls[i] == Step(ls[k], actions[k]);
    if !ReturnsAt(ls[k], actions[k]) { k := ContinueNeedsCall(ls, actions, i - 1); }
  }

  /** What a worker becomes that has nothing more to do, by its own steps since `maybeFinish(false)`. */
  ghost predicate Fading(l: Loop, w: nat, steps: nat) {
    if steps == 0 then l.word == Working && w in l.workers && l.workers[w] == Finishing(false)
    else if steps == 1 then l.word == Working && w in l.workers && l.workers[w] == Stopping
    else steps == 2 && l.word == Unstarted && l.workers == map[]
  }

  lemma FadingStep(l: Loop, a: Action, w: nat, steps: nat)
    requires Inv(l) && Enabled(l, a) && !a.HardFinish? && !ReturnsAt(l, a) && Fading(l, w, steps)
    ensures Fading(Step(l, a), w, steps + if OfWorker(a) then 1 else 0)
  {
    if OfWorker(a) { NoneLeft(l.workers, a.w); }
  }

  /**
   A worker does end: if the word is not to continue when it calls
   `maybeFinish(false)` and no call returns meanwhile, two of its own steps later
   there is no worker and the word is unstarted.
   */
  lemma {:induction false} IdleEnds(ls: seq<Loop>, actions: seq<Action>, i: nat, w: nat, n: nat)
    requires IsRun(ls, actions) && forall j :: 0 <= j < |actions| ==> !actions[j].HardFinish?
    requires i < |actions| && actions[i] == EndIteration(w, false) && ls[i].word != ContinueWorking
    requires i + 1 + n < |ls| && forall j :: i + 1 <= j < i + 1 + n ==> !ReturnsAt(ls[j], actions[j])
    ensures Fading(ls[i + 1 + n], w, WorkerSteps(actions, i + 1, n))
  {
    if n == 0 {
      RunInv(ls, actions, i);
      assert ls[i + 1] == Step(ls[i], actions[i]);
    } else {
      IdleEnds(ls, actions, i, w, n - 1);
      RunInv(ls, actions, i + n);
      FadingStep(ls[i + n], actions[i + n], w, WorkerSteps(actions, i + 1, n - 1));
    }
  }

  /** Called on a loop that is already finished, `maybeFinish` returns what it was asked and changes nothing. */
  lemma FinishedIsNoOp(l: Loop, w: nat)
    requires Enabled(l, FinishLoad(w)) && l.word == Unstarted
    ensures var l', again := Step(l, FinishLoad(w)), l.workers[w].again;
      l'.word == Unstarted && l'.callers == l.callers && (w in l'.workers <==> again) &&
      (again ==> l'.workers[w] == Continuing)
  {
  }

  /** The exception: a hard finish while a wakeup is owed leaves nobody to serve it. */
  lemma HardFinishForgets(l: Loop, w: nat)
    requires Inv(l) && l.owed && Enabled(l, HardFinish(w))
    ensures Step(l, HardFinish(w)).owed && Step(l, HardFinish(w)).workers == map[] && Inv(Step(l, HardFinish(w)))
  {
    StepInv(l, HardFinish(w));
    NoneLeft(l.workers, w);
  }
}
