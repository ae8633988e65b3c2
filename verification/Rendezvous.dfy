/** The map rendezvous of MapReduce::Execute: one requester waits on a condition variable for n map
    workers that share a counter, a mutex and the results. Map functions may throw; the condition variable
    may wake spuriously. */
module Rendezvous {

  /** A worker. First branch: the map returns, the result is stored, the notification sent and the
      counter decremented, all under the mutex. Second branch: the map throws a script exception, so the
      counter is decremented first, without the mutex, and only then is the mutex taken to notify. Third
      branch: any other exception, which nobody catches, so that only the counter is decremented. */
  datatype Worker =
    | Running
    | Ready | Locked | Stored | Notified | Decremented | Finished
    | Threw | ThrewLocked | ThrewNotified | ThrewRecorded | FinishedThrown
    | Died

  /** The requester: wants the mutex, checks the counter under it, sleeps, or has left the wait. */
  datatype Requester = Wanting | Checking | Asleep | Left

  datatype Owner = Free | ByRequester | ByWorker(i: nat)

  /** `results` and `exceptions` count what the workers have put into the two vectors. */
  datatype State = State(workers: seq<Worker>, requester: Requester, mutex: Owner,
                         threads: int, results: nat, exceptions: nat)

  datatype Step =
    | Return(i: nat) | Throw(i: nat) | Die(i: nat)
    | Acquire(i: nat) | Store(i: nat) | Notify(i: nat) | Decrement(i: nat) | Record(i: nat) | Release(i: nat)
    | RequesterLocks | RequesterChecks | Spurious

  ghost predicate Init(n: nat, s: State) {
    s == State(seq(n, _ => Running), Wanting, Free, n, 0, 0)
  }

  /** notify_one: the one possible waiter is woken. */
  function Woken(r: Requester): Requester {
    if r == Asleep then Wanting else r
  }

  ghost predicate Next(s: State, t: State, step: Step) {
    match step
    case Return(i) => i < |s.workers| && s.workers[i] == Running && t == s.(workers := s.workers[i := Ready])
    case Throw(i) => i < |s.workers| && s.workers[i] == Running &&
                     t == s.(workers := s.workers[i := Threw], threads := s.threads - 1)
    case Die(i) => i < |s.workers| && s.workers[i] == Running &&
                   t == s.(workers := s.workers[i := Died], threads := s.threads - 1)
    case Acquire(i) => i < |s.workers| && (s.workers[i] == Ready || s.workers[i] == Threw) && s.mutex == Free &&
                       t == s.(workers := s.workers[i := if s.workers[i] == Ready then Locked else ThrewLocked],
                               mutex := ByWorker(i))
    case Store(i) => i < |s.workers| && s.workers[i] == Locked &&
                     t == s.(workers := s.workers[i := Stored], results := s.results + 1)
    case Notify(i) => i < |s.workers| && (s.workers[i] == Stored || s.workers[i] == ThrewLocked) &&
                      t == s.(workers := s.workers[i := if s.workers[i] == Stored then Notified else ThrewNotified],
                              requester := Woken(s.requester))
    case Decrement(i) => i < |s.workers| && s.workers[i] == Notified &&
                         t == s.(workers := s.workers[i := Decremented], threads := s.threads - 1)
    case Record(i) => i < |s.workers| && s.workers[i] == ThrewNotified &&
                      t == s.(workers := s.workers[i := ThrewRecorded], exceptions := s.exceptions + 1)
    case Release(i) =>
      i < |s.workers| && (s.workers[i] == Decremented || s.workers[i] == ThrewRecorded) &&
      t == s.(workers := s.workers[i := if s.workers[i] == Decremented then Finished else FinishedThrown],
              mutex := Free)
    case RequesterLocks => s.requester == Wanting && s.mutex == Free &&
                           t == s.(requester := Checking, mutex := ByRequester)
    case RequesterChecks => s.requester == Checking &&
                            t == if s.threads == 0 then s.(requester := Left)
                                 else s.(requester := Asleep, mutex := Free)
    case Spurious => s.requester == Asleep && t == s.(requester := Wanting)
  }

  ghost predicate IsRun(n: nat, trace: seq<State>, steps: seq<Step>) {
    && |trace| == |steps| + 1
    && Init(n, trace[0])
    && forall k | 0 <= k < |steps| :: Next(trace[k], trace[k + 1], steps[k])
  }

  // ---- Counting workers -------------------------------------------------------------------

  function Count(p: Worker -> bool, ws: seq<Worker>): nat {
    if ws == [] then 0 else (if p(ws[0]) then 1 else 0) + Count(p, ws[1..])
  }

  lemma {:induction false} CountUpdate(p: Worker -> bool, ws: seq<Worker>, i: nat, w: Worker)
    requires i < |ws|
    ensures Count(p, ws[i := w]) == Count(p, ws) - (if p(ws[i]) then 1 else 0) + (if p(w) then 1 else 0)
  {
    if i == 0 {
      assert ws[0 := w][1..] == ws[1..];
    } else {
      assert ws[i := w][1..] == ws[1..][i - 1 := w];
      CountUpdate(p, ws[1..], i - 1, w);
    }
  }

  lemma {:induction false} CountAll(p: Worker -> bool, ws: seq<Worker>)
    ensures Count(p, ws) <= |ws|
    ensures Count(p, ws) == 0 <==> forall i | 0 <= i < |ws| :: !p(ws[i])
    ensures Count(p, ws) == |ws| <==> forall i | 0 <= i < |ws| :: p(ws[i])
  {
    if ws != [] {
      CountAll(p, ws[1..]);
      assert forall i | 1 <= i < |ws| :: ws[i] == ws[1..][i - 1];
      assert ws[0] == ws[0];
    }
  }

  function Uncounted(w: Worker): bool {
    w.Running? || w.Ready? || w.Locked? || w.Stored? || w.Notified?
  }

  function HasStored(w: Worker): bool {
    w.Stored? || w.Notified? || w.Decremented? || w.Finished?
  }

  function HasRecorded(w: Worker): bool {
    w.ThrewRecorded? || w.FinishedThrown?
  }

  function HasThrown(w: Worker): bool {
    w.Threw? || w.ThrewLocked? || w.ThrewNotified? || HasRecorded(w)
  }

  /** Inside the mutex. */
  predicate Holding(w: Worker) {
    w.Locked? || w.Stored? || w.Notified? || w.Decremented? || w.ThrewLocked? || w.ThrewNotified? || w.ThrewRecorded?
  }

  /** The notification is still to come. */
  predicate WillNotify(w: Worker) {
    w.Running? || w.Ready? || w.Locked? || w.Stored? || w.Threw? || w.ThrewLocked?
  }

  // ---- The invariant ----------------------------------------------------------------------

  ghost predicate Inv(n: nat, s: State) {
    && |s.workers| == n
    && (forall i | 0 <= i < n :: Holding(s.workers[i]) <==> s.mutex == ByWorker(i))
    && (s.mutex.ByWorker? ==> s.mutex.i < n)
    && (s.requester == Checking || s.requester == Left <==> s.mutex == ByRequester)
    && s.threads == Count(Uncounted, s.workers)
    && s.results == Count(HasStored, s.workers)
    && s.exceptions == Count(HasRecorded, s.workers)
    && (s.requester == Asleep ==> exists i :: 0 <= i < n && (WillNotify(s.workers[i]) || s.workers[i].Died?))
    && (s.requester == Left ==> s.threads == 0)
  }

  lemma CountsMove(s: State, i: nat, w: Worker)
    requires i < |s.workers|
    ensures Count(Uncounted, s.workers[i := w])
            == Count(Uncounted, s.workers) - (if Uncounted(s.workers[i]) then 1 else 0)
               + (if Uncounted(w) then 1 else 0)
    ensures Count(HasStored, s.workers[i := w])
            == Count(HasStored, s.workers) - (if HasStored(s.workers[i]) then 1 else 0)
               + (if HasStored(w) then 1 else 0)
    ensures Count(HasRecorded, s.workers[i := w])
            == Count(HasRecorded, s.workers) - (if HasRecorded(s.workers[i]) then 1 else 0)
               + (if HasRecorded(w) then 1 else 0)
  {
    CountUpdate(Uncounted, s.workers, i, w);
    CountUpdate(HasStored, s.workers, i, w);
    CountUpdate(HasRecorded, s.workers, i, w);
  }

  /** Going to sleep: the counter is positive and the requester holds the mutex, so the worker that
      has not been counted has not notified either. */
  lemma SleepIsSafe(n: nat, s: State, t: State)
    requires Inv(n, s) && Next(s, t, RequesterChecks)
    ensures Inv(n, t)
  {
    CountAll(Uncounted, s.workers);
    if s.threads != 0 {
      var i :| 0 <= i < n && Uncounted(s.workers[i]);
      assert !Holding(s.workers[i]);
      assert WillNotify(t.workers[i]);
    }
  }

  predicate ByWorkerStep(step: Step, i: nat) {
    match step
    case Return(j) => j == i
    case Throw(j) => j == i
    case Die(j) => j == i
    case Acquire(j) => j == i
    case Store(j) => j == i
    case Notify(j) => j == i
    case Decrement(j) => j == i
    case Record(j) => j == i
    case Release(j) => j == i
    case _ => false
  }

  /** What a worker's step does to the things it does not count. */
  lemma WorkerEffect(n: nat, s: State, t: State, i: nat, step: Step)
    requires Inv(n, s) && Next(s, t, step) && ByWorkerStep(step, i)
    ensures i < n && |t.workers| == n && t.workers == s.workers[i := t.workers[i]]
    ensures forall j | 0 <= j < n :: Holding(t.workers[j]) <==> t.mutex == ByWorker(j)
    ensures t.mutex.ByWorker? ==> t.mutex.i < n
    ensures t.requester == Checking || t.requester == Left <==> t.mutex == ByRequester
    ensures t.requester == Asleep ==>
              s.requester == Asleep && (WillNotify(s.workers[i]) ==> WillNotify(t.workers[i]) || t.workers[i].Died?)
    ensures !s.workers[i].Died?
    ensures t.requester == Left ==> s.requester == Left
    ensures t.threads <= s.threads
  {
    hide Count;
  }

  lemma WorkerCounts(n: nat, s: State, t: State, i: nat, step: Step)
    requires Inv(n, s) && Next(s, t, step) && ByWorkerStep(step, i)
    ensures t.threads == Count(Uncounted, t.workers)
    ensures t.results == Count(HasStored, t.workers)
    ensures t.exceptions == Count(HasRecorded, t.workers)
  {
    hide Count;
    CountsMove(s, i, t.workers[i]);
  }

  lemma WorkerInv(n: nat, s: State, t: State, i: nat, step: Step)
    requires Inv(n, s) && Next(s, t, step) && ByWorkerStep(step, i)
    ensures Inv(n, t)
  {
    hide Count;
    WorkerEffect(n, s, t, i, step);
    WorkerCounts(n, s, t, i, step);
    if t.requester == Asleep {
      var j :| 0 <= j < n && (WillNotify(s.workers[j]) || s.workers[j].Died?);
      assert WillNotify(t.workers[j]) || t.workers[j].Died?;
    }
  }

  lemma NextInv(n: nat, s: State, t: State, step: Step)
    requires Inv(n, s) && Next(s, t, step)
    ensures Inv(n, t)
  {
    match step
    case RequesterLocks =>
    case RequesterChecks => SleepIsSafe(n, s, t);
    case Spurious =>
    case Return(i) => WorkerInv(n, s, t, i, step);
    case Throw(i) => WorkerInv(n, s, t, i, step);
    case Die(i) => WorkerInv(n, s, t, i, step);
    case Acquire(i) => WorkerInv(n, s, t, i, step);
    case Store(i) => WorkerInv(n, s, t, i, step);
    case Notify(i) => WorkerInv(n, s, t, i, step);
    case Decrement(i) => WorkerInv(n, s, t, i, step);
    case Record(i) => WorkerInv(n, s, t, i, step);
    case Release(i) => WorkerInv(n, s, t, i, step);
  }

  lemma InitInv(n: nat, s: State)
    requires Init(n, s)
    ensures Inv(n, s)
  {
    CountAll(Uncounted, s.workers);
    CountAll(HasStored, s.workers);
    CountAll(HasRecorded, s.workers);
  }

  lemma {:induction false} RunInv(n: nat, trace: seq<State>, steps: seq<Step>)
    requires IsRun(n, trace, steps)
    ensures Inv(n, trace[|steps|])
    decreases |steps|
  {
    if steps == [] {
      InitInv(n, trace[0]);
    } else {
      var k := |steps| - 1;
      RunInv(n, trace[..k + 1], steps[..k]);
      NextInv(n, trace[k], trace[k + 1], steps[k]);
    }
  }

  // ---- Safety -----------------------------------------------------------------------------

  function HasDied(w: Worker): bool {
    w.Died?
  }

  /** The workers whose map threw a script exception. */
  function Thrown(ws: seq<Worker>): set<nat> {
    set i: nat | i < |ws| && HasThrown(ws[i])
  }

  /** The workers another exception has ended. */
  function Dead(ws: seq<Worker>): set<nat> {
    set i: nat | i < |ws| && HasDied(ws[i])
  }

  /** When the requester leaves the wait every map function has returned or thrown, and every result
      of those that returned is stored: it goes on to merge (all n results are there) if and only if
      no map function threw. */
  lemma LeavesWithAllResults(n: nat, trace: seq<State>, steps: seq<Step>)
    requires IsRun(n, trace, steps)
    requires trace[|steps|].requester == Left
    ensures var s := trace[|steps|];
            && |s.workers| == n
            && (forall i | 0 <= i < n :: HasStored(s.workers[i]) || HasThrown(s.workers[i]) || HasDied(s.workers[i]))
            && s.results == n - Count(HasThrown, s.workers) - Count(HasDied, s.workers)
            && (s.results == n <==> Thrown(s.workers) == {} && Dead(s.workers) == {})
  {
    RunInv(n, trace, steps);
    var s := trace[|steps|];
    CountAll(Uncounted, s.workers);
    CountAll(HasThrown, s.workers);
    CountAll(HasDied, s.workers);
    StoredOrThrown(s.workers);
    assert forall i: nat | i < n :: HasThrown(s.workers[i]) <==> i in Thrown(s.workers);
    assert forall i: nat | i < n :: HasDied(s.workers[i]) <==> i in Dead(s.workers);
  }

  lemma {:induction false} StoredOrThrown(ws: seq<Worker>)
    requires forall i | 0 <= i < |ws| :: !Uncounted(ws[i])
    ensures Count(HasStored, ws) + Count(HasThrown, ws) + Count(HasDied, ws) == |ws|
  {
    if ws != [] {
      assert !Uncounted(ws[0]);
      StoredOrThrown(ws[1..]);
    }
  }

  /** No lost wakeup: a requester asleep still has a notification coming, script exceptions or not, as long
      as no other exception has ended a worker. */
  lemma NoLostWakeup(n: nat, trace: seq<State>, steps: seq<Step>)
    requires IsRun(n, trace, steps)
    requires trace[|steps|].requester == Asleep && Dead(trace[|steps|].workers) == {}
    ensures exists i :: 0 <= i < |trace[|steps|].workers| && WillNotify(trace[|steps|].workers[i])
  {
    RunInv(n, trace, steps);
    var ws := trace[|steps|].workers;
    var i :| 0 <= i < n && (WillNotify(ws[i]) || ws[i].Died?);
    assert ws[i].Died? ==> i in Dead(ws);
  }

  /** Without exceptions it never even sleeps at zero. */
  lemma NeverAsleepAtZero(n: nat, trace: seq<State>, steps: seq<Step>)
    requires IsRun(n, trace, steps)
    requires Thrown(trace[|steps|].workers) == {} && Dead(trace[|steps|].workers) == {}
    requires trace[|steps|].threads == 0
    ensures trace[|steps|].requester != Asleep
  {
    RunInv(n, trace, steps);
    var ws := trace[|steps|].workers;
    CountAll(Uncounted, ws);
    forall i: nat | i < |ws| ensures !WillNotify(ws[i]) && !ws[i].Died? {
      assert HasThrown(ws[i]) ==> i in Thrown(ws);
      assert HasDied(ws[i]) ==> i in Dead(ws);
    }
  }

  // ---- Runs with exceptions ---------------------------------------------------------------

  lemma Extend(n: nat, trace: seq<State>, steps: seq<Step>, step: Step, t: State)
    requires IsRun(n, trace, steps) && Next(trace[|steps|], t, step)
    ensures IsRun(n, trace + [t], steps + [step])
  {
    var trace', steps' := trace + [t], steps + [step];
    forall k | 0 <= k < |steps'| ensures Next(trace'[k], trace'[k + 1], steps'[k]) {
      if k == |steps| {
        assert trace'[k] == trace[|steps|] && trace'[k + 1] == t;
      }
    }
  }

  /** Of the first k workers those outside X have finished and those in X are as `ended` says. */
  function Mixed(n: nat, X: set<nat>, k: nat, ended: Worker): (ws: seq<Worker>)
    ensures |ws| == n
  {
    seq(n, i => if i < k then (if i in X then ended else Finished) else Running)
  }

  /** A worker alone goes through its six steps. */
  lemma FinishOne(n: nat, trace: seq<State>, steps: seq<Step>, i: nat) returns (trace': seq<State>, steps': seq<Step>)
    requires IsRun(n, trace, steps) && i < |trace[|steps|].workers| && trace[|steps|].workers[i] == Running
    requires trace[|steps|].mutex == Free && trace[|steps|].requester == Wanting
    ensures IsRun(n, trace', steps') && |trace'| > 0
    ensures var s, t := trace[|steps|], trace'[|steps'|];
            && t.workers == s.workers[i := Finished]
            && t.mutex == Free && t.requester == Wanting
  {
    var s0 := trace[|steps|];
    var s1 := s0.(workers := s0.workers[i := Ready]);
    var s2 := s1.(workers := s1.workers[i := Locked], mutex := ByWorker(i));
    var s3 := s2.(workers := s2.workers[i := Stored], results := s2.results + 1);
    var s4 := s3.(workers := s3.workers[i := Notified]);
    var s5 := s4.(workers := s4.workers[i := Decremented], threads := s4.threads - 1);
    var s6 := s5.(workers := s5.workers[i := Finished], mutex := Free);
    trace', steps' := trace, steps;
    Extend(n, trace', steps', Return(i), s1);
    trace', steps' := trace' + [s1], steps' + [Return(i)];
    Extend(n, trace', steps', Acquire(i), s2);
    trace', steps' := trace' + [s2], steps' + [Acquire(i)];
    Extend(n, trace', steps', Store(i), s3);
    trace', steps' := trace' + [s3], steps' + [Store(i)];
    Extend(n, trace', steps', Notify(i), s4);
    trace', steps' := trace' + [s4], steps' + [Notify(i)];
    Extend(n, trace', steps', Decrement(i), s5);
    trace', steps' := trace' + [s5], steps' + [Decrement(i)];
    Extend(n, trace', steps', Release(i), s6);
    trace', steps' := trace' + [s6], steps' + [Release(i)];
  }

  /** A run in which the workers outside X have finished, one after the other. */
  lemma {:induction false} FinishOthers(n: nat, X: set<nat>, k: nat) returns (trace: seq<State>, steps: seq<Step>)
    requires k <= n
    ensures IsRun(n, trace, steps) && |trace| > 0
    ensures var s := trace[|steps|];
            s.workers == Mixed(n, X, k, Running) && s.mutex == Free && s.requester == Wanting
    decreases k
  {
    if k == 0 {
      trace, steps := [State(seq(n, _ => Running), Wanting, Free, n, 0, 0)], [];
      assert trace[0].workers == Mixed(n, X, 0, Running);
    } else {
      trace, steps := FinishOthers(n, X, k - 1);
      var ws := trace[|steps|].workers;
      if k - 1 !in X {
        trace, steps := FinishOne(n, trace, steps, k - 1);
      }
      assert trace[|steps|].workers == Mixed(n, X, k, Running);
    }
  }

  /** One worker's map throws: a script exception, or another one. */
  lemma EndOne(n: nat, trace: seq<State>, steps: seq<Step>, i: nat, script: bool)
    returns (trace': seq<State>, steps': seq<Step>)
    requires IsRun(n, trace, steps) && i < |trace[|steps|].workers| && trace[|steps|].workers[i] == Running
    ensures IsRun(n, trace', steps') && |trace'| > 0
    ensures var s, t := trace[|steps|], trace'[|steps'|];
            && t.workers == s.workers[i := if script then Threw else Died]
            && t.mutex == s.mutex && t.requester == s.requester
  {
    var s := trace[|steps|];
    var t := s.(workers := s.workers[i := if script then Threw else Died], threads := s.threads - 1);
    var step := if script then Throw(i) else Die(i);
    Extend(n, trace, steps, step, t);
    trace', steps' := trace + [t], steps + [step];
  }

  /** After the others have finished the first k workers of X end, and nothing else happens. */
  lemma {:induction false} EndX(n: nat, X: set<nat>, k: nat, trace0: seq<State>, steps0: seq<Step>, script: bool)
    returns (trace: seq<State>, steps: seq<Step>)
    requires IsRun(n, trace0, steps0) && trace0[|steps0|].workers == Mixed(n, X, n, Running) && k <= n
    ensures IsRun(n, trace, steps) && |trace| > 0
    ensures var ended := if script then Threw else Died;
            var s, t := trace0[|steps0|], trace[|steps|];
            && |t.workers| == n
            && (forall i | 0 <= i < n ::
                 t.workers[i] == if i !in X then Finished else if i < k then ended else Running)
            && t.mutex == s.mutex && t.requester == s.requester
    decreases k
  {
    if k == 0 {
      trace, steps := trace0, steps0;
    } else {
      trace, steps := EndX(n, X, k - 1, trace0, steps0, script);
      if k - 1 in X {
        trace, steps := EndOne(n, trace, steps, k - 1, script);
      }
    }
  }

  lemma {:induction false} NoneRecorded(ws: seq<Worker>)
    requires forall i | 0 <= i < |ws| :: !HasRecorded(ws[i])
    ensures Count(HasRecorded, ws) == 0
  {
    CountAll(HasRecorded, ws);
  }

  /** Whatever maps throw, if any does, there is a run in which the requester leaves with no exception
      recorded at all: the counter is zero before a single thrower has taken the mutex. */
  lemma ExceptionsLost(n: nat, T: set<nat>) returns (trace: seq<State>, steps: seq<Step>)
    requires forall i | i in T :: i < n
    ensures IsRun(n, trace, steps) && |trace| > 0
    ensures var s := trace[|steps|];
            s.requester == Left && Thrown(s.workers) == T && Dead(s.workers) == {} && s.exceptions == 0
  {
    trace, steps := FinishOthers(n, T, n);
    trace, steps := EndX(n, T, n, trace, steps, true);
    var s := trace[|steps|];
    RunInv(n, trace, steps);
    CountAll(Uncounted, s.workers);
    NoneRecorded(s.workers);
    var s1 := s.(requester := Checking, mutex := ByRequester);
    Extend(n, trace, steps, RequesterLocks, s1);
    trace, steps := trace + [s1], steps + [RequesterLocks];
    var s2 := s1.(requester := Left);
    Extend(n, trace, steps, RequesterChecks, s2);
    trace, steps := trace + [s2], steps + [RequesterChecks];
  }

  /** Every exception has been recorded when the requester leaves. */
  ghost predicate AllRecorded(n: nat, T: set<nat>) {
    forall trace: seq<State>, steps: seq<Step> | IsRun(n, trace, steps) && LeftThrown(trace, steps, T) ::
      trace[|steps|].exceptions == |T|
  }

  /** The requester has left, and exactly the maps of T have thrown. */
  ghost predicate LeftThrown(trace: seq<State>, steps: seq<Step>, T: set<nat>) {
    |steps| < |trace| && trace[|steps|].requester == Left && Thrown(trace[|steps|].workers) == T
  }

  /** The requester can count on finding the exceptions it is to pass on exactly when there are none. */
  lemma ExceptionsExactly(n: nat, T: set<nat>)
    requires forall i | i in T :: i < n
    ensures AllRecorded(n, T) <==> T == {}
  {
    if T == {} {
      forall trace: seq<State>, steps: seq<Step> | IsRun(n, trace, steps) && LeftThrown(trace, steps, T)
        ensures trace[|steps|].exceptions == |T|
      {
        RunInv(n, trace, steps);
        var ws := trace[|steps|].workers;
        assert forall i: nat | i < |ws| :: HasThrown(ws[i]) ==> i in Thrown(ws);
        NoneRecorded(ws);
      }
    } else {
      var trace, steps := ExceptionsLost(n, T);
      assert LeftThrown(trace, steps, T) && |T| > 0;
    }
  }

  /** With two shards, the fewest there are, and one script exception: the requester finds one result, no
      exception, and so cannot tell the script's fault. */
  lemma ExceptionMissed() returns (trace: seq<State>, steps: seq<Step>)
    ensures IsRun(2, trace, steps) && |trace| > 0
    ensures var s := trace[|steps|];
            s.requester == Left && Thrown(s.workers) == {1} && s.exceptions == 0 && s.results == 1
  {
    trace, steps := ExceptionsLost(2, {1});
    LeavesWithAllResults(2, trace, steps);
    var ws := trace[|steps|].workers;
    assert 1 in Thrown(ws) && 0 !in Thrown(ws) && 0 !in Dead(ws) && 1 !in Dead(ws);
    assert HasThrown(ws[1]) && !HasThrown(ws[0]) && !HasDied(ws[0]) && !HasDied(ws[1]);
    assert Count(HasThrown, ws) == 0 + Count(HasThrown, ws[1..]) && ws[1..][1..] == [];
    assert Count(HasThrown, ws[1..]) == 1;
    CountAll(HasDied, ws);
  }

  /** Asleep, and nobody will notify. */
  predicate Stranded(s: State) {
    s.requester == Asleep && forall i | 0 <= i < |s.workers| :: !WillNotify(s.workers[i])
  }

  /** If any exception other than a script exception ends a map, whatever set of workers it hits, there is
      a run in which the requester sleeps and no notification will come. */
  lemma WakeupLost(n: nat, D: set<nat>) returns (trace: seq<State>, steps: seq<Step>)
    requires D != {} && forall i | i in D :: i < n
    ensures IsRun(n, trace, steps) && |trace| > 0
    ensures Stranded(trace[|steps|]) && Dead(trace[|steps|].workers) == D
  {
    trace, steps := FinishOthers(n, D, n);
    var s := trace[|steps|];
    var s1 := s.(requester := Checking, mutex := ByRequester);
    Extend(n, trace, steps, RequesterLocks, s1);
    trace, steps := trace + [s1], steps + [RequesterLocks];
    RunInv(n, trace, steps);
    var d :| d in D;
    CountAll(Uncounted, s1.workers);
    assert Uncounted(s1.workers[d]);
    var s2 := s1.(requester := Asleep, mutex := Free);
    Extend(n, trace, steps, RequesterChecks, s2);
    trace, steps := trace + [s2], steps + [RequesterChecks];
    trace, steps := EndX(n, D, n, trace, steps, false);
  }

  ghost predicate NeverStranded(n: nat, D: set<nat>) {
    forall trace: seq<State>, steps: seq<Step> | IsRun(n, trace, steps) && EndedBy(trace, steps, D) ::
      !Stranded(trace[|steps|])
  }

  ghost predicate EndedBy(trace: seq<State>, steps: seq<Step>, D: set<nat>) {
    |steps| < |trace| && Dead(trace[|steps|].workers) == D
  }

  /** No wakeup is ever lost exactly when no map ends by an exception other than a script exception. */
  lemma WakeupsExactly(n: nat, D: set<nat>)
    requires forall i | i in D :: i < n
    ensures NeverStranded(n, D) <==> D == {}
  {
    if D == {} {
      forall trace: seq<State>, steps: seq<Step> | IsRun(n, trace, steps) && EndedBy(trace, steps, D)
        ensures !Stranded(trace[|steps|])
      {
        if trace[|steps|].requester == Asleep {
          NoLostWakeup(n, trace, steps);
        }
      }
    } else {
      var trace, steps := WakeupLost(n, D);
      assert EndedBy(trace, steps, D);
    }
  }

  // ---- Progress ---------------------------------------------------------------------------

  /** Until the requester has left, somebody can move, without a spurious wakeup, unless an exception other
      than a script exception has ended a worker. */
  lemma NeverStuck(n: nat, trace: seq<State>, steps: seq<Step>) returns (step: Step, t: State)
    requires IsRun(n, trace, steps)
    requires trace[|steps|].requester != Left && Dead(trace[|steps|].workers) == {}
    ensures Next(trace[|steps|], t, step) && !step.Spurious?
  {
    RunInv(n, trace, steps);
    var s := trace[|steps|];
    if s.mutex.ByWorker? {
      step, t := OwnerMoves(n, s);
    } else if s.requester == Wanting {
      step, t := RequesterLocks, s.(requester := Checking, mutex := ByRequester);
    } else if s.requester == Checking {
      step := RequesterChecks;
      t := if s.threads == 0 then s.(requester := Left) else s.(requester := Asleep, mutex := Free);
    } else {
      NoLostWakeup(n, trace, steps);
      var i :| 0 <= i < n && WillNotify(s.workers[i]);
      if s.workers[i] == Running {
        step, t := Return(i), s.(workers := s.workers[i := Ready]);
      } else {
        assert !Holding(s.workers[i]) && s.mutex == Free;
        step := Acquire(i);
        t := s.(workers := s.workers[i := if s.workers[i] == Ready then Locked else ThrewLocked], mutex := ByWorker(i));
      }
    }
  }

  lemma OwnerMoves(n: nat, s: State) returns (step: Step, t: State)
    requires Inv(n, s) && s.mutex.ByWorker?
    ensures Next(s, t, step) && !step.Spurious?
  {
    var i := s.mutex.i;
    assert Holding(s.workers[i]);
    match s.workers[i]
    case Locked => step, t := Store(i), s.(workers := s.workers[i := Stored], results := s.results + 1);
    case Stored => step, t := Notify(i), s.(workers := s.workers[i := Notified], requester := Woken(s.requester));
    case Notified => step, t := Decrement(i), s.(workers := s.workers[i := Decremented], threads := s.threads - 1);
    case Decremented => step, t := Release(i), s.(workers := s.workers[i := Finished], mutex := Free);
    case ThrewLocked =>
      step, t := Notify(i), s.(workers := s.workers[i := ThrewNotified], requester := Woken(s.requester));
    case ThrewNotified =>
      step, t := Record(i), s.(workers := s.workers[i := ThrewRecorded], exceptions := s.exceptions + 1);
    case ThrewRecorded => step, t := Release(i), s.(workers := s.workers[i := FinishedThrown], mutex := Free);
    case _ =>
  }

  /** Steps a worker has left, three for each so that its notification pays for the requester. */
  function Effort(w: Worker): nat {
    match w
    case Running => 18
    case Ready => 15
    case Locked => 12
    case Stored => 9
    case Notified => 6
    case Decremented => 3
    case Finished => 0
    case Threw => 12
    case ThrewLocked => 9
    case ThrewNotified => 6
    case ThrewRecorded => 3
    case FinishedThrown => 0
    case Died => 0
  }

  function Efforts(ws: seq<Worker>): nat {
    if ws == [] then 0 else Effort(ws[0]) + Efforts(ws[1..])
  }

  lemma {:induction false} EffortsUpdate(ws: seq<Worker>, i: nat, w: Worker)
    requires i < |ws|
    ensures Efforts(ws[i := w]) == Efforts(ws) - Effort(ws[i]) + Effort(w)
  {
    if i == 0 {
      assert ws[0 := w][1..] == ws[1..];
    } else {
      assert ws[i := w][1..] == ws[1..][i - 1 := w];
      EffortsUpdate(ws[1..], i - 1, w);
    }
  }

  function Budget(s: State): nat {
    Efforts(s.workers) + (match s.requester case Wanting => 2 case Checking => 1 case Asleep => 0 case Left => 0)
  }

  lemma WorkerCosts(s: State, t: State, i: nat, step: Step)
    requires Next(s, t, step) && ByWorkerStep(step, i)
    ensures Budget(t) < Budget(s)
  {
    hide Efforts;
    EffortsUpdate(s.workers, i, t.workers[i]);
  }

  /** Every real step lowers the budget; a spurious wakeup raises it by two. */
  lemma StepCosts(s: State, t: State, step: Step)
    requires Next(s, t, step)
    ensures if step.Spurious? then Budget(t) == Budget(s) + 2 else Budget(t) < Budget(s)
  {
    hide Efforts;
    match step
    case RequesterLocks =>
    case RequesterChecks =>
    case Spurious =>
    case _ => WorkerCosts(s, t, step.i, step);
  }

  function SpuriousCount(steps: seq<Step>): nat {
    if steps == [] then 0
    else SpuriousCount(steps[..|steps| - 1]) + (if steps[|steps| - 1].Spurious? then 1 else 0)
  }

  lemma {:induction false} EffortsAtStart(n: nat)
    ensures Efforts(seq(n, _ => Running)) == 18 * n
    decreases n
  {
    if n > 0 {
      EffortsAtStart(n - 1);
      assert seq(n, _ => Running)[1..] == seq(n - 1, _ => Running);
    }
  }

  /** Every run is short but for its spurious wakeups; with NeverStuck, the requester always leaves
      once the spurious wakeups stop. */
  lemma {:induction false} RunsAreShort(n: nat, trace: seq<State>, steps: seq<Step>)
    requires IsRun(n, trace, steps)
    ensures |steps| + Budget(trace[|steps|]) <= 18 * n + 2 + 3 * SpuriousCount(steps)
    decreases |steps|
  {
    hide Next, Efforts;
    if steps == [] {
      EffortsAtStart(n);
    } else {
      var k := |steps| - 1;
      RunsAreShort(n, trace[..k + 1], steps[..k]);
      StepCosts(trace[k], trace[k + 1], steps[k]);
    }
  }
}
