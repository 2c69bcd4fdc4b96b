/** The worker pool over whole runs: no task is left behind while a worker sleeps, and the
    shutdown ends after draining a fixed share of the queue. */
module PoolProgress {
  import opened References
  import opened Sums
  import opened PoolModel
  import opened PoolInvariants
  import opened PoolTasks

  // ----- no lost wake-up

  /** Added a task and not yet notified. */
  function InWindow(p: Post): nat {
    if p.poster.Added? || p.poster.Left? || p.poster.Released? then 1 else 0
  }

  /** Awake and going to ask the list before it can sleep again. */
  function OnWay(w: Worker): nat {
    if w.Starting? || w.Top? || w.Entered? || w.Testing? || w.Woken? || w.Ready? then 1 else 0
  }

  ghost predicate SomeAsleep(workers: seq<Worker>) {
    exists i :: 0 <= i < |workers| && workers[i].Asleep?
  }

  /** While anybody sleeps, every queued task has a notification or a worker coming. */
  ghost predicate Attended(s: State) {
    SomeAsleep(s.workers) ==> |s.queue| <= Sum(s.posts, InWindow) + Sum(s.workers, OnWay)
  }

  lemma AttendedTaking(s: State, i: nat)
    requires Attended(s) && WorkerEnabled(s, i) && s.workers[i].Ready? && s.queue != []
    ensures Attended(StepWorker(s, i))
  {
    var after := StepWorker(s, i);
    SumUpdate(s.workers, OnWay, i, after.workers[i]);
    SumUpdate(s.posts, InWindow, s.queue[0], after.posts[s.queue[0]]);
    StillAsleep(s.workers, i, after.workers[i]);
  }

  lemma AttendedBusy(s: State, i: nat)
    requires Attended(s) && WorkerEnabled(s, i) && Busy(s.workers[i])
    ensures Attended(StepWorker(s, i))
  {
    var after, t := StepWorker(s, i), s.workers[i].current;
    SumUpdate(s.workers, OnWay, i, after.workers[i]);
    SumUpdate(s.posts, InWindow, t, after.posts[t]);
    StillAsleep(s.workers, i, after.workers[i]);
  }

  lemma StillAsleep(workers: seq<Worker>, i: nat, w: Worker)
    requires i < |workers| && !w.Asleep?
    ensures SomeAsleep(workers[i := w]) ==> SomeAsleep(workers)
  {}

  lemma AttendedWorker(s: State, i: nat)
    requires Attended(s) && WorkerEnabled(s, i)
    ensures Attended(StepWorker(s, i))
  {
    var after := StepWorker(s, i);
    if s.workers[i].Ready? && s.queue != [] {
      AttendedTaking(s, i);
    } else if Busy(s.workers[i]) {
      AttendedBusy(s, i);
    } else if !after.workers[i].Asleep? {
      SumUpdate(s.workers, OnWay, i, after.workers[i]);
      StillAsleep(s.workers, i, after.workers[i]);
    }
  }

  lemma AttendedPoster(s: State, p: nat, woken: Option<nat>)
    requires Attended(s) && PosterEnabled(s, p, woken)
    ensures Attended(StepPoster(s, p, woken))
  {
    var after := StepPoster(s, p, woken);
    SumUpdate(s.posts, InWindow, p, after.posts[p]);
    if s.posts[p].poster.Released? && woken.Some? {
      SumUpdate(s.workers, OnWay, woken.value, after.workers[woken.value]);
    }
    forall j | 0 <= j < |after.workers| && after.workers[j].Asleep?
      ensures s.workers[j].Asleep?
    {}
  }

  lemma AttendedStep(s: State, a: Action)
    requires Attended(s) && Orderly(s) && Enabled(s, a)
    ensures Attended(Apply(s, a))
  {
    var after := Apply(s, a);
    match a
    case WorkerStep(i) => AttendedWorker(s, i);
    case SpuriousWake(i) => SumUpdate(s.workers, OnWay, i, after.workers[i]);
    case NewPost(given) => SumAppend(s.posts, InWindow, after.posts[|s.posts|]);
    case PosterStep(p, woken) => AttendedPoster(s, p, woken);
    case CloserStep =>
    case DropTask =>
  }

  // ----- every reachable state

  ghost predicate Inv(s: State) {
    Exclusive(s) && Orderly(s) && Served(s) && JoinedOnce(s) && TasksOk(s) && Attended(s)
  }

  lemma InitInv(workerCount: nat)
    ensures Inv(Init(workerCount))
  {}

  lemma InvStep(s: State, a: Action)
    requires Inv(s) && Enabled(s, a)
    ensures Inv(Apply(s, a))
  {
    ExclusiveStep(s, a);
    OrderlyStep(s, a);
    ServedStep(s, a);
    JoinedOnceStep(s, a);
    TasksOkStep(s, a);
    AttendedStep(s, a);
  }

  lemma SameWorkers(s: State, a: Action)
    requires Enabled(s, a)
    ensures |Apply(s, a).workers| == |s.workers|
  {}

  lemma {:induction false} InvRun(s: State, run: seq<Action>)
    requires Inv(s) && Legal(s, run)
    ensures Inv(Exec(s, run))
    ensures |Exec(s, run).workers| == |s.workers|
    decreases |run|
  {
    if run != [] {
      InvStep(s, run[0]);
      SameWorkers(s, run[0]);
      InvRun(Apply(s, run[0]), run[1..]);
    }
  }

  /** The states of a pool with `workerCount` workers, over all interleavings. */
  ghost predicate Reached(workerCount: nat, s: State) {
    exists run :: Legal(Init(workerCount), run) && s == Exec(Init(workerCount), run)
  }

  lemma ReachedInv(workerCount: nat, s: State)
    requires Reached(workerCount, s)
    ensures Inv(s) && |s.workers| == |s.threads| == workerCount
  {
    var run :| Legal(Init(workerCount), run) && s == Exec(Init(workerCount), run);
    InitInv(workerCount);
    InvRun(Init(workerCount), run);
  }

  /** Work conservation: in every reachable state with a sleeping worker, the queue is no
      longer than the posts about to notify and the workers on their way to the list. */
  lemma NoLostWakeUp(workerCount: nat, s: State)
    requires Reached(workerCount, s) && SomeAsleep(s.workers)
    ensures |s.queue| <= Sum(s.posts, InWindow) + Sum(s.workers, OnWay)
  {
    ReachedInv(workerCount, s);
  }

  // ----- the drain

  /** How often a worker will still ask the list once `shutdown` is set. */
  function Attempts(w: Worker): nat {
    match w
    case Starting => 1
    case Top => 1
    case Entered => 1
    case Testing(r) => if r then 2 else 1
    case Asleep(r) => if r then 2 else 1
    case Woken(r) => if r then 2 else 1
    case Ready(r) => if r then 2 else 1
    case Removed(r, t) => if r then 1 else 0
    case Calling(r, t) => if r then 1 else 0
    case Called(r, t) => if r then 1 else 0
    case Cleared(r, t) => if r then 1 else 0
    case Exited => 0
  }

  function Excess(tasks: nat, attempts: nat): nat {
    if tasks > attempts then tasks - attempts else 0
  }

  /** The tasks that the workers will not get to. */
  function Surplus(s: State): nat {
    Excess(|s.queue|, Sum(s.workers, Attempts))
  }

  lemma {:induction false} AttemptsWoken(workers: seq<Worker>, n: nat)
    requires n <= |workers|
    ensures SumTo(WakeAll(workers), Attempts, n) == SumTo(workers, Attempts, n)
  {
    if n > 0 {
      AttemptsWoken(workers, n - 1);
    }
  }

  lemma SurplusWorker(s: State, i: nat)
    requires s.shutdown && Orderly(s) && WorkerEnabled(s, i)
    ensures Surplus(StepWorker(s, i)) == Surplus(s)
  {
    SumUpdate(s.workers, Attempts, i, StepWorker(s, i).workers[i]);
  }

  lemma SurplusPoster(s: State, p: nat, woken: Option<nat>)
    requires PosterEnabled(s, p, woken)
    ensures var after := StepPoster(s, p, woken);
            Surplus(s) <= Surplus(after) <= Surplus(s) + |after.posted| - |s.posted|
  {
    if s.posts[p].poster.Released? && woken.Some? {
      SumUpdate(s.workers, Attempts, woken.value, StepPoster(s, p, woken).workers[woken.value]);
    }
  }

  /** Once `shutdown` is set, the surplus is conserved: it grows by additions alone. */
  lemma SurplusStep(s: State, a: Action)
    requires s.shutdown && Orderly(s) && Enabled(s, a) && a != DropTask
    ensures var after := Apply(s, a);
            Surplus(s) <= Surplus(after) <= Surplus(s) + |after.posted| - |s.posted| && after.shutdown
  {
    match a
    case WorkerStep(i) => SurplusWorker(s, i);
    case SpuriousWake(i) => SumUpdate(s.workers, Attempts, i, Apply(s, a).workers[i]);
    case NewPost(given) =>
    case PosterStep(p, woken) => SurplusPoster(s, p, woken);
    case CloserStep => AttemptsWoken(s.workers, |s.workers|);
    case DropTask =>
  }

  lemma {:induction false} SurplusRun(s: State, run: seq<Action>)
    requires s.shutdown && Inv(s) && Legal(s, run) && DropTask !in run
    ensures var end := Exec(s, run);
            Surplus(s) <= Surplus(end) <= Surplus(s) + |end.posted| - |s.posted|
    decreases |run|
  {
    if run != [] {
      SurplusStep(s, run[0]);
      InvStep(s, run[0]);
      SurplusRun(Apply(s, run[0]), run[1..]);
    }
  }

  /** Inside the condition variable, asleep or about to come back. */
  function Waiting(w: Worker): nat {
    if w.Asleep? || w.Woken? then 1 else 0
  }

  lemma {:induction false} AttemptsAtShutdown(s: State, n: nat)
    requires Exclusive(s) && Orderly(s) && s.closer.Locking? && n <= |s.workers|
    ensures SumTo(s.workers, Attempts, n) == n + SumTo(s.workers, Waiting, n)
    ensures SumTo(s.workers, Waiting, n) <= n
  {
    if n > 0 {
      AttemptsAtShutdown(s, n - 1);
      assert !InSection(s.workers[n - 1]) && !Latched(s.workers[n - 1]);
    }
  }

  /** The surplus right after `shutdown` was set. */
  lemma SurplusAtShutdown(s: State)
    requires Exclusive(s) && Orderly(s) && s.closer.Locking?
    ensures Surplus(StepCloser(s)) == Excess(|s.queue|, |s.workers| + Sum(s.workers, Waiting))
    ensures Sum(s.workers, Waiting) <= |s.workers|
  {
    AttemptsAtShutdown(s, |s.workers|);
  }

  /** The surplus when the shutdown has returned. */
  lemma SurplusAtEnd(s: State)
    requires Orderly(s) && s.closer.Closed?
    ensures Surplus(s) == |s.queue|
  {
    SumOfZeros(s.workers, Attempts, |s.workers|);
  }

  lemma DrainFrom(s: State, during: seq<Action>)
    requires Inv(s) && s.closer.Locking? && CloserEnabled(s)
    requires Legal(StepCloser(s), during) && DropTask !in during
    requires Exec(StepCloser(s), during).closer.Closed?
    ensures var end := Exec(StepCloser(s), during);
            var v := Sum(s.workers, Waiting);
            var least := Excess(|s.queue|, |s.workers| + v);
            v <= |s.workers| && least <= |end.queue| <= least + |end.posted| - |s.posted|
  {
    var started := StepCloser(s);
    InvStep(s, CloserStep);
    SurplusAtShutdown(s);
    SurplusRun(started, during);
    InvRun(started, during);
    SurplusAtEnd(Exec(started, during));
  }

  /** Exactly how many tasks a shutdown drops. With `n` tasks queued and `v` of `w` workers
      inside the condition variable when `shutdown` is set, and none added afterwards,
      max(0, n - w - v) tasks are left when the shutdown returns, on every interleaving; each
      task added afterwards can add one. */
  lemma ShutdownDrain(workerCount: nat, s: State, during: seq<Action>)
    requires Reached(workerCount, s) && s.closer.Locking? && CloserEnabled(s)
    requires Legal(StepCloser(s), during) && DropTask !in during
    requires Exec(StepCloser(s), during).closer.Closed?
    ensures var end := Exec(StepCloser(s), during);
            var v := Sum(s.workers, Waiting);
            var least := Excess(|s.queue|, workerCount + v);
            v <= workerCount && least <= |end.queue| <= least + |end.posted| - |s.posted|
  {
    ReachedInv(workerCount, s);
    DrainFrom(s, during);
  }

  /** The bounds that do not depend on where the workers were. */
  lemma ShutdownDrainBounds(workerCount: nat, s: State, during: seq<Action>)
    requires Reached(workerCount, s) && s.closer.Locking? && CloserEnabled(s)
    requires Legal(StepCloser(s), during) && DropTask !in during
    requires Exec(StepCloser(s), during).closer.Closed? && Exec(StepCloser(s), during).posted == s.posted
    ensures Excess(|s.queue|, 2 * workerCount) <= |Exec(StepCloser(s), during).queue| <= Excess(|s.queue|, workerCount)
  {
    ShutdownDrain(workerCount, s, during);
  }

  lemma {:induction false} OnWayBound(workers: seq<Worker>, n: nat)
    requires n <= |workers|
    ensures SumTo(workers, OnWay, n) <= n
  {
    if n > 0 {
      OnWayBound(workers, n - 1);
    }
  }

  /** If some worker sleeps when `shutdown` is set and every post has been notified, nothing
      is dropped. */
  lemma IdleShutdownDropsNothing(workerCount: nat, s: State, during: seq<Action>)
    requires Reached(workerCount, s) && s.closer.Locking? && CloserEnabled(s)
    requires SomeAsleep(s.workers) && Sum(s.posts, InWindow) == 0
    requires Legal(StepCloser(s), during) && DropTask !in during
    requires Exec(StepCloser(s), during).closer.Closed? && Exec(StepCloser(s), during).posted == s.posted
    ensures Exec(StepCloser(s), during).queue == []
  {
    ReachedInv(workerCount, s);
    OnWayBound(s.workers, |s.workers|);
    DrainFrom(s, during);
  }

  // ----- the shutdown ends

  /** Steps that a worker can still take once `shutdown` is set. */
  function WorkerRank(w: Worker): nat {
    match w
    case Asleep(r) => 17
    case Woken(r) => 16
    case Testing(r) => if r then 15 else 6
    case Ready(r) => if r then 14 else 5
    case Removed(r, t) => if r then 13 else 4
    case Calling(r, t) => if r then 12 else 3
    case Called(r, t) => if r then 11 else 2
    case Cleared(r, t) => if r then 10 else 1
    case Starting => 9
    case Top => 8
    case Entered => 7
    case Exited => 0
  }

  function PosterRank(p: Post): nat {
    match p.poster
    case Allocated => 7
    case Entering => 6
    case Added => 4
    case Left => 3
    case Released => 2
    case Notified => 0
  }

  function CloserRank(c: Closer, w: nat): int {
    match c
    case Open => 2 * w + 6
    case Locking => 2 * w + 5
    case Set => 2 * w + 4
    case Unlocked => 2 * w + 3
    case Joining(k) => 2 * w + 2 - k
    case Releasing(k) => w + 1 - k
    case Closed => 0
  }

  function Measure(s: State): int {
    Sum(s.workers, WorkerRank) + Sum(s.posts, PosterRank) + CloserRank(s.closer, |s.workers|) + |s.queue|
  }

  lemma MeasureTaking(s: State, i: nat)
    requires TasksOk(s) && WorkerEnabled(s, i) && s.workers[i].Ready? && s.queue != []
    ensures Measure(StepWorker(s, i)) < Measure(s)
  {
    var after := StepWorker(s, i);
    SumUpdate(s.workers, WorkerRank, i, after.workers[i]);
    SumUpdate(s.posts, PosterRank, s.queue[0], after.posts[s.queue[0]]);
  }

  lemma MeasureBusy(s: State, i: nat)
    requires WorkerEnabled(s, i) && Busy(s.workers[i])
    ensures Measure(StepWorker(s, i)) < Measure(s)
  {
    var after, t := StepWorker(s, i), s.workers[i].current;
    SumUpdate(s.workers, WorkerRank, i, after.workers[i]);
    SumUpdate(s.posts, PosterRank, t, after.posts[t]);
  }

  lemma MeasureWorker(s: State, i: nat)
    requires s.shutdown && TasksOk(s) && WorkerEnabled(s, i)
    ensures Measure(StepWorker(s, i)) < Measure(s)
  {
    if s.workers[i].Ready? && s.queue != [] {
      MeasureTaking(s, i);
    } else if Busy(s.workers[i]) {
      MeasureBusy(s, i);
    } else {
      SumUpdate(s.workers, WorkerRank, i, StepWorker(s, i).workers[i]);
    }
  }

  lemma MeasurePoster(s: State, p: nat, woken: Option<nat>)
    requires PosterEnabled(s, p, woken)
    ensures Measure(StepPoster(s, p, woken)) < Measure(s)
  {
    var after := StepPoster(s, p, woken);
    SumUpdate(s.posts, PosterRank, p, after.posts[p]);
    if s.posts[p].poster.Released? && woken.Some? {
      SumUpdate(s.workers, WorkerRank, woken.value, after.workers[woken.value]);
    }
  }

  lemma MeasureCloser(s: State)
    requires Orderly(s) && JoinedOnce(s) && CloserEnabled(s)
    ensures Measure(StepCloser(s)) < Measure(s)
  {
    if s.closer.Unlocked? {
      SumPointwise(StepCloser(s).workers, WorkerRank, s.workers, WorkerRank, |s.workers|);
    }
  }

  lemma MeasureDrop(s: State)
    requires DropEnabled(s)
    ensures Measure(Drop(s)) < Measure(s)
  {
    SumUpdate(s.posts, PosterRank, s.queue[0], Drop(s).posts[s.queue[0]]);
  }

  /** Once `shutdown` is set, every step but the start of another post brings the end
      nearer. */
  lemma MeasureStep(s: State, a: Action)
    requires s.shutdown && Orderly(s) && JoinedOnce(s) && TasksOk(s) && Enabled(s, a) && !a.NewPost?
    ensures Measure(Apply(s, a)) < Measure(s)
  {
    match a
    case WorkerStep(i) => MeasureWorker(s, i);
    case SpuriousWake(i) => SumUpdate(s.workers, WorkerRank, i, Apply(s, a).workers[i]);
    case PosterStep(p, woken) => MeasurePoster(s, p, woken);
    case CloserStep => MeasureCloser(s);
    case DropTask => MeasureDrop(s);
  }

  lemma ShutdownStays(s: State, a: Action)
    requires s.shutdown && Enabled(s, a)
    ensures Apply(s, a).shutdown
  {}

  function NewPosts(run: seq<Action>): nat {
    if run == [] then 0 else (if run[0].NewPost? then 1 else 0) + NewPosts(run[1..])
  }

  lemma {:induction false} RunIsBounded(s: State, run: seq<Action>)
    requires s.shutdown && Inv(s) && Legal(s, run)
    ensures |run| <= Measure(s) + 8 * NewPosts(run)
    decreases |run|
  {
    if run != [] {
      if run[0].NewPost? {
        SumAppend(s.posts, PosterRank, Apply(s, run[0]).posts[|s.posts|]);
      } else {
        MeasureStep(s, run[0]);
      }
      ShutdownStays(s, run[0]);
      InvStep(s, run[0]);
      RunIsBounded(Apply(s, run[0]), run[1..]);
    }
  }

  /** No run goes on for ever after `shutdown` is set: its length is bounded by the state it
      starts from and the number of posts that start on the way. */
  lemma ShutdownTerminates(workerCount: nat, s: State, run: seq<Action>)
    requires Reached(workerCount, s) && s.shutdown && Legal(s, run)
    ensures |run| <= Measure(s) + 8 * NewPosts(run)
  {
    ReachedInv(workerCount, s);
    RunIsBounded(s, run);
  }

  lemma StaysAwake(s: State, a: Action, i: nat)
    requires s.shutdown && Enabled(s, a) && i < |s.workers|
    ensures i < |Apply(s, a).workers| && (Apply(s, a).workers[i].Asleep? ==> s.workers[i].Asleep?)
  {
    match a
    case WorkerStep(j) => assert j != i ==> StepWorker(s, j).workers[i] == s.workers[i];
    case _ =>
  }

  /** Once `shutdown` is set, no worker falls asleep any more, and after the broadcast none
      is asleep. */
  lemma NobodySleepsAgain(workerCount: nat, s: State, a: Action, i: nat)
    requires Reached(workerCount, s) && s.shutdown && Enabled(s, a) && i < workerCount
    ensures i < |s.workers| && i < |Apply(s, a).workers|
    ensures Apply(s, a).workers[i].Asleep? ==> s.workers[i].Asleep?
    ensures Broadcast(s.closer) ==> !s.workers[i].Asleep?
  {
    ReachedInv(workerCount, s);
    StaysAwake(s, a, i);
  }

  predicate OwnStep(a: Action) {
    a.WorkerStep? || a.PosterStep? || a.CloserStep?
  }

  /** The thread that holds the mutex can go on. */
  lemma HolderCanMove(s: State) returns (a: Action)
    requires Inv(s) && s.holder.Some?
    ensures OwnStep(a) && Enabled(s, a)
  {
    match s.holder.value
    case WorkerThread(i) =>
      a := WorkerStep(i);
    case PosterThread(p) =>
      a := PosterStep(p, None);
    case CloserThread =>
      a := CloserStep;
  }

  /** A worker that neither sleeps nor has ended can go on when the mutex is free. */
  lemma WorkerCanMove(s: State, i: nat)
    requires Inv(s) && s.holder == None && i < |s.workers|
    requires !s.workers[i].Asleep? && !s.workers[i].Exited?
    ensures WorkerEnabled(s, i)
  {}

  /** A shutdown that has begun and not returned can always go on: there is no deadlock. */
  lemma ShutdownCanMove(workerCount: nat, s: State) returns (a: Action)
    requires Reached(workerCount, s) && !s.closer.Open? && !s.closer.Closed?
    ensures OwnStep(a) && Enabled(s, a)
  {
    ReachedInv(workerCount, s);
    if s.holder.Some? {
      a := HolderCanMove(s);
    } else if s.closer.Joining? && s.closer.next < |s.workers| && !s.workers[s.closer.next].Exited? {
      WorkerCanMove(s, s.closer.next);
      a := WorkerStep(s.closer.next);
    } else {
      a := CloserStep;
    }
  }

  /** When nothing can move before a shutdown, nothing is left to do: all workers sleep, the
      queue is empty, every post has been notified and every task was executed once. */
  lemma QuiescentMeansDone(workerCount: nat, s: State)
    requires Reached(workerCount, s) && s.closer.Open?
    requires forall a :: OwnStep(a) && !a.CloserStep? ==> !Enabled(s, a)
    ensures forall i :: 0 <= i < |s.workers| ==> s.workers[i].Asleep?
    ensures forall p :: 0 <= p < |s.posts| ==> s.posts[p].poster.Notified?
    ensures workerCount > 0 ==> s.queue == []
    ensures workerCount > 0 ==>
              forall p :: 0 <= p < |s.posts| ==> s.posts[p].place.Finished? && s.posts[p].runs == 1
  {
    ReachedInv(workerCount, s);
    if s.holder.Some? {
      var a := HolderCanMove(s);
      assert false;
    }
    forall i | 0 <= i < |s.workers|
      ensures s.workers[i].Asleep?
    {
      if !s.workers[i].Asleep? {
        WorkerCanMove(s, i);
        assert Enabled(s, WorkerStep(i));
      }
    }
    forall p | 0 <= p < |s.posts|
      ensures s.posts[p].poster.Notified?
    {
      if !s.posts[p].poster.Notified? {
        var woken := if |s.workers| > 0 then Some(0) else None;
        assert Enabled(s, PosterStep(p, woken));
      }
    }
    if |s.workers| > 0 {
      assert s.workers[0].Asleep?;
      SumOfZeros(s.workers, OnWay, |s.workers|);
      SumOfZeros(s.posts, InWindow, |s.posts|);
      forall p | 0 <= p < |s.posts|
        ensures s.posts[p].place.Finished? && s.posts[p].runs == 1
      {
        AloneIsFinished(s, p);
      }
    }
  }

  /** A posted task that is in no queue, with no worker and not dropped has been executed. */
  lemma AloneIsFinished(s: State, p: nat)
    requires Inv(s) && !s.shutdown && s.queue == [] && p < |s.posts| && s.posts[p].poster.Notified?
    requires forall i :: 0 <= i < |s.workers| ==> s.workers[i].Asleep?
    ensures s.posts[p].place.Finished? && s.posts[p].runs == 1
  {
    var post := s.posts[p];
    assert PostOk(post, ProgressOf(s, post));
    assert !post.place.Held?;
  }

  // ----- while the pool is open

  /** Steps that a worker can take before it sleeps, when it is woken no more; a task in the
      queue is worth eight. */
  function OpenRank(w: Worker): nat {
    match w
    case Removed(r, t) => 8
    case Calling(r, t) => 7
    case Called(r, t) => 6
    case Cleared(r, t) => 5
    case Starting => 5
    case Top => 4
    case Entered => 3
    case Woken(r) => 3
    case Testing(r) => 2
    case Ready(r) => 1
    case Asleep(r) => 0
    case Exited => 0
  }

  function OpenPosterRank(p: Post): nat {
    match p.poster
    case Allocated => 16
    case Entering => 15
    case Added => 6
    case Left => 5
    case Released => 4
    case Notified => 0
  }

  function OpenMeasure(s: State): nat {
    Sum(s.workers, OpenRank) + Sum(s.posts, OpenPosterRank) + 8 * |s.queue|
  }

  lemma OpenTaking(s: State, i: nat)
    requires TasksOk(s) && WorkerEnabled(s, i) && s.workers[i].Ready? && s.queue != []
    ensures OpenMeasure(StepWorker(s, i)) < OpenMeasure(s)
  {
    var after := StepWorker(s, i);
    SumUpdate(s.workers, OpenRank, i, after.workers[i]);
    SumUpdate(s.posts, OpenPosterRank, s.queue[0], after.posts[s.queue[0]]);
  }

  lemma OpenBusy(s: State, i: nat)
    requires WorkerEnabled(s, i) && Busy(s.workers[i])
    ensures OpenMeasure(StepWorker(s, i)) < OpenMeasure(s)
  {
    var after, t := StepWorker(s, i), s.workers[i].current;
    SumUpdate(s.workers, OpenRank, i, after.workers[i]);
    SumUpdate(s.posts, OpenPosterRank, t, after.posts[t]);
  }

  lemma OpenWorker(s: State, i: nat)
    requires !s.shutdown && Served(s) && TasksOk(s) && WorkerEnabled(s, i)
    ensures OpenMeasure(StepWorker(s, i)) < OpenMeasure(s)
  {
    if s.workers[i].Ready? {
      OpenTaking(s, i);
    } else if Busy(s.workers[i]) {
      OpenBusy(s, i);
    } else {
      SumUpdate(s.workers, OpenRank, i, StepWorker(s, i).workers[i]);
    }
  }

  lemma OpenPoster(s: State, p: nat, woken: Option<nat>)
    requires PosterEnabled(s, p, woken)
    ensures OpenMeasure(StepPoster(s, p, woken)) < OpenMeasure(s)
  {
    var after := StepPoster(s, p, woken);
    SumUpdate(s.posts, OpenPosterRank, p, after.posts[p]);
    if s.posts[p].poster.Released? && woken.Some? {
      SumUpdate(s.workers, OpenRank, woken.value, after.workers[woken.value]);
    }
  }

  function SpuriousWakes(run: seq<Action>): nat {
    if run == [] then 0 else (if run[0].SpuriousWake? then 1 else 0) + SpuriousWakes(run[1..])
  }

  lemma OpenStep(s: State, a: Action)
    requires Inv(s) && s.closer.Open? && Enabled(s, a) && !a.CloserStep?
    ensures Apply(s, a).closer.Open?
    ensures OpenMeasure(Apply(s, a)) < OpenMeasure(s) + (if a.NewPost? then 17 else if a.SpuriousWake? then 4 else 0)
  {
    match a
    case WorkerStep(i) => OpenWorker(s, i);
    case SpuriousWake(i) => SumUpdate(s.workers, OpenRank, i, Apply(s, a).workers[i]);
    case NewPost(given) => SumAppend(s.posts, OpenPosterRank, Apply(s, a).posts[|s.posts|]);
    case PosterStep(p, woken) => OpenPoster(s, p, woken);
  }

  lemma {:induction false} OpenRunIsBounded(s: State, run: seq<Action>)
    requires Inv(s) && s.closer.Open? && Legal(s, run) && CloserStep !in run
    ensures |run| <= OpenMeasure(s) + 17 * NewPosts(run) + 4 * SpuriousWakes(run)
    decreases |run|
  {
    if run != [] {
      OpenStep(s, run[0]);
      InvStep(s, run[0]);
      OpenRunIsBounded(Apply(s, run[0]), run[1..]);
    }
  }

  /** An open pool comes to rest: the length of a run is bounded by the state it starts from
      and the posts and spurious wake-ups on the way. What it has come to by then is said by
      `QuiescentMeansDone`. */
  lemma OpenPoolComesToRest(workerCount: nat, s: State, run: seq<Action>)
    requires Reached(workerCount, s) && s.closer.Open? && Legal(s, run) && CloserStep !in run
    ensures |run| <= OpenMeasure(s) + 17 * NewPosts(run) + 4 * SpuriousWakes(run)
  {
    ReachedInv(workerCount, s);
    OpenRunIsBounded(s, run);
  }

  // ----- what a run amounts to

  /** Order and executions: on every interleaving, the tasks leave the list in the order in
      which they entered it, each entered once, and none is executed twice. */
  lemma FirstInFirstOut(workerCount: nat, s: State)
    requires Reached(workerCount, s)
    ensures && s.posted == s.taken + s.queue && Distinct(s.posted)
            && forall t :: 0 <= t < |s.posts| ==> s.posts[t].runs <= 1
  {
    ReachedInv(workerCount, s);
  }

  /** When the shutdown has returned, every task that was added has been executed once or is
      still queued or was dropped by the collection, each thread was joined once, and the
      thread objects are gone. */
  lemma AfterShutdown(workerCount: nat, s: State)
    requires Reached(workerCount, s) && s.closer.Closed?
    ensures && |s.workers| == |s.threads|
            && (forall x :: 0 <= x < |s.posted| ==>
                  var t := s.posted[x];
                  && t < |s.posts|
                  && (if s.posts[t].place.Finished? then s.posts[t].runs == 1
                      else s.posts[t].runs == 0 && (t in s.queue || s.posts[t].warned)))
            && (forall i :: 0 <= i < |s.threads| ==>
                  s.workers[i].Exited? && s.threads[i].joins == 1 && s.threads[i].freed)
  {
    ReachedInv(workerCount, s);
    forall t | 0 <= t < |s.posts|
      ensures !s.posts[t].place.Held?
    {}
  }

  // ----- the posts of a run

  /** The arguments of the posts of a run, in the order of their allocation. */
  function Posted(run: seq<Action>): seq<bool> {
    if run == [] then [] else (if run[0].NewPost? then [run[0].given] else []) + Posted(run[1..])
  }

  /** What the tasks record of those arguments. */
  function Givens(s: State): (flags: seq<bool>)
    ensures |flags| == |s.posts|
  {
    seq(|s.posts|, t requires 0 <= t < |s.posts| => s.posts[t].given)
  }

  lemma GivensStep(s: State, a: Action)
    requires Enabled(s, a)
    ensures Givens(Apply(s, a)) == Givens(s) + (if a.NewPost? then [a.given] else [])
  {
    match a
    case WorkerStep(i) => GivensWorker(s, i);
    case PosterStep(p, woken) => assert Givens(Apply(s, a)) == Givens(s);
    case DropTask => assert Givens(Apply(s, a)) == Givens(s);
    case _ =>
  }

  lemma GivensWorker(s: State, i: nat)
    requires WorkerEnabled(s, i)
    ensures Givens(StepWorker(s, i)) == Givens(s)
  {}

  lemma {:induction false} GivensRun(s: State, run: seq<Action>)
    requires Legal(s, run)
    ensures Givens(Exec(s, run)) == Givens(s) + Posted(run)
    decreases |run|
  {
    if run != [] {
      GivensStep(s, run[0]);
      GivensRun(Apply(s, run[0]), run[1..]);
      Regroup(Givens(s), if run[0].NewPost? then [run[0].given] else [], Posted(run[1..]));
    }
  }

  lemma Regroup<T>(a: seq<T>, b: seq<T>, c: seq<T>)
    ensures a + b + c == a + (b + c)
  {}

  /** One task for each post of the run, and each records whether its post passed data. */
  lemma PostsOfRun(workerCount: nat, run: seq<Action>)
    requires Legal(Init(workerCount), run)
    ensures var s := Exec(Init(workerCount), run);
            |s.posts| == |Posted(run)| && forall t :: 0 <= t < |s.posts| ==> s.posts[t].given == Posted(run)[t]
  {
    GivensRun(Init(workerCount), run);
    assert Givens(Exec(Init(workerCount), run)) == Posted(run);
    assert forall t :: 0 <= t < |Posted(run)| ==> Givens(Exec(Init(workerCount), run))[t] == Posted(run)[t];
  }

  /** A worker about to call a task finds its procedure, and user data if and only if the post
      passed some; the pool still holds its reference on them. */
  lemma CalledWithItsData(workerCount: nat, run: seq<Action>, i: nat)
    requires Legal(Init(workerCount), run) && i < |Exec(Init(workerCount), run).workers|
    requires Exec(Init(workerCount), run).workers[i].Calling?
    ensures var s := Exec(Init(workerCount), run);
            var t := s.workers[i].current;
            && t < |s.posts| == |Posted(run)|
            && s.posts[t].proc && s.posts[t].data == Posted(run)[t]
            && s.posts[t].dataRetains == (if Posted(run)[t] then 1 else 0) && s.posts[t].dataReleases == 0
  {
    var s := Exec(Init(workerCount), run);
    ReachedInv(workerCount, s);
    PostsOfRun(workerCount, run);
    var t := s.workers[i].current;
    assert Current(s.workers[i]) == Some(t);
    assert PostOk(s.posts[t], ProgressOf(s, s.posts[t]));
  }

  /** References: on every interleaving, a task object is deinitialised once, namely when its
      post has let go of it and it is finished or dropped. By then the pool has retained the
      user data once and released them once if the post passed some, and never otherwise, and
      the warning about a dropped task was given exactly if the task never ran. */
  lemma ReferencesBalance(workerCount: nat, run: seq<Action>, t: Task)
    requires Legal(Init(workerCount), run) && t < |Posted(run)|
    ensures var s := Exec(Init(workerCount), run);
            && t < |s.posts|
            && var p := s.posts[t];
               && p.deinits <= 1 && p.dataReleases <= p.dataRetains
               && p.dataRetains == (if Posted(run)[t] then 1 else 0)
               && (p.deinits == 1 <==> p.refs == 0)
               && (p.deinits == 1 <==> !PosterHolds(p.poster) && (p.place.Finished? || p.place.Dropped?))
               && (p.deinits == 1 ==> p.dataReleases == p.dataRetains)
               && (p.deinits == 1 ==> (p.warned <==> p.runs == 0))
               && (p.deinits == 0 && p.runs == 0 ==> p.dataReleases == 0)
  {
    var s := Exec(Init(workerCount), run);
    ReachedInv(workerCount, s);
    PostsOfRun(workerCount, run);
    assert PostOk(s.posts[t], ProgressOf(s, s.posts[t]));
  }
}
