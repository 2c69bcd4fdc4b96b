/** What becomes of each task of the worker pool, whenever it is posted. */
module PoolFate {
  import opened References
  import opened Sums
  import opened PoolModel
  import opened PoolInvariants
  import opened PoolTasks
  import opened PoolProgress

  /** How far into the order of additions the workers will get once `shutdown` is set, if the
      list is long enough. */
  function Reach(s: State): nat {
    |s.taken| + Sum(s.workers, Attempts)
  }

  // ----- tasks that have left the list

  /** A task that a worker took is never dropped, and a dropped task stays dropped. */
  lemma PlaceStep(s: State, a: Action, t: Task)
    requires Fifo(s) && Assigned(s) && Enabled(s, a) && t < |s.posts|
    ensures t < |Apply(s, a).posts|
    ensures var before, after := s.posts[t].place, Apply(s, a).posts[t].place;
            && (before.Held? || before.Finished? ==> after.Held? || after.Finished?)
            && (before.Dropped? ==> after.Dropped?)
  {
    match a
    case WorkerStep(i) => PlaceWorker(s, i, t);
    case PosterStep(p, woken) => PlacePoster(s, p, woken, t);
    case DropTask => PlaceDrop(s, t);
    case _ =>
  }

  lemma PlacePoster(s: State, p: nat, woken: Option<nat>, t: Task)
    requires Fifo(s) && PosterEnabled(s, p, woken) && t < |s.posts|
    ensures var before, after := s.posts[t].place, StepPoster(s, p, woken).posts[t].place;
            after == before || (before.Unposted? && after.Queued?)
  {}

  lemma PlaceDrop(s: State, t: Task)
    requires Fifo(s) && DropEnabled(s) && t < |s.posts|
    ensures Drop(s).posts[t].place == if t == s.queue[0] then Dropped else s.posts[t].place
    ensures s.posts[s.queue[0]].place.Queued?
  {}

  lemma PlaceWorker(s: State, i: nat, t: Task)
    requires Fifo(s) && Assigned(s) && WorkerEnabled(s, i) && t < |s.posts|
    ensures var before, after := s.posts[t].place, StepWorker(s, i).posts[t].place;
            && (before.Held? || before.Finished? ==> after.Held? || after.Finished?)
            && (before.Dropped? ==> after.Dropped?)
  {
    var w := s.workers[i];
    if w.Ready? && s.queue != [] {
      assert s.posts[s.queue[0]].place.Queued?;
    } else if w.Cleared? {
      assert Current(w) == Some(w.current);
    }
  }

  lemma {:induction false} PlaceRun(s: State, run: seq<Action>, t: Task)
    requires Inv(s) && Legal(s, run) && t < |s.posts|
    ensures t < |Exec(s, run).posts|
    ensures var before, after := s.posts[t].place, Exec(s, run).posts[t].place;
            && (before.Held? || before.Finished? ==> after.Held? || after.Finished?)
            && (before.Dropped? ==> after.Dropped?)
    decreases |run|
  {
    if run != [] {
      PlaceStep(s, run[0], t);
      InvStep(s, run[0]);
      PlaceRun(Apply(s, run[0]), run[1..], t);
    }
  }

  /** When the shutdown has returned, exactly the tasks that workers took have run. */
  lemma RunsAtEnd(s: State, t: Task)
    requires Inv(s) && s.closer.Closed? && t < |s.posts|
    ensures s.posts[t].runs == if s.posts[t].place.Held? || s.posts[t].place.Finished? then 1 else 0
  {
    assert PostOk(s.posts[t], ProgressOf(s, s.posts[t]));
    assert !s.posts[t].place.Held?;
  }

  // ----- one step of a task in the list

  /** Entry `y` of the order of additions, still in the list, stays in or out of reach, or
      leaves the list: to a worker if it was in reach, dropped if not. */
  ghost predicate FateKept(s: State, y: nat, after: State)
    requires y < |s.posted|
  {
    && y < |after.posted| && after.posted[y] == s.posted[y] && after.posted[y] < |after.posts|
    && if |after.taken| <= y then y < Reach(after) <==> y < Reach(s)
       else if y < Reach(s) then after.posts[s.posted[y]].place.Held?
       else after.posts[s.posted[y]].place.Dropped?
  }

  lemma FateTaking(s: State, i: nat, y: nat)
    requires s.shutdown && Inv(s) && WorkerEnabled(s, i) && |s.taken| <= y < |s.posted|
    requires s.workers[i].Ready? && s.queue != []
    ensures FateKept(s, y, StepWorker(s, i))
  {
    var after := StepWorker(s, i);
    SumUpdate(s.workers, Attempts, i, after.workers[i]);
    assert s.posted[|s.taken|] == s.queue[0];
  }

  lemma FateWorker(s: State, i: nat, y: nat)
    requires s.shutdown && Orderly(s) && Fifo(s) && WorkerEnabled(s, i) && |s.taken| <= y < |s.posted|
    requires s.workers[i].Ready? ==> s.queue == []
    ensures FateKept(s, y, StepWorker(s, i))
  {
    SumUpdate(s.workers, Attempts, i, StepWorker(s, i).workers[i]);
  }

  lemma FatePoster(s: State, p: nat, woken: Option<nat>, y: nat)
    requires Inv(s) && PosterEnabled(s, p, woken) && |s.taken| <= y < |s.posted|
    ensures FateKept(s, y, StepPoster(s, p, woken))
  {
    if s.posts[p].poster.Released? && woken.Some? {
      SumUpdate(s.workers, Attempts, woken.value, StepPoster(s, p, woken).workers[woken.value]);
    }
  }

  lemma FateDrop(s: State, y: nat)
    requires Inv(s) && DropEnabled(s) && |s.taken| <= y < |s.posted|
    ensures FateKept(s, y, Drop(s))
  {
    SumOfZeros(s.workers, Attempts, |s.workers|);
    assert s.posted[|s.taken|] == s.queue[0];
  }

  lemma FateStep(s: State, a: Action, y: nat)
    requires s.shutdown && Inv(s) && Enabled(s, a) && |s.taken| <= y < |s.posted|
    ensures FateKept(s, y, Apply(s, a))
  {
    match a
    case WorkerStep(i) =>
      if s.workers[i].Ready? && s.queue != [] {
        FateTaking(s, i, y);
      } else {
        FateWorker(s, i, y);
      }
    case SpuriousWake(i) => SumUpdate(s.workers, Attempts, i, Apply(s, a).workers[i]);
    case NewPost(given) =>
    case PosterStep(p, woken) => FatePoster(s, p, woken, y);
    case CloserStep => AttemptsWoken(s.workers, |s.workers|);
    case DropTask => FateDrop(s, y);
  }

  // ----- the fate of a task

  lemma {:induction false} FateRun(s: State, run: seq<Action>, y: nat)
    requires s.shutdown && Inv(s) && Legal(s, run) && |s.taken| <= y < |s.posted|
    requires Exec(s, run).closer.Closed?
    ensures s.posted[y] < |Exec(s, run).posts|
    ensures Exec(s, run).posts[s.posted[y]].runs == if y < Reach(s) then 1 else 0
    decreases |run|
  {
    var t := s.posted[y];
    if run == [] {
      SumOfZeros(s.workers, Attempts, |s.workers|);
      assert t == s.queue[y - |s.taken|];
      RunsAtEnd(s, t);
    } else {
      var after := Apply(s, run[0]);
      FateStep(s, run[0], y);
      InvStep(s, run[0]);
      ShutdownStays(s, run[0]);
      if |after.taken| <= y {
        FateRun(after, run[1..], y);
      } else {
        PlaceRun(after, run[1..], t);
        InvRun(after, run[1..]);
        RunsAtEnd(Exec(s, run), t);
      }
    }
  }

  /** The fate of a task, whatever is added meanwhile: in any state with `shutdown` set, the
      task at position `x` of the list has been executed when the shutdown has returned, or
      returned long ago, if and only if the workers have more than `x` attempts left. */
  lemma TaskFate(workerCount: nat, s: State, run: seq<Action>, x: nat)
    requires Reached(workerCount, s) && s.shutdown && x < |s.queue|
    requires Legal(s, run) && Exec(s, run).closer.Closed?
    ensures s.queue[x] < |Exec(s, run).posts|
    ensures Exec(s, run).posts[s.queue[x]].runs == if x < Sum(s.workers, Attempts) then 1 else 0
  {
    ReachedInv(workerCount, s);
    assert s.posted[|s.taken| + x] == s.queue[x];
    FateRun(s, run, |s.taken| + x);
  }

  /** A task added after the flag was set, even after the shutdown has returned: it is
      executed if and only if the list is then shorter than the attempts that are left. */
  lemma LatePostFate(workerCount: nat, s: State, p: nat, run: seq<Action>)
    requires Reached(workerCount, s) && s.shutdown && PosterEnabled(s, p, None) && s.posts[p].poster.Entering?
    requires Legal(StepPoster(s, p, None), run) && Exec(StepPoster(s, p, None), run).closer.Closed?
    ensures p < |Exec(StepPoster(s, p, None), run).posts|
    ensures Exec(StepPoster(s, p, None), run).posts[p].runs == if |s.queue| < Sum(s.workers, Attempts) then 1 else 0
  {
    var after := StepPoster(s, p, None);
    ReachedInv(workerCount, s);
    InvStep(s, PosterStep(p, None));
    assert after.posted[|s.posted|] == p;
    FateRun(after, run, |s.posted|);
  }

  /** A task added before the flag is set has been executed when the shutdown has returned,
      whatever is added meanwhile, if and only if it is among the first `w + v` in the list at
      the flag, or was taken from it before: `y` counts in the order of additions. */
  lemma FateAtShutdown(workerCount: nat, s: State, during: seq<Action>, y: nat)
    requires Reached(workerCount, s) && s.closer.Locking? && CloserEnabled(s) && y < |s.posted|
    requires Legal(StepCloser(s), during) && Exec(StepCloser(s), during).closer.Closed?
    ensures s.posted[y] < |Exec(StepCloser(s), during).posts|
    ensures Exec(StepCloser(s), during).posts[s.posted[y]].runs ==
            if y < |s.taken| + workerCount + Sum(s.workers, Waiting) then 1 else 0
  {
    ReachedInv(workerCount, s);
    InvStep(s, CloserStep);
    AttemptsAtShutdown(s, |s.workers|);
    var started := StepCloser(s);
    if y < |s.taken| {
      TakenIsHeld(s, y);
      PlaceRun(started, during, s.posted[y]);
      InvRun(started, during);
      RunsAtEnd(Exec(started, during), s.posted[y]);
    } else {
      FateRun(started, during, y);
    }
  }

  /** Until the flag is set, a task that has left the list went to a worker. */
  lemma TakenIsHeld(s: State, y: nat)
    requires Inv(s) && !s.shutdown && y < |s.taken|
    ensures var t := s.posted[y]; t < |s.posts| && (s.posts[t].place.Held? || s.posts[t].place.Finished?)
  {
    var t := s.posted[y];
    forall x | 0 <= x < |s.queue|
      ensures s.queue[x] != t
    {
      assert s.posted[|s.taken| + x] == s.queue[x];
    }
  }

  /** So all tasks added before the flag are executed if and only if the list is then no
      longer than `w + v`. If nothing is added afterwards, this is also when the list ends
      empty. */
  lemma ShutdownDropsNothingIff(workerCount: nat, s: State, during: seq<Action>)
    requires Reached(workerCount, s) && s.closer.Locking? && CloserEnabled(s)
    requires Legal(StepCloser(s), during) && Exec(StepCloser(s), during).closer.Closed?
    ensures (forall t :: t in s.posted ==>
               t < |Exec(StepCloser(s), during).posts| && Exec(StepCloser(s), during).posts[t].runs == 1)
            <==> |s.queue| <= workerCount + Sum(s.workers, Waiting)
    ensures DropTask !in during && Exec(StepCloser(s), during).posted == s.posted ==>
              (Exec(StepCloser(s), during).queue == [] <==> |s.queue| <= workerCount + Sum(s.workers, Waiting))
  {
    var end := Exec(StepCloser(s), during);
    ReachedInv(workerCount, s);
    forall t | t in s.posted
      ensures t < |end.posts|
      ensures |s.queue| <= workerCount + Sum(s.workers, Waiting) ==> end.posts[t].runs == 1
    {
      var y :| 0 <= y < |s.posted| && s.posted[y] == t;
      FateAtShutdown(workerCount, s, during, y);
    }
    if |s.queue| > workerCount + Sum(s.workers, Waiting) {
      FateAtShutdown(workerCount, s, during, |s.posted| - 1);
      assert s.posted[|s.posted| - 1] in s.posted;
    }
    if DropTask !in during {
      ShutdownDrain(workerCount, s, during);
    }
  }
}
