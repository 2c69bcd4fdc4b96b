/** Two runs in which a posted task is never executed: two posts, one worker and a shutdown
    before the worker has come to the list; and a post after the shutdown. */
module PoolExample {
  import opened References
  import opened Sums
  import opened PoolModel
  import opened PoolProgress
  import opened PoolFate

  lemma {:induction false} ExecMore(s: State, run: seq<Action>, a: Action)
    requires Legal(s, run) && Enabled(Exec(s, run), a)
    ensures Legal(s, run + [a]) && Exec(s, run + [a]) == Apply(Exec(s, run), a)
    decreases |run|
  {
    if run == [] {
      assert run + [a] == [a] && [a][1..] == [];
    } else {
      assert (run + [a])[1..] == run[1..] + [a];
      ExecMore(Apply(s, run[0]), run[1..], a);
    }
  }

  lemma Next(workerCount: nat, s: State, a: Action) returns (after: State)
    requires Reached(workerCount, s) && Enabled(s, a)
    ensures Reached(workerCount, after) && after == Apply(s, a)
  {
    var run :| Legal(Init(workerCount), run) && s == Exec(Init(workerCount), run);
    ExecMore(Init(workerCount), run, a);
    after := Apply(s, a);
  }

  /** The state `s` with a post that has come to `poster`. */
  function WithPost(s: State, poster: Poster, place: Place, refs: nat): State {
    s.(posts := s.posts + [Post(poster, place, refs, true, false, false, 0, 0, 0, 0, false)])
  }

  function WithTask(s: State): State {
    s.(queue := s.queue + [|s.posts|], posted := s.posted + [|s.posts|])
  }

  /** A post adds its task to the list. */
  lemma PostAdds(s: State) returns (after: State)
    requires Reached(1, s) && s.holder == None
    ensures Reached(1, after)
    ensures after == WithPost(WithTask(s), Added, Queued, 2).(holder := Some(PosterThread(|s.posts|)))
  {
    var p := |s.posts|;
    after := Next(1, s, NewPost(false));
    assert after == WithPost(s, Allocated, Unposted, 1);
    after := Next(1, after, PosterStep(p, None));
    assert after == WithPost(s, Entering, Unposted, 1).(holder := Some(PosterThread(p)));
    after := Next(1, after, PosterStep(p, None));
  }

  /** The post leaves the section and lets go of its task. */
  lemma PostReleases(s: State) returns (after: State)
    requires Reached(1, s) && s.holder == None
    ensures Reached(1, after) && after == WithPost(WithTask(s), Released, Queued, 1)
  {
    var p := |s.posts|;
    after := PostAdds(s);
    after := Next(1, after, PosterStep(p, None));
    assert after == WithPost(WithTask(s), Left, Queued, 2);
    after := Next(1, after, PosterStep(p, None));
  }

  /** A post from its allocation to its return, while the only worker does not sleep. */
  lemma PostAlone(s: State) returns (after: State)
    requires Reached(1, s) && s.holder == None && |s.workers| == 1 && !s.workers[0].Asleep?
    ensures Reached(1, after) && after == WithPost(WithTask(s), Notified, Queued, 1)
  {
    after := PostReleases(s);
    after := Next(1, after, PosterStep(|s.posts|, None));
  }

  /** Two tasks are queued when the shutdown takes the lock: the drain formula gives one. */
  lemma OneTaskTooMany() returns (s: State)
    ensures Reached(1, s) && s.closer.Locking? && CloserEnabled(s)
    ensures |s.queue| == 2 && Sum(s.workers, Waiting) == 0
    ensures Excess(|s.queue|, 1 + Sum(s.workers, Waiting)) == 1
    ensures s.workers == [Starting] && s.threads == [Thread(2, false, true, 0, false)]
    ensures s.queue == s.posted == [0, 1] && |s.posts| == 2
    ensures s.posts[1].poster.Notified? && s.posts[1].runs == 0
  {
    assert Legal(Init(1), []) && Exec(Init(1), []) == Init(1);
    s := PostAlone(Init(1));
    s := PostAlone(s);
    s := Next(1, s, CloserStep);
  }

  /** The worker enters the section. */
  lemma WorkerEnters(s: State) returns (after: State)
    requires Reached(1, s) && s.holder == None && s.workers == [Starting] && |s.threads| == 1
    ensures Reached(1, after)
    ensures after == s.(
              holder := Some(WorkerThread(0)), workers := [Entered], threads := [ReleaseThread(s.threads[0])])
  {
    after := Next(1, s, WorkerStep(0));
    after := Next(1, after, WorkerStep(0));
  }

  /** The worker finds `shutdown` set and comes to the list. */
  lemma WorkerArrives(s: State) returns (after: State)
    requires Reached(1, s) && s.holder == None && s.shutdown && s.workers == [Starting] && |s.threads| == 1
    ensures Reached(1, after)
    ensures after == s.(
              holder := Some(WorkerThread(0)), workers := [Ready(false)], threads := [ReleaseThread(s.threads[0])])
  {
    after := WorkerEnters(s);
    after := Next(1, after, WorkerStep(0));
    after := Next(1, after, WorkerStep(0));
  }

  /** What a step of the worker leaves alone while it is busy with task `t`. */
  predicate OnlyTask(s: State, t: Task, after: State) {
    && after.closer == s.closer && |after.threads| == |s.threads| && |after.posts| == |s.posts|
    && forall p :: 0 <= p < |s.posts| && p != t ==> after.posts[p] == s.posts[p]
  }

  /** The worker takes the head of the list and leaves the section. */
  lemma WorkerTakes(s: State) returns (after: State)
    requires Reached(1, s) && s.holder == Some(WorkerThread(0)) && s.workers == [Ready(false)]
    requires |s.threads| == 1 && s.queue != [] && s.queue[0] < |s.posts|
    ensures Reached(1, after) && after.workers == [Calling(false, s.queue[0])]
    ensures after.queue == s.queue[1..] && OnlyTask(s, s.queue[0], after)
  {
    after := Next(1, s, WorkerStep(0));
    after := Next(1, after, WorkerStep(0));
  }

  lemma BusyStep(s: State, t: Task) returns (after: State)
    requires Reached(1, s) && |s.workers| == |s.threads| == 1 && t < |s.posts|
    requires Busy(s.workers[0]) && s.workers[0].current == t && !s.workers[0].running
    ensures Reached(1, after) && after.queue == s.queue && OnlyTask(s, t, after)
    ensures after.workers == [match s.workers[0]
                              case Calling(r, _) => Called(false, t)
                              case Called(r, _) => Cleared(false, t)
                              case _ => Exited]
  {
    after := Next(1, s, WorkerStep(0));
  }

  /** The worker executes its task and ends. */
  lemma WorkerEnds(s: State, t: Task) returns (after: State)
    requires Reached(1, s) && s.workers == [Calling(false, t)] && |s.threads| == 1 && t < |s.posts|
    ensures Reached(1, after) && after.workers == [Exited] && after.queue == s.queue && OnlyTask(s, t, after)
  {
    after := BusyStep(s, t);
    after := BusyStep(after, t);
    after := BusyStep(after, t);
  }

  /** The shutdown has returned and task 1, although posted before it began, has not been
      executed. */
  lemma TaskIsNeverExecuted() returns (s: State)
    ensures Reached(1, s) && s.closer.Closed?
    ensures s.queue == [1] && |s.posts| == 2 && s.posts[1].poster.Notified? && s.posts[1].runs == 0
  {
    s := OneTaskTooMany();
    s := Next(1, s, CloserStep);
    s := Next(1, s, CloserStep);
    s := Next(1, s, CloserStep);
    s := WorkerArrives(s);
    s := WorkerTakes(s);
    s := WorkerEnds(s, 0);
    s := ShutdownReturns(s);
  }

  /** A shutdown of a pool to which nothing was posted, from its start to its return. */
  lemma IdleShutdown() returns (s: State)
    ensures Reached(1, s) && s.closer.Closed? && s.holder == None && s.workers == [Exited]
    ensures s.queue == [] && s.posts == []
  {
    assert Legal(Init(1), []) && Exec(Init(1), []) == Init(1);
    s := ShutdownStarts(Init(1));
    s := WorkerArrives(s);
    s := WorkerFindsNothing(s);
    s := ShutdownReturns(s);
  }

  /** A shutdown up to its first join, while the only worker has not yet run. */
  lemma ShutdownStarts(s: State) returns (after: State)
    requires Reached(1, s) && s.holder == None && s.closer.Open? && s.workers == [Starting]
    ensures Reached(1, after) && after == s.(closer := Joining(0), shutdown := true)
  {
    after := Next(1, s, CloserStep);
    after := Next(1, after, CloserStep);
    after := Next(1, after, CloserStep);
    assert after == s.(closer := Unlocked, shutdown := true);
    after := Next(1, after, CloserStep);
  }

  /** The worker finds the list empty and ends. */
  lemma WorkerFindsNothing(s: State) returns (after: State)
    requires Reached(1, s) && s.holder == Some(WorkerThread(0)) && s.workers == [Ready(false)]
    requires |s.threads| == 1 && s.queue == []
    ensures Reached(1, after) && after == s.(holder := None, workers := [Exited])
  {
    after := Next(1, s, WorkerStep(0));
    after := Next(1, after, WorkerStep(0));
  }

  /** The joins and the releases of a shutdown, once the worker has ended. */
  lemma ShutdownReturns(s: State) returns (after: State)
    requires Reached(1, s) && s.closer == Joining(0) && s.workers == [Exited] && |s.threads| == 1
    ensures Reached(1, after) && after.closer.Closed? && after.holder == s.holder && after.workers == [Exited]
    ensures after.queue == s.queue && after.posts == s.posts
  {
    after := Next(1, s, CloserStep);
    after := Next(1, after, CloserStep);
    after := Next(1, after, CloserStep);
    after := Next(1, after, CloserStep);
  }

  lemma {:induction false} ClosedStays(s: State, run: seq<Action>)
    requires s.closer.Closed? && Legal(s, run)
    ensures Exec(s, run).closer.Closed?
    decreases |run|
  {
    if run != [] {
      ClosedStays(Apply(s, run[0]), run[1..]);
    }
  }

  /** A post after the shutdown has returned goes through like any other, and whatever
      happens then, its task is not executed. */
  lemma LatePostIsNeverExecuted() returns (s: State)
    ensures Reached(1, s) && s.closer.Closed?
    ensures s.queue == [0] && |s.posts| == 1 && s.posts[0].poster.Notified?
    ensures forall run :: Legal(s, run) ==> |Exec(s, run).posts| > 0 && Exec(s, run).posts[0].runs == 0
  {
    s := IdleShutdown();
    s := PostAlone(s);
    ReachedInv(1, s);
    SumOfZeros(s.workers, Attempts, 1);
    forall run | Legal(s, run)
      ensures |Exec(s, run).posts| > 0 && Exec(s, run).posts[0].runs == 0
    {
      ClosedStays(s, run);
      TaskFate(1, s, run, 0);
    }
  }
}
