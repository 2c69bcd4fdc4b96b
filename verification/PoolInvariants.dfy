/** What every step of the worker pool keeps. */
module PoolInvariants {
  import opened References
  import opened PoolModel

  // ----- mutual exclusion

  predicate PosterInSection(p: Poster) {
    p.Entering? || p.Added?
  }

  predicate CloserInSection(c: Closer) {
    c.Locking? || c.Set?
  }

  /** A thread is in the critical section if and only if it holds the mutex. */
  ghost predicate Exclusive(s: State) {
    && |s.workers| == |s.threads|
    && (forall i :: 0 <= i < |s.workers| ==> (InSection(s.workers[i]) <==> s.holder == Some(WorkerThread(i))))
    && (forall p :: 0 <= p < |s.posts| ==> (PosterInSection(s.posts[p].poster) <==> s.holder == Some(PosterThread(p))))
    && (CloserInSection(s.closer) <==> s.holder == Some(CloserThread))
    && (s.holder.Some? && s.holder.value.WorkerThread? ==> s.holder.value.i < |s.workers|)
    && (s.holder.Some? && s.holder.value.PosterThread? ==> s.holder.value.p < |s.posts|)
  }

  /** A worker moves inside or outside the section, or goes in or out with the mutex. */
  lemma ExclusiveMove(s: State, i: nat, w: Worker, after: State)
    requires Exclusive(s) && i < |s.workers|
    requires after.workers == s.workers[i := w] && |after.threads| == |s.threads| && after.closer == s.closer
    requires |after.posts| == |s.posts| && forall p :: 0 <= p < |s.posts| ==> after.posts[p].poster == s.posts[p].poster
    requires if InSection(w) == InSection(s.workers[i]) then after.holder == s.holder
             else if InSection(w) then s.holder == None && after.holder == Some(WorkerThread(i))
             else after.holder == None
    ensures Exclusive(after)
  {}

  lemma ExclusiveWorker(s: State, i: nat)
    requires Exclusive(s) && WorkerEnabled(s, i)
    ensures Exclusive(StepWorker(s, i))
  {
    var after := StepWorker(s, i);
    ExclusiveMove(s, i, after.workers[i], after);
  }

  lemma ExclusivePoster(s: State, p: nat, woken: Option<nat>)
    requires Exclusive(s) && PosterEnabled(s, p, woken)
    ensures Exclusive(StepPoster(s, p, woken))
  {}

  lemma ExclusiveCloser(s: State)
    requires Exclusive(s) && CloserEnabled(s)
    ensures Exclusive(StepCloser(s))
  {}

  lemma ExclusiveStep(s: State, a: Action)
    requires Exclusive(s) && Enabled(s, a)
    ensures Exclusive(Apply(s, a))
  {
    match a
    case WorkerStep(i) => ExclusiveWorker(s, i);
    case PosterStep(p, woken) => ExclusivePoster(s, p, woken);
    case CloserStep => ExclusiveCloser(s);
    case _ =>
  }

  // ----- shutdown

  predicate Latched(w: Worker) {
    match w
    case Testing(r) => !r
    case Ready(r) => !r
    case Removed(r, t) => !r
    case Calling(r, t) => !r
    case Called(r, t) => !r
    case Cleared(r, t) => !r
    case Exited => true
    case _ => false
  }

  predicate Broadcast(c: Closer) {
    c.Joining? || c.Releasing? || c.Closed?
  }

  /** A worker that will leave its loop has seen `shutdown`, nobody who has seen it sleeps,
      nobody at all sleeps after the broadcast, and a thread is joined when it has ended. */
  ghost predicate Orderly(s: State) {
    && |s.workers| == |s.threads|
    && (s.shutdown <==> s.closer.Set? || s.closer.Unlocked? || Broadcast(s.closer))
    && (forall i :: 0 <= i < |s.workers| ==> (Latched(s.workers[i]) ==> s.shutdown))
    && (forall i :: 0 <= i < |s.workers| && (s.workers[i].Asleep? || s.workers[i].Woken?) ==> s.workers[i].running)
    && (forall i :: 0 <= i < |s.workers| && Broadcast(s.closer) ==> !s.workers[i].Asleep?)
    && (s.closer.Joining? ==>
          s.closer.next <= |s.workers| && forall i :: 0 <= i < s.closer.next ==> s.workers[i].Exited?)
    && (s.closer.Releasing? || s.closer.Closed? ==> forall i :: 0 <= i < |s.workers| ==> s.workers[i].Exited?)
  }

  lemma OrderlyWorker(s: State, i: nat)
    requires Orderly(s) && WorkerEnabled(s, i)
    ensures Orderly(StepWorker(s, i))
  {}

  lemma OrderlyPoster(s: State, p: nat, woken: Option<nat>)
    requires Orderly(s) && PosterEnabled(s, p, woken)
    ensures Orderly(StepPoster(s, p, woken))
  {}

  lemma OrderlyCloser(s: State)
    requires Orderly(s) && CloserEnabled(s)
    ensures Orderly(StepCloser(s))
  {}

  lemma OrderlyStep(s: State, a: Action)
    requires Orderly(s) && Enabled(s, a)
    ensures Orderly(Apply(s, a))
  {
    match a
    case WorkerStep(i) => OrderlyWorker(s, i);
    case PosterStep(p, woken) => OrderlyPoster(s, p, woken);
    case CloserStep => OrderlyCloser(s);
    case _ =>
  }

  // ----- before the shutdown

  /** Until `shutdown` is set, a worker that was let through finds a task, and no task is
      dropped. */
  ghost predicate Served(s: State) {
    && (forall i :: 0 <= i < |s.workers| && s.workers[i].Ready? && !s.shutdown ==> s.queue != [])
    && (forall i :: 0 <= i < |s.workers| && s.workers[i].Removed? && s.workers[i].task.None? ==> s.shutdown)
    && (forall t :: 0 <= t < |s.posts| && s.posts[t].place.Dropped? ==> s.shutdown)
  }

  lemma ServedWorker(s: State, i: nat)
    requires Served(s) && Exclusive(s) && WorkerEnabled(s, i)
    ensures Served(StepWorker(s, i))
  {
    var after := StepWorker(s, i);
    assert forall j :: 0 <= j < |s.workers| && j != i ==> after.workers[j] == s.workers[j];
    if s.workers[i].Ready? {
      assert forall j :: 0 <= j < |s.workers| && j != i ==> !s.workers[j].Ready?;
    }
  }

  lemma ServedPoster(s: State, p: nat, woken: Option<nat>)
    requires Served(s) && PosterEnabled(s, p, woken)
    ensures Served(StepPoster(s, p, woken))
  {}

  lemma ServedStep(s: State, a: Action)
    requires Served(s) && Exclusive(s) && Orderly(s) && Enabled(s, a)
    ensures Served(Apply(s, a))
  {
    match a
    case WorkerStep(i) => ServedWorker(s, i);
    case PosterStep(p, woken) => ServedPoster(s, p, woken);
    case _ =>
  }

  // ----- threads

  /** The shutdown has joined the first so many threads. */
  function JoinedCount(s: State): nat {
    match s.closer
    case Joining(k) => k
    case Releasing(k) => |s.threads|
    case Closed => |s.threads|
    case _ => 0
  }

  /** The shutdown has released the first so many threads. */
  function ReleasedCount(s: State): nat {
    match s.closer
    case Releasing(k) => k
    case Closed => |s.threads|
    case _ => 0
  }

  predicate ThreadOk(t: Thread, w: Worker, joined: bool, released: bool) {
    && t.joins == (if joined then 1 else 0)
    && t.isJoined == joined && t.isValid == !joined
    && t.freed == released
    && t.refs == (if w.Starting? then 1 else 0) + (if released then 0 else 1)
  }

  /** Each thread is joined once, by the shutdown; the deinit of the thread object finds it
      joined. */
  ghost predicate JoinedOnce(s: State) {
    && |s.workers| == |s.threads|
    && JoinedCount(s) <= |s.threads| && ReleasedCount(s) <= |s.threads|
    && forall i :: 0 <= i < |s.workers| ==>
         ThreadOk(s.threads[i], s.workers[i], i < JoinedCount(s), i < ReleasedCount(s))
  }

  lemma JoinedOnceWorker(s: State, i: nat)
    requires JoinedOnce(s) && Orderly(s) && WorkerEnabled(s, i)
    ensures JoinedOnce(StepWorker(s, i))
  {}

  lemma JoinedOncePoster(s: State, p: nat, woken: Option<nat>)
    requires JoinedOnce(s) && Orderly(s) && PosterEnabled(s, p, woken)
    ensures JoinedOnce(StepPoster(s, p, woken))
  {}

  lemma JoinedOnceCloser(s: State)
    requires JoinedOnce(s) && Orderly(s) && CloserEnabled(s)
    ensures JoinedOnce(StepCloser(s))
  {}

  lemma JoinedOnceStep(s: State, a: Action)
    requires JoinedOnce(s) && Orderly(s) && Enabled(s, a)
    ensures JoinedOnce(Apply(s, a))
  {
    match a
    case WorkerStep(i) => JoinedOnceWorker(s, i);
    case PosterStep(p, woken) => JoinedOncePoster(s, p, woken);
    case CloserStep => JoinedOnceCloser(s);
    case _ =>
  }
}
