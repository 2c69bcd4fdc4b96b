/** The tasks of the worker pool: their order, their executions and their references. */
module PoolTasks {
  import opened References
  import opened PoolModel

  // ----- first in, first out

  ghost predicate Distinct(ts: seq<Task>) {
    forall x, y :: 0 <= x < y < |ts| ==> ts[x] != ts[y]
  }

  /** The tasks added are those removed followed by those still queued, each added once. */
  ghost predicate Fifo(s: State) {
    && s.posted == s.taken + s.queue
    && Distinct(s.posted)
    && (forall x :: 0 <= x < |s.posted| ==> s.posted[x] < |s.posts| && !s.posts[s.posted[x]].place.Unposted?)
    && (forall x :: 0 <= x < |s.queue| ==> s.queue[x] < |s.posts| && s.posts[s.queue[x]].place.Queued?)
    && (forall t :: 0 <= t < |s.posts| && s.posts[t].place.Queued? ==> t in s.queue)
    && (forall t :: 0 <= t < |s.posts| ==>
          (s.posts[t].place.Unposted? <==> s.posts[t].poster.Allocated? || s.posts[t].poster.Entering?))
  }

  // ----- one worker for one task

  function Current(w: Worker): Option<Task> {
    match w
    case Removed(r, t) => t
    case Calling(r, t) => Some(t)
    case Called(r, t) => Some(t)
    case Cleared(r, t) => Some(t)
    case _ => None
  }

  /** The worker that holds a task and the task that a worker holds name each other. */
  ghost predicate Assigned(s: State) {
    && (forall i :: 0 <= i < |s.workers| && Current(s.workers[i]).Some? ==>
          Current(s.workers[i]).value < |s.posts| && s.posts[Current(s.workers[i]).value].place == Held(i))
    && (forall t :: 0 <= t < |s.posts| && s.posts[t].place.Held? ==>
          s.posts[t].place.worker < |s.workers| && Current(s.workers[s.posts[t].place.worker]) == Some(t))
  }

  // ----- executions and references

  /** How far the execution of a task has come: not begun, called, fields cleared. */
  datatype Progress = Pending | Executed | Done

  function ProgressOf(s: State, p: Post): Progress {
    match p.place
    case Held(i) =>
      if i < |s.workers| && s.workers[i].Called? then Executed
      else if i < |s.workers| && s.workers[i].Cleared? then Done
      else Pending
    case Finished => Done
    case _ => Pending
  }

  predicate PosterHolds(p: Poster) {
    p.Allocated? || p.Entering? || p.Added? || p.Left?
  }

  /** The reference counts and counters of one task. */
  predicate PostOk(p: Post, progress: Progress) {
    && p.refs == (if PosterHolds(p.poster) then 1 else 0) + (if p.place.Queued? || p.place.Held? then 1 else 0)
    && p.deinits == (if p.refs == 0 then 1 else 0)
    && p.runs == (if progress.Pending? then 0 else 1)
    && p.proc == !progress.Done?
    && p.data == (p.given && !progress.Done?)
    && p.dataRetains == (if p.given then 1 else 0)
    && p.dataReleases == (if p.given && (progress.Done? || p.deinits == 1) then 1 else 0)
    && (p.place.Dropped? ==> p.poster.Notified?)
    && (p.warned <==> p.place.Dropped?)
  }

  ghost predicate Counted(s: State) {
    forall t :: 0 <= t < |s.posts| ==> PostOk(s.posts[t], ProgressOf(s, s.posts[t]))
  }

  ghost predicate TasksOk(s: State) {
    Fifo(s) && Assigned(s) && Counted(s)
  }

  // ----- steps that leave the list alone

  predicate Unposted(p: Poster) {
    p.Allocated? || p.Entering?
  }

  lemma FifoQuiet(s: State, after: State)
    requires Fifo(s) && |after.posts| == |s.posts|
    requires after.queue == s.queue && after.posted == s.posted && after.taken == s.taken
    requires forall t :: 0 <= t < |s.posts| ==>
               && after.posts[t].place.Queued? == s.posts[t].place.Queued?
               && after.posts[t].place.Unposted? == s.posts[t].place.Unposted?
               && Unposted(after.posts[t].poster) == Unposted(s.posts[t].poster)
    ensures Fifo(after)
  {}

  lemma AssignedQuiet(s: State, after: State)
    requires Assigned(s) && |after.posts| == |s.posts| && |after.workers| == |s.workers|
    requires forall i :: 0 <= i < |s.workers| ==> Current(after.workers[i]) == Current(s.workers[i])
    requires forall t :: 0 <= t < |s.posts| ==> after.posts[t].place == s.posts[t].place
    ensures Assigned(after)
  {}

  /** Only worker `i` and the task `t` change; no other task is held by the worker. */
  lemma CountedMove(s: State, i: nat, t: Task, after: State)
    requires Counted(s) && |after.posts| == |s.posts| && |after.workers| == |s.workers|
    requires forall j :: 0 <= j < |s.workers| && j != i ==> after.workers[j] == s.workers[j]
    requires forall u :: 0 <= u < |s.posts| && u != t ==> after.posts[u] == s.posts[u] && s.posts[u].place != Held(i)
    requires t < |s.posts| ==> PostOk(after.posts[t], ProgressOf(after, after.posts[t]))
    ensures Counted(after)
  {}

  // ----- worker steps

  /** The head of the list passes to the worker. */
  lemma TakeHead(s: State, i: nat)
    requires TasksOk(s) && WorkerEnabled(s, i) && s.workers[i].Ready? && s.queue != []
    ensures TasksOk(StepWorker(s, i))
  {
    var after, t := StepWorker(s, i), s.queue[0];
    assert after.taken + after.queue == s.posted;
    assert s.posted[|s.taken|] == t;
    forall x | 0 <= x < |after.queue|
      ensures after.queue[x] != t
    {
      assert after.queue[x] == s.posted[|s.taken| + 1 + x];
    }
    AssignedAfterTaking(s, i);
    CountedMove(s, i, t, after);
  }

  lemma AssignedAfterTaking(s: State, i: nat)
    requires Fifo(s) && Assigned(s) && WorkerEnabled(s, i) && s.workers[i].Ready? && s.queue != []
    ensures Assigned(StepWorker(s, i))
  {
    assert s.posts[s.queue[0]].place.Queued?;
  }

  /** The worker makes progress with the task that it holds. */
  lemma WorkOnTask(s: State, i: nat)
    requires TasksOk(s) && WorkerEnabled(s, i) && (s.workers[i].Calling? || s.workers[i].Called?)
    ensures TasksOk(StepWorker(s, i))
  {
    var after, t := StepWorker(s, i), s.workers[i].current;
    assert Current(s.workers[i]) == Some(t);
    FifoQuiet(s, after);
    AssignedQuiet(s, after);
    CountedMove(s, i, t, after);
  }

  lemma FinishTask(s: State, i: nat)
    requires TasksOk(s) && WorkerEnabled(s, i) && s.workers[i].Cleared?
    ensures TasksOk(StepWorker(s, i))
  {
    var after, t := StepWorker(s, i), s.workers[i].current;
    assert Current(s.workers[i]) == Some(t);
    FifoQuiet(s, after);
    AssignedAfterFinishing(s, i);
    CountedMove(s, i, t, after);
  }

  lemma AssignedAfterFinishing(s: State, i: nat)
    requires Assigned(s) && WorkerEnabled(s, i) && s.workers[i].Cleared?
    ensures Assigned(StepWorker(s, i))
  {
    assert Current(s.workers[i]) == Some(s.workers[i].current);
  }

  /** All other steps of a worker leave the tasks alone. */
  lemma WorkElsewhere(s: State, i: nat)
    requires TasksOk(s) && WorkerEnabled(s, i)
    requires !(s.workers[i].Calling? || s.workers[i].Called? || s.workers[i].Cleared?)
    requires s.workers[i].Ready? ==> s.queue == []
    ensures TasksOk(StepWorker(s, i))
  {
    var after := StepWorker(s, i);
    assert after.posts == s.posts && Current(after.workers[i]) == Current(s.workers[i]);
    FifoQuiet(s, after);
    AssignedQuiet(s, after);
    var t := if Current(s.workers[i]).Some? then Current(s.workers[i]).value else |s.posts|;
    CountedMove(s, i, t, after);
  }

  lemma TasksOkWorker(s: State, i: nat)
    requires TasksOk(s) && WorkerEnabled(s, i)
    ensures TasksOk(StepWorker(s, i))
  {
    var w := s.workers[i];
    if w.Calling? || w.Called? {
      WorkOnTask(s, i);
    } else if w.Cleared? {
      FinishTask(s, i);
    } else if w.Ready? && s.queue != [] {
      TakeHead(s, i);
    } else {
      WorkElsewhere(s, i);
    }
  }

  // ----- poster steps

  /** Waking sleepers touches no task. */
  lemma WokenOk(s: State, after: State)
    requires TasksOk(s) && |after.workers| == |s.workers| && after.posts == s.posts
    requires after.queue == s.queue && after.posted == s.posted && after.taken == s.taken
    requires forall i :: 0 <= i < |s.workers| && after.workers[i] != s.workers[i] ==>
               s.workers[i].Asleep? && after.workers[i].Woken?
    ensures TasksOk(after)
  {}

  lemma AddToQueue(s: State, p: nat)
    requires TasksOk(s) && PosterEnabled(s, p, None) && s.posts[p].poster.Entering?
    ensures TasksOk(StepPoster(s, p, None))
  {
    var after := StepPoster(s, p, None);
    assert after.posted == after.taken + after.queue;
    assert p !in s.posted;
    assert p !in s.queue;
    forall t | 0 <= t < |after.posts| && after.posts[t].place.Queued?
      ensures t in after.queue
    {
      if t == p {
        assert after.queue[|s.queue|] == p;
      } else {
        assert s.posts[t].place.Queued?;
      }
    }
    CountedMove(s, |s.workers|, p, after);
  }

  /** A task whose place and call status stay is counted right if its references are. */
  lemma CountedPost(s: State, p: nat, post: Post, after: State)
    requires TasksOk(s) && p < |s.posts| && after.posts == s.posts[p := post] && after.workers == s.workers
    requires after.queue == s.queue && after.posted == s.posted && after.taken == s.taken
    requires post.place == s.posts[p].place && Unposted(post.poster) == Unposted(s.posts[p].poster)
    requires PostOk(post, ProgressOf(s, s.posts[p]))
    ensures TasksOk(after)
  {
    FifoQuiet(s, after);
    AssignedQuiet(s, after);
    CountedMove(s, |s.workers|, p, after);
  }

  lemma PostElsewhere(s: State, p: nat, woken: Option<nat>)
    requires TasksOk(s) && PosterEnabled(s, p, woken) && !s.posts[p].poster.Entering? && !s.posts[p].poster.Released?
    ensures TasksOk(StepPoster(s, p, woken))
  {
    var post := s.posts[p];
    assert PostOk(post, ProgressOf(s, post));
    CountedPost(s, p, StepPoster(s, p, woken).posts[p], StepPoster(s, p, woken));
  }

  lemma Notify(s: State, p: nat, woken: Option<nat>)
    requires TasksOk(s) && PosterEnabled(s, p, woken) && s.posts[p].poster.Released?
    ensures TasksOk(StepPoster(s, p, woken))
  {
    var post := s.posts[p].(poster := PoolModel.Notified);
    assert PostOk(s.posts[p], ProgressOf(s, s.posts[p]));
    var middle := SetPost(s, p, post);
    CountedPost(s, p, post, middle);
    WokenOk(middle, StepPoster(s, p, woken));
  }

  lemma TasksOkPoster(s: State, p: nat, woken: Option<nat>)
    requires TasksOk(s) && PosterEnabled(s, p, woken)
    ensures TasksOk(StepPoster(s, p, woken))
  {
    if s.posts[p].poster.Entering? {
      AddToQueue(s, p);
    } else if s.posts[p].poster.Released? {
      Notify(s, p, woken);
    } else {
      PostElsewhere(s, p, woken);
    }
  }

  // ----- the other steps

  lemma AllocatePost(s: State, given: bool)
    requires TasksOk(s)
    ensures TasksOk(Apply(s, NewPost(given)))
  {
    var after := Apply(s, NewPost(given));
    forall t | 0 <= t < |s.posts|
      ensures ProgressOf(after, after.posts[t]) == ProgressOf(s, s.posts[t])
    {}
  }

  lemma TasksOkDrop(s: State)
    requires TasksOk(s) && DropEnabled(s)
    ensures TasksOk(Drop(s))
  {
    var after, t := Drop(s), s.queue[0];
    assert after.taken + after.queue == s.posted;
    assert s.posted[|s.taken|] == t;
    forall x | 0 <= x < |after.queue|
      ensures after.queue[x] != t
    {
      assert after.queue[x] == s.posted[|s.taken| + 1 + x];
    }
    assert s.posts[t].place.Queued?;
    CountedMove(s, |s.workers|, t, after);
  }

  lemma TasksOkStep(s: State, a: Action)
    requires TasksOk(s) && Enabled(s, a)
    ensures TasksOk(Apply(s, a))
  {
    match a
    case WorkerStep(i) => TasksOkWorker(s, i);
    case SpuriousWake(i) => WokenOk(s, Apply(s, a));
    case NewPost(given) => AllocatePost(s, given);
    case PosterStep(p, woken) => TasksOkPoster(s, p, woken);
    case CloserStep => WokenOk(s, StepCloser(s));
    case DropTask => TasksOkDrop(s);
  }
}
