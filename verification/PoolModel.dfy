/** `KWorkerPool` over its condition variable as an interleaving of atomic steps
    (src/kworker_pool.c, src/kcondition_variable.c, src/kthread.c). */
module PoolModel {
  import opened References

  /** A posted task, named by the position of its post in the order of allocation. */
  type Task = nat

  /** Where a worker thread is. `running` is its local variable `is_running`. */
  datatype Worker =
    | Starting                                          // before the release in KThreadMain
    | Top                                               // about to enter the critical section
    | Entered                                           // in it, about to read `shutdown`
    | Testing(running: bool)                            // in it, about to evaluate the predicate
    | Asleep(running: bool)                             // in the condition variable
    | Woken(running: bool)                              // about to re-acquire the mutex
    | Ready(running: bool)                              // in the section, the predicate was false
    | Removed(running: bool, task: Option<Task>)        // in the section, the list was asked
    | Calling(running: bool, current: Task)             // about to call the task
    | Called(running: bool, current: Task)              // the call has returned
    | Cleared(running: bool, current: Task)             // its fields are NULL
    | Exited

  /** Where a thread is in `KWorkerPoolPostTask`. */
  datatype Poster = Allocated | Entering | Added | Left | Released | Notified

  /** Where a thread is in `KWorkerPoolShutdown`. */
  datatype Closer = Open | Locking | Set | Unlocked | Joining(next: nat) | Releasing(next: nat) | Closed

  datatype Place = Unposted | Queued | Held(worker: nat) | Finished | Dropped

  /** A task object with the thread that posts it. `proc` and `data` say whether its two
      fields are other than NULL, `given` whether user data was passed. */
  datatype Post = Post(
    poster: Poster, place: Place, refs: nat, proc: bool, data: bool, given: bool,
    runs: nat, dataRetains: nat, dataReleases: nat, deinits: nat, warned: bool)

  /** A thread object; `joins` counts the joins of the operating system thread. */
  datatype Thread = Thread(refs: nat, isJoined: bool, isValid: bool, joins: nat, freed: bool)

  datatype Holder = WorkerThread(i: nat) | PosterThread(p: nat) | CloserThread

  /** `posted` and `taken` record the order of additions to and removals from the list. */
  datatype State = State(
    holder: Option<Holder>, queue: seq<Task>, shutdown: bool,
    workers: seq<Worker>, threads: seq<Thread>, posts: seq<Post>, closer: Closer,
    posted: seq<Task>, taken: seq<Task>)

  datatype Action =
    | WorkerStep(i: nat)
    | SpuriousWake(i: nat)
    | NewPost(given: bool)
    | PosterStep(p: nat, woken: Option<nat>)
    | CloserStep
    | DropTask

  function Init(workerCount: nat): State {
    State(None, [], false,
          seq(workerCount, i => Starting), seq(workerCount, i => Thread(2, false, true, 0, false)),
          [], Open, [], [])
  }

  // ----- objects

  function Join(t: Thread): Thread {
    if t.isJoined || !t.isValid then t else t.(joins := t.joins + 1, isJoined := true, isValid := false)
  }

  /** `KThreadRelease`; the deinit of a thread joins it. */
  function ReleaseThread(t: Thread): Thread {
    if t.refs == 1 then Join(t).(refs := 0, freed := true)
    else if t.refs == 0 then t
    else t.(refs := t.refs - 1)
  }

  /** The start of `KWorkerPoolPostTask`: the task object with its fields, and the reference
      on the user data. */
  function AllocateTask(given: bool): Post {
    Post(Allocated, Unposted, 1, true, given, given, 0, if given then 1 else 0, 0, 0, false)
  }

  /** `KWorkerPoolTaskRelease` with `KWorkerPoolTaskDeInit`. */
  function ReleaseTask(p: Post): Post {
    if p.refs == 1 then
      p.(refs := 0, deinits := p.deinits + 1, warned := p.warned || p.proc,
         dataReleases := p.dataReleases + (if p.data then 1 else 0))
    else if p.refs == 0 then p
    else p.(refs := p.refs - 1)
  }

  /** The part of `KWorkerPoolTaskExecute` that follows the call. */
  function Clear(p: Post): Post {
    p.(proc := false, data := false, dataReleases := p.dataReleases + (if p.data then 1 else 0))
  }

  // ----- worker steps

  predicate WantsLock(w: Worker) {
    w.Top? || w.Woken?
  }

  predicate InSection(w: Worker) {
    w.Entered? || w.Testing? || w.Ready? || w.Removed?
  }

  predicate Busy(w: Worker) {
    w.Calling? || w.Called? || w.Cleared?
  }

  /** The next round of the loop, or the end of the thread. */
  function Again(running: bool): Worker {
    if running then Top else Exited
  }

  predicate WorkerEnabled(s: State, i: nat) {
    && i < |s.workers| && i < |s.threads|
    && (WantsLock(s.workers[i]) ==> s.holder == None)
    && (InSection(s.workers[i]) ==> s.holder == Some(WorkerThread(i)))
    && (Busy(s.workers[i]) ==> s.workers[i].current < |s.posts|)
    && (s.workers[i].Ready? && s.queue != [] ==> s.queue[0] < |s.posts|)
    && !s.workers[i].Asleep? && !s.workers[i].Exited?
  }

  function SetWorker(s: State, i: nat, w: Worker): State
    requires i < |s.workers|
  {
    s.(workers := s.workers[i := w])
  }

  function SetPost(s: State, p: nat, post: Post): State
    requires p < |s.posts|
  {
    s.(posts := s.posts[p := post])
  }

  function StepWorker(s: State, i: nat): State
    requires WorkerEnabled(s, i)
  {
    match s.workers[i]
    case Starting => SetWorker(s, i, Top).(threads := s.threads[i := ReleaseThread(s.threads[i])])
    case Top => SetWorker(s, i, Entered).(holder := Some(WorkerThread(i)))
    case Entered => SetWorker(s, i, Testing(!s.shutdown))
    case Testing(r) =>
      if s.queue == [] && !s.shutdown then SetWorker(s, i, Asleep(r)).(holder := None)
      else SetWorker(s, i, Ready(r))
    case Woken(r) => SetWorker(s, i, Testing(r)).(holder := Some(WorkerThread(i)))
    case Ready(r) =>
      if s.queue == [] then SetWorker(s, i, Removed(r, None))
      else
        var t := s.queue[0];
        SetPost(SetWorker(s, i, Removed(r, Some(t))), t, s.posts[t].(place := Held(i)))
        .(queue := s.queue[1..], taken := s.taken + [t])
    case Removed(r, t) =>
      SetWorker(s, i, if t.Some? then Calling(r, t.value) else Again(r)).(holder := None)
    case Calling(r, t) => SetPost(SetWorker(s, i, Called(r, t)), t, s.posts[t].(runs := s.posts[t].runs + 1))
    case Called(r, t) => SetPost(SetWorker(s, i, Cleared(r, t)), t, Clear(s.posts[t]))
    case Cleared(r, t) => SetPost(SetWorker(s, i, Again(r)), t, ReleaseTask(s.posts[t]).(place := Finished))
    case _ => s
  }

  // ----- poster steps

  /** Notifying one wakes some sleeper if there is any; that more of them wake is a spurious
      wake-up. */
  predicate Wakes(workers: seq<Worker>, woken: Option<nat>) {
    if woken.Some? then woken.value < |workers| && workers[woken.value].Asleep?
    else forall i :: 0 <= i < |workers| ==> !workers[i].Asleep?
  }

  function Wake(workers: seq<Worker>, woken: Option<nat>): seq<Worker>
    requires Wakes(workers, woken)
  {
    if woken.Some? then workers[woken.value := Woken(workers[woken.value].running)] else workers
  }

  predicate PosterEnabled(s: State, p: nat, woken: Option<nat>) {
    && p < |s.posts|
    && match s.posts[p].poster
       case Allocated => s.holder == None
       case Entering => s.holder == Some(PosterThread(p))
       case Added => s.holder == Some(PosterThread(p))
       case Left => true
       case Released => Wakes(s.workers, woken)
       case Notified => false
  }

  function StepPoster(s: State, p: nat, woken: Option<nat>): State
    requires PosterEnabled(s, p, woken)
  {
    var post := s.posts[p];
    match post.poster
    case Allocated => SetPost(s, p, post.(poster := Entering)).(holder := Some(PosterThread(p)))
    case Entering =>
      SetPost(s, p, post.(poster := Added, place := Queued, refs := post.refs + 1))
      .(queue := s.queue + [p], posted := s.posted + [p])
    case Added => SetPost(s, p, post.(poster := Left)).(holder := None)
    case Left => SetPost(s, p, ReleaseTask(post).(poster := Released))
    case Released => SetPost(s, p, post.(poster := Notified)).(workers := Wake(s.workers, woken))
  }

  // ----- shutdown and collection

  function WakeAll(workers: seq<Worker>): (after: seq<Worker>)
    ensures |after| == |workers|
    ensures forall i :: 0 <= i < |workers| ==>
              after[i] == if workers[i].Asleep? then Woken(workers[i].running) else workers[i]
  {
    seq(|workers|, i requires 0 <= i < |workers| =>
      if workers[i].Asleep? then Woken(workers[i].running) else workers[i])
  }

  predicate CloserEnabled(s: State) {
    match s.closer
    case Open => s.holder == None
    case Locking => s.holder == Some(CloserThread)
    case Set => s.holder == Some(CloserThread)
    case Unlocked => true
    case Joining(k) => k < |s.workers| == |s.threads| ==> s.workers[k].Exited?
    case Releasing(k) => true
    case Closed => false
  }

  function StepCloser(s: State): State
    requires CloserEnabled(s)
  {
    match s.closer
    case Open => s.(closer := Locking, holder := Some(CloserThread))
    case Locking => s.(closer := Set, shutdown := true)
    case Set => s.(closer := Unlocked, holder := None)
    case Unlocked => s.(closer := Joining(0), workers := WakeAll(s.workers))
    case Joining(k) =>
      if k < |s.threads| then s.(closer := Joining(k + 1), threads := s.threads[k := Join(s.threads[k])])
      else s.(closer := Releasing(0))
    case Releasing(k) =>
      if k < |s.threads| then s.(closer := Releasing(k + 1), threads := s.threads[k := ReleaseThread(s.threads[k])])
      else s.(closer := Closed)
  }

  /** The pool is collected once nobody posts any more: its list releases what is left. */
  predicate DropEnabled(s: State) {
    && s.closer.Closed? && s.queue != [] && s.queue[0] < |s.posts|
    && forall p :: 0 <= p < |s.posts| ==> s.posts[p].poster.Notified?
  }

  function Drop(s: State): State
    requires DropEnabled(s)
  {
    var t := s.queue[0];
    SetPost(s, t, ReleaseTask(s.posts[t]).(place := Dropped)).(queue := s.queue[1..], taken := s.taken + [t])
  }

  // ----- runs

  predicate Enabled(s: State, a: Action) {
    match a
    case WorkerStep(i) => WorkerEnabled(s, i)
    case SpuriousWake(i) => i < |s.workers| && s.workers[i].Asleep?
    case NewPost(given) => true
    case PosterStep(p, woken) => PosterEnabled(s, p, woken)
    case CloserStep => CloserEnabled(s)
    case DropTask => DropEnabled(s)
  }

  function Apply(s: State, a: Action): State
    requires Enabled(s, a)
  {
    match a
    case WorkerStep(i) => StepWorker(s, i)
    case SpuriousWake(i) => SetWorker(s, i, Woken(s.workers[i].running))
    case NewPost(given) =>
      s.(posts := s.posts + [AllocateTask(given)])
    case PosterStep(p, woken) => StepPoster(s, p, woken)
    case CloserStep => StepCloser(s)
    case DropTask => Drop(s)
  }

  predicate Legal(s: State, run: seq<Action>)
    decreases |run|
  {
    run == [] || (Enabled(s, run[0]) && Legal(Apply(s, run[0]), run[1..]))
  }

  function Exec(s: State, run: seq<Action>): State
    requires Legal(s, run)
    decreases |run|
  {
    if run == [] then s else Exec(Apply(s, run[0]), run[1..])
  }
}
