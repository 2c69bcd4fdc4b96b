/** `KCountdownLatch` over its condition variable as an interleaving of atomic steps
    (src/kcountdown_latch.c, src/kcondition_variable.c). */
module Latch {
  import opened References
  import opened Sums

  /** A thread in `KCountDownLatchCountDown` or in `KCountDownLatchWait`; `lowered` records
      whether its switch lowered the count. */
  datatype Thread =
    | Arriving                    // about to enter the critical section to count down
    | Counting                    // in it, before the switch
    | Counted(signal: bool, lowered: bool)                  // in it, after the switch; `should_signal`
    | Leaving(signal: bool, lowered: bool)                  // outside, about to broadcast if `signal`
    | Finished(signal: bool, lowered: bool, result: bool)   // the count-down has returned `result`
    | Coming                      // about to enter the critical section to wait
    | Testing                     // in it, about to evaluate the predicate
    | Asleep                      // in the condition variable
    | Woken                       // about to re-acquire the mutex
    | Passing                     // in the section, the predicate was false
    | Passed                      // the wait has returned

  /** `counted` records the count-downs that have gone through the switch. */
  datatype State = State(count: nat, holder: Option<nat>, threads: seq<Thread>, counted: nat)

  datatype Action = CountDown | Wait | Step(i: nat) | SpuriousWake(i: nat)

  function Init(n: nat): State {
    State(n, None, [], 0)
  }

  predicate InSection(t: Thread) {
    t.Counting? || t.Counted? || t.Testing? || t.Passing?
  }

  predicate WantsLock(t: Thread) {
    t.Arriving? || t.Coming? || t.Woken?
  }

  predicate StepEnabled(s: State, i: nat) {
    && i < |s.threads|
    && (WantsLock(s.threads[i]) ==> s.holder == None)
    && (InSection(s.threads[i]) ==> s.holder == Some(i))
    && !s.threads[i].Asleep? && !s.threads[i].Finished? && !s.threads[i].Passed?
  }

  function WakeAll(threads: seq<Thread>): (after: seq<Thread>)
    ensures |after| == |threads|
    ensures forall i :: 0 <= i < |threads| ==> after[i] == if threads[i].Asleep? then Woken else threads[i]
  {
    seq(|threads|, i requires 0 <= i < |threads| => if threads[i].Asleep? then Woken else threads[i])
  }

  function Set(s: State, i: nat, t: Thread): State
    requires i < |s.threads|
  {
    s.(threads := s.threads[i := t])
  }

  function StepThread(s: State, i: nat): State
    requires StepEnabled(s, i)
  {
    match s.threads[i]
    case Arriving => Set(s, i, Counting).(holder := Some(i))
    case Counting =>
      if s.count == 0 then Set(s, i, Counted(false, false)).(counted := s.counted + 1)
      else if s.count == 1 then Set(s, i, Counted(true, true)).(count := s.count - 1, counted := s.counted + 1)
      else Set(s, i, Counted(false, true)).(count := s.count - 1, counted := s.counted + 1)
    case Counted(signal, lowered) => Set(s, i, Leaving(signal, lowered)).(holder := None)
    case Leaving(signal, lowered) =>
      var after := Set(s, i, Finished(signal, lowered, true));
      if signal then after.(threads := WakeAll(after.threads)) else after
    case Coming => Set(s, i, Testing).(holder := Some(i))
    case Testing => if s.count != 0 then Set(s, i, Asleep).(holder := None) else Set(s, i, Passing)
    case Woken => Set(s, i, Testing).(holder := Some(i))
    case Passing => Set(s, i, Passed).(holder := None)
    case _ => s
  }

  predicate Enabled(s: State, a: Action) {
    match a
    case CountDown => true
    case Wait => true
    case Step(i) => StepEnabled(s, i)
    case SpuriousWake(i) => i < |s.threads| && s.threads[i].Asleep?
  }

  function Apply(s: State, a: Action): State
    requires Enabled(s, a)
  {
    match a
    case CountDown => s.(threads := s.threads + [Arriving])
    case Wait => s.(threads := s.threads + [Coming])
    case Step(i) => StepThread(s, i)
    case SpuriousWake(i) => Set(s, i, Woken)
  }

  predicate Legal(s: State, run: seq<Action>)
    decreases |run|
  {
    run == [] || (Enabled(s, run[0]) && Legal(Apply(s, run[0]), run[1..]))
  }

  function Exec(s: State, run: seq<Action>): State
    requires Legal(s, run)
    decreases |run|
  {
    if run == [] then s else Exec(Apply(s, run[0]), run[1..])
  }

  // ----- what every step keeps

  /** The thread took the count from one to zero. */
  function TookLast(t: Thread): nat {
    if (t.Counted? || t.Leaving? || t.Finished?) && t.signal then 1 else 0
  }

  /** The thread counted down without lowering the count. */
  function InVain(t: Thread): nat {
    if (t.Counted? || t.Leaving? || t.Finished?) && !t.lowered then 1 else 0
  }

  /** The thread is going to broadcast. */
  function WillBroadcast(t: Thread): nat {
    if (t.Counted? || t.Leaving?) && t.signal then 1 else 0
  }

  /** The next step of the thread is the broadcast. */
  predicate Broadcasts(t: Thread) {
    t.Leaving? && t.signal
  }

  ghost predicate SomeAsleep(threads: seq<Thread>) {
    exists i :: 0 <= i < |threads| && threads[i].Asleep?
  }

  ghost predicate Exclusive(s: State) {
    && (forall i :: 0 <= i < |s.threads| ==> (InSection(s.threads[i]) <==> s.holder == Some(i)))
    && (s.holder.Some? ==> s.holder.value < |s.threads|)
  }

  ghost predicate Inv(n: nat, s: State) {
    && n > 0 && Exclusive(s)
    && s.count == (if s.counted < n then n - s.counted else 0)
    && Sum(s.threads, TookLast) == (if s.count == 0 then 1 else 0)
    && Sum(s.threads, InVain) == (if s.counted > n then s.counted - n else 0)
    && (forall i :: 0 <= i < |s.threads| && s.threads[i].Finished? ==> s.threads[i].result)
    && (s.count == 0 && SomeAsleep(s.threads) ==> Sum(s.threads, WillBroadcast) > 0)
    && (forall i :: 0 <= i < |s.threads| && (s.threads[i].Passing? || s.threads[i].Passed?) ==> s.count == 0)
  }

  lemma {:induction false} WakingTakesNothing(threads: seq<Thread>, n: nat)
    requires n <= |threads|
    ensures SumTo(WakeAll(threads), TookLast, n) == SumTo(threads, TookLast, n)
    ensures SumTo(WakeAll(threads), InVain, n) == SumTo(threads, InVain, n)
  {
    if n > 0 {
      WakingTakesNothing(threads, n - 1);
    }
  }

  lemma StillAsleep(threads: seq<Thread>, i: nat, t: Thread)
    requires i < |threads| && !t.Asleep?
    ensures SomeAsleep(threads[i := t]) ==> SomeAsleep(threads)
  {}

  /** The broadcast leaves nobody asleep. */
  lemma InvBroadcast(n: nat, s: State, i: nat)
    requires Inv(n, s) && StepEnabled(s, i) && Broadcasts(s.threads[i])
    ensures Inv(n, StepThread(s, i))
  {
    var last := Finished(true, s.threads[i].lowered, true);
    var middle := s.threads[i := last];
    SumUpdate(s.threads, TookLast, i, last);
    SumUpdate(s.threads, InVain, i, last);
    WakingTakesNothing(middle, |middle|);
    assert StepThread(s, i).threads == WakeAll(middle);
  }

  lemma InvThread(n: nat, s: State, i: nat)
    requires Inv(n, s) && StepEnabled(s, i) && !Broadcasts(s.threads[i]) && !s.threads[i].Counting?
    ensures Inv(n, StepThread(s, i))
  {
    var after := StepThread(s, i);
    SumUpdate(s.threads, TookLast, i, after.threads[i]);
    SumUpdate(s.threads, WillBroadcast, i, after.threads[i]);
    SumUpdate(s.threads, InVain, i, after.threads[i]);
    if !after.threads[i].Asleep? {
      StillAsleep(s.threads, i, after.threads[i]);
    }
  }

  /** A thread goes through the switch. */
  lemma InvSwitch(n: nat, s: State, i: nat)
    requires Inv(n, s) && StepEnabled(s, i) && s.threads[i].Counting?
    ensures Inv(n, StepThread(s, i))
  {
    var after := StepThread(s, i);
    SumUpdate(s.threads, TookLast, i, after.threads[i]);
    SumUpdate(s.threads, WillBroadcast, i, after.threads[i]);
    SumUpdate(s.threads, InVain, i, after.threads[i]);
    StillAsleep(s.threads, i, after.threads[i]);
  }

  lemma InvSpawn(n: nat, s: State, t: Thread)
    requires Inv(n, s) && (t.Arriving? || t.Coming?)
    ensures Inv(n, s.(threads := s.threads + [t]))
  {
    SumAppend(s.threads, TookLast, t);
    SumAppend(s.threads, WillBroadcast, t);
    SumAppend(s.threads, InVain, t);
    var after := s.(threads := s.threads + [t]);
    forall j | 0 <= j < |after.threads| && after.threads[j].Asleep?
      ensures j < |s.threads| && s.threads[j].Asleep?
    {}
  }

  lemma InvStep(n: nat, s: State, a: Action)
    requires Inv(n, s) && Enabled(s, a)
    ensures Inv(n, Apply(s, a))
  {
    match a
    case CountDown => InvSpawn(n, s, Arriving);
    case Wait => InvSpawn(n, s, Coming);
    case Step(i) =>
      if Broadcasts(s.threads[i]) {
        InvBroadcast(n, s, i);
      } else if s.threads[i].Counting? {
        InvSwitch(n, s, i);
      } else {
        InvThread(n, s, i);
      }
    case SpuriousWake(i) =>
      SumUpdate(s.threads, TookLast, i, Woken);
      SumUpdate(s.threads, WillBroadcast, i, Woken);
      SumUpdate(s.threads, InVain, i, Woken);
      StillAsleep(s.threads, i, Woken);
  }

  lemma {:induction false} InvRun(n: nat, s: State, run: seq<Action>)
    requires Inv(n, s) && Legal(s, run)
    ensures Inv(n, Exec(s, run))
    decreases |run|
  {
    if run != [] {
      InvStep(n, s, run[0]);
      InvRun(n, Apply(s, run[0]), run[1..]);
    }
  }

  // ----- every run

  /** The states of a latch made with count `n`; a count of zero makes none. */
  ghost predicate Reached(n: nat, s: State) {
    n > 0 && exists run :: Legal(Init(n), run) && s == Exec(Init(n), run)
  }

  lemma ReachedInv(n: nat, s: State)
    requires Reached(n, s)
    ensures Inv(n, s)
  {
    var run :| Legal(Init(n), run) && s == Exec(Init(n), run);
    InvRun(n, Init(n), run);
  }

  /** The count never wraps, and exactly one thread takes it to zero, as soon as `n`
      count-downs have happened. */
  lemma ExactlyOneSignals(n: nat, s: State)
    requires Reached(n, s)
    ensures s.count + (if s.counted < n then s.counted else n) == n
    ensures Sum(s.threads, TookLast) == if s.counted >= n then 1 else 0
  {
    ReachedInv(n, s);
  }

  /** The switch lowers the count, by one, if and only if it is positive. */
  lemma SwitchLowers(s: State, i: nat)
    requires StepEnabled(s, i) && s.threads[i].Counting?
    ensures var after := StepThread(s, i);
            && after.threads[i].lowered == (s.count > 0)
            && after.count == s.count - (if after.threads[i].lowered then 1 else 0)
  {}

  /** Every count-down that has returned reported success, yet exactly those beyond the
      first `n` have lowered nothing. */
  lemma ResultIsAlwaysTrue(n: nat, s: State)
    requires Reached(n, s)
    ensures forall i :: 0 <= i < |s.threads| && s.threads[i].Finished? ==> s.threads[i].result
    ensures Sum(s.threads, InVain) == if s.counted > n then s.counted - n else 0
  {
    ReachedInv(n, s);
  }

  /** When all count-downs have returned, every one of them has a result that says whether
      it lowered the count, as documented, if and only if there were at most `n`. */
  lemma ResultIsRight(n: nat, s: State)
    requires Reached(n, s)
    requires forall i :: 0 <= i < |s.threads| ==>
               !s.threads[i].Arriving? && !s.threads[i].Counting? && !s.threads[i].Counted? && !s.threads[i].Leaving?
    ensures (forall i :: 0 <= i < |s.threads| && s.threads[i].Finished? ==> s.threads[i].result == s.threads[i].lowered)
            <==> s.counted <= n
  {
    ReachedInv(n, s);
    if s.counted > n {
      var i := SumWitness(s.threads, InVain, |s.threads|);
      assert s.threads[i].Finished?;
    } else {
      forall i | 0 <= i < |s.threads| && s.threads[i].Finished?
        ensures s.threads[i].lowered
      {
        SumMember(s.threads, InVain, i, |s.threads|);
      }
    }
  }

  lemma ReachedNext(n: nat, s: State, a: Action)
    requires Reached(n, s) && Enabled(s, a)
    ensures Reached(n, Apply(s, a))
  {
    var run :| Legal(Init(n), run) && s == Exec(Init(n), run);
    ExecMore(Init(n), run, a);
  }

  lemma {:induction false} ExecMore(s: State, run: seq<Action>, a: Action)
    requires Legal(s, run) && Enabled(Exec(s, run), a)
    ensures Legal(s, run + [a]) && Exec(s, run + [a]) == Apply(Exec(s, run), a)
    decreases |run|
  {
    if run == [] {
      assert run + [a] == [a] && [a][1..] == [];
    } else {
      assert (run + [a])[1..] == run[1..] + [a];
      ExecMore(Apply(s, run[0]), run[1..], a);
    }
  }

  lemma Next(n: nat, s: State, a: Action) returns (after: State)
    requires Reached(n, s) && Enabled(s, a)
    ensures Reached(n, after) && after == Apply(s, a)
  {
    ReachedNext(n, s, a);
    after := Apply(s, a);
  }

  /** A count-down that runs from its start to its return while nobody waits. */
  lemma CountDownAlone(n: nat, s: State) returns (after: State)
    requires Reached(n, s) && s.holder == None && forall i :: 0 <= i < |s.threads| ==> s.threads[i].Finished?
    ensures Reached(n, after) && after.holder == None
    ensures after.threads == s.threads + [Finished(s.count == 1, s.count > 0, true)]
    ensures after.count == if s.count > 0 then s.count - 1 else 0
  {
    var i := |s.threads|;
    after := Next(n, s, CountDown);
    after := Next(n, after, Step(i));
    after := Next(n, after, Step(i));
    after := Next(n, after, Step(i));
    after := Next(n, after, Step(i));
  }

  /** The input on which the result is wrong: a second count-down of a latch made with one
      lowers nothing and reports success. */
  lemma CountDownAtZero() returns (s: State)
    ensures Reached(1, s) && s.count == 0
    ensures s.threads == [Finished(true, true, true), Finished(false, false, true)]
  {
    assert Legal(Init(1), []) && Exec(Init(1), []) == Init(1);
    s := CountDownAlone(1, Init(1));
    s := CountDownAlone(1, s);
  }

  /** A wait returns only after `n` count-downs, and nobody is left asleep at zero but for a
      broadcast that is about to happen. */
  lemma WaitReturnsAtZero(n: nat, s: State, i: nat)
    requires Reached(n, s) && i < |s.threads|
    ensures s.threads[i].Passed? ==> s.counted >= n
    ensures s.counted >= n && s.threads[i].Asleep? ==> Sum(s.threads, WillBroadcast) > 0
  {
    ReachedInv(n, s);
  }

  /** No thread can move. */
  ghost predicate AtRest(s: State) {
    forall i :: 0 <= i < |s.threads| ==> !StepEnabled(s, i)
  }

  /** When no thread can move, all count-downs have returned, and the waits have either all
      returned or all sleep, according to whether there were `n` count-downs. */
  lemma QuiescentMeansDone(n: nat, s: State)
    requires Reached(n, s) && AtRest(s)
    ensures forall i :: 0 <= i < |s.threads| ==>
              s.threads[i].Finished? || (if s.counted >= n then s.threads[i].Passed? else s.threads[i].Asleep?)
  {
    ReachedInv(n, s);
    if s.holder.Some? {
      assert StepEnabled(s, s.holder.value);
      assert false;
    }
    forall i | 0 <= i < |s.threads|
      ensures s.threads[i].Finished? || s.threads[i].Passed? || s.threads[i].Asleep?
    {
      assert !StepEnabled(s, i) && !InSection(s.threads[i]);
    }
    if s.count == 0 && SomeAsleep(s.threads) {
      SumOfZeros(s.threads, WillBroadcast, |s.threads|);
    }
  }

  /** Steps that a thread can still take while the count is positive, if nothing wakes it
      and the count does not change, with room for what it can take after that. */
  function OpenRank(t: Thread): nat {
    match t
    case Coming => 7
    case Woken => 7
    case Testing => 6
    case Asleep => 5
    case _ => Rank(t)
  }

  /** Steps that a thread can still take once the count is zero. */
  function Rank(t: Thread): nat {
    match t
    case Arriving => 4
    case Counting => 3
    case Counted(signal, lowered) => 2
    case Leaving(signal, lowered) => 1
    case Finished(signal, lowered, result) => 0
    case Asleep => 4
    case Coming => 3
    case Woken => 3
    case Testing => 2
    case Passing => 1
    case Passed => 0
  }

  lemma RankStep(s: State, a: Action)
    requires s.count == 0 && Enabled(s, a) && (a.Step? || a.SpuriousWake?)
    ensures Sum(Apply(s, a).threads, Rank) < Sum(s.threads, Rank) && Apply(s, a).count == 0
  {
    var i := a.i;
    if a.Step? && Broadcasts(s.threads[i]) {
      var last := Finished(true, s.threads[i].lowered, true);
      var middle := s.threads[i := last];
      SumUpdate(s.threads, Rank, i, last);
      SumPointwise(WakeAll(middle), Rank, middle, Rank, |middle|);
      assert Apply(s, a).threads == WakeAll(middle);
    } else {
      SumUpdate(s.threads, Rank, i, Apply(s, a).threads[i]);
    }
  }

  function Measure(s: State): nat {
    if s.count == 0 then Sum(s.threads, Rank) else Sum(s.threads, OpenRank)
  }

  /** The thread that takes the count to zero lowers what the others can still do. */
  lemma MeasureLast(s: State, i: nat)
    requires StepEnabled(s, i) && s.threads[i].Counting? && s.count == 1
    ensures Measure(StepThread(s, i)) < Measure(s)
  {
    var after := StepThread(s, i).threads;
    SumUpdate(s.threads, OpenRank, i, after[i]);
    SumPointwise(after, Rank, after, OpenRank, |after|);
  }

  /** The broadcast happens at zero. */
  lemma BroadcastAtZero(n: nat, s: State, i: nat)
    requires Inv(n, s) && i < |s.threads|
    ensures Broadcasts(s.threads[i]) ==> s.count == 0
  {
    SumMember(s.threads, TookLast, i, |s.threads|);
  }

  lemma MeasureThread(n: nat, s: State, i: nat)
    requires Inv(n, s) && StepEnabled(s, i)
    ensures Measure(StepThread(s, i)) < Measure(s)
  {
    BroadcastAtZero(n, s, i);
    if s.count == 0 {
      RankStep(s, Step(i));
    } else if s.threads[i].Counting? && s.count == 1 {
      MeasureLast(s, i);
    } else {
      SumUpdate(s.threads, OpenRank, i, StepThread(s, i).threads[i]);
    }
  }

  lemma MeasureStep(n: nat, s: State, a: Action)
    requires Inv(n, s) && Enabled(s, a)
    ensures Measure(Apply(s, a)) <
            Measure(s) + (if a.CountDown? || a.Wait? then 8 else if a.SpuriousWake? then 3 else 0)
  {
    match a
    case CountDown =>
      SumAppend(s.threads, Rank, Arriving);
      SumAppend(s.threads, OpenRank, Arriving);
    case Wait =>
      SumAppend(s.threads, Rank, Coming);
      SumAppend(s.threads, OpenRank, Coming);
    case Step(i) => MeasureThread(n, s, i);
    case SpuriousWake(i) =>
      SumUpdate(s.threads, Rank, i, Woken);
      SumUpdate(s.threads, OpenRank, i, Woken);
  }

  function Arrivals(run: seq<Action>): nat {
    if run == [] then 0 else (if run[0].CountDown? || run[0].Wait? then 1 else 0) + Arrivals(run[1..])
  }

  function SpuriousWakes(run: seq<Action>): nat {
    if run == [] then 0 else (if run[0].SpuriousWake? then 1 else 0) + SpuriousWakes(run[1..])
  }

  lemma {:induction false} RunIsBounded(n: nat, s: State, run: seq<Action>)
    requires Inv(n, s) && Legal(s, run)
    ensures |run| <= Measure(s) + 8 * Arrivals(run) + 3 * SpuriousWakes(run)
    decreases |run|
  {
    if run != [] {
      MeasureStep(n, s, run[0]);
      InvStep(n, s, run[0]);
      RunIsBounded(n, Apply(s, run[0]), run[1..]);
    }
  }

  /** Every latch comes to rest: the length of a run is bounded by the state it starts from
      and the arrivals and spurious wake-ups on the way. What it has come to by then is said
      by `QuiescentMeansDone`. */
  lemma LatchComesToRest(n: nat, s: State, run: seq<Action>)
    requires Reached(n, s) && Legal(s, run)
    ensures |run| <= Measure(s) + 8 * Arrivals(run) + 3 * SpuriousWakes(run)
  {
    ReachedInv(n, s);
    RunIsBounded(n, s, run);
  }

  /** Once the count is zero, the threads there are come to rest after a bounded number of
      steps. */
  lemma {:induction false} ZeroTerminates(s: State, run: seq<Action>)
    requires s.count == 0 && Legal(s, run)
    requires forall k :: 0 <= k < |run| ==> run[k].Step? || run[k].SpuriousWake?
    ensures |run| <= Sum(s.threads, Rank)
    decreases |run|
  {
    if run != [] {
      RankStep(s, run[0]);
      ZeroTerminates(Apply(s, run[0]), run[1..]);
    }
  }

  // ----- the calls of a run

  /** The calls that a run begins, in order: true for a count-down, false for a wait. */
  function Calls(run: seq<Action>): seq<bool> {
    if run == [] then []
    else (if run[0].CountDown? then [true] else if run[0].Wait? then [false] else []) + Calls(run[1..])
  }

  function CountDowns(calls: seq<bool>): nat {
    Sum(calls, One)
  }

  function One(call: bool): nat {
    if call then 1 else 0
  }

  /** The thread is somewhere in a count-down, not in a wait. */
  predicate CountsDown(t: Thread) {
    t.Arriving? || t.Counting? || t.Counted? || t.Leaving? || t.Finished?
  }

  function Kinds(s: State): (kinds: seq<bool>)
    ensures |kinds| == |s.threads|
  {
    seq(|s.threads|, i requires 0 <= i < |s.threads| => CountsDown(s.threads[i]))
  }

  lemma KindsStep(s: State, a: Action)
    requires Enabled(s, a)
    ensures Kinds(Apply(s, a)) == Kinds(s) + (if a.CountDown? then [true] else if a.Wait? then [false] else [])
  {}

  lemma Regroup<T>(a: seq<T>, b: seq<T>, c: seq<T>)
    ensures a + b + c == a + (b + c)
  {}

  lemma {:induction false} KindsRun(s: State, run: seq<Action>)
    requires Legal(s, run)
    ensures Kinds(Exec(s, run)) == Kinds(s) + Calls(run)
    decreases |run|
  {
    if run != [] {
      KindsStep(s, run[0]);
      KindsRun(Apply(s, run[0]), run[1..]);
      Regroup(Kinds(s), if run[0].CountDown? then [true] else if run[0].Wait? then [false] else [], Calls(run[1..]));
    }
  }

  /** The count-down has gone through the switch. */
  function Switched(t: Thread): nat {
    if t.Counted? || t.Leaving? || t.Finished? then 1 else 0
  }

  lemma {:induction false} WakingSwitchesNothing(threads: seq<Thread>, n: nat)
    requires n <= |threads|
    ensures SumTo(WakeAll(threads), Switched, n) == SumTo(threads, Switched, n)
  {
    if n > 0 {
      WakingSwitchesNothing(threads, n - 1);
    }
  }

  lemma TalliedThread(s: State, i: nat)
    requires StepEnabled(s, i) && s.counted == Sum(s.threads, Switched)
    ensures StepThread(s, i).counted == Sum(StepThread(s, i).threads, Switched)
  {
    if Broadcasts(s.threads[i]) {
      var last := Finished(true, s.threads[i].lowered, true);
      SumUpdate(s.threads, Switched, i, last);
      WakingSwitchesNothing(s.threads[i := last], |s.threads|);
    } else {
      SumUpdate(s.threads, Switched, i, StepThread(s, i).threads[i]);
    }
  }

  lemma TalliedStep(s: State, a: Action)
    requires Enabled(s, a) && s.counted == Sum(s.threads, Switched)
    ensures Apply(s, a).counted == Sum(Apply(s, a).threads, Switched)
  {
    match a
    case CountDown => SumAppend(s.threads, Switched, Arriving);
    case Wait => SumAppend(s.threads, Switched, Coming);
    case Step(i) => TalliedThread(s, i);
    case SpuriousWake(i) => SumUpdate(s.threads, Switched, i, Woken);
  }

  lemma {:induction false} TalliedRun(s: State, run: seq<Action>)
    requires Legal(s, run) && s.counted == Sum(s.threads, Switched)
    ensures Exec(s, run).counted == Sum(Exec(s, run).threads, Switched)
    decreases |run|
  {
    if run != [] {
      TalliedStep(s, run[0]);
      TalliedRun(Apply(s, run[0]), run[1..]);
    }
  }

  /** Call `i` and thread `i` are of one kind. */
  ghost predicate Matches(s: State, calls: seq<bool>) {
    |s.threads| == |calls| && forall i :: 0 <= i < |calls| ==> CountsDown(s.threads[i]) == calls[i]
  }

  ghost predicate NoneUnderWay(s: State) {
    forall i :: 0 <= i < |s.threads| && CountsDown(s.threads[i]) ==> s.threads[i].Finished?
  }

  lemma SwitchedAreCalls(s: State, calls: seq<bool>)
    requires Matches(s, calls)
    ensures Sum(s.threads, Switched) <= CountDowns(calls)
    ensures NoneUnderWay(s) ==> Sum(s.threads, Switched) == CountDowns(calls)
  {
    SumPointwise(s.threads, Switched, calls, One, |calls|);
    if NoneUnderWay(s) {
      SumPointwise(calls, One, s.threads, Switched, |calls|);
    }
  }

  lemma RunReaches(n: nat, run: seq<Action>)
    requires n > 0 && Legal(Init(n), run)
    ensures Reached(n, Exec(Init(n), run))
  {}

  lemma CallsMatch(n: nat, run: seq<Action>)
    requires Legal(Init(n), run)
    ensures Matches(Exec(Init(n), run), Calls(run))
  {
    var s := Exec(Init(n), run);
    KindsRun(Init(n), run);
    assert Kinds(s) == Calls(run);
    forall i | 0 <= i < |Calls(run)|
      ensures CountsDown(s.threads[i]) == Calls(run)[i]
    {
      assert Kinds(s)[i] == Calls(run)[i];
    }
  }

  /** Call `i` of a run and thread `i` are of one kind, and the count-downs that have gone
      through the switch are count-downs of the run: all of them, once none is under way. */
  lemma CallsOfRun(n: nat, run: seq<Action>)
    requires Legal(Init(n), run)
    ensures var s := Exec(Init(n), run);
            && Matches(s, Calls(run))
            && s.counted <= CountDowns(Calls(run))
            && (NoneUnderWay(s) ==> s.counted == CountDowns(Calls(run)))
  {
    CallsMatch(n, run);
    TalliedRun(Init(n), run);
    SwitchedAreCalls(Exec(Init(n), run), Calls(run));
  }

  /** A wait of a run returns only if the run has begun `n` count-downs. */
  lemma WaitBlocks(n: nat, run: seq<Action>, i: nat)
    requires n > 0 && Legal(Init(n), run) && i < |Calls(run)| && !Calls(run)[i]
    ensures i < |Exec(Init(n), run).threads| && !CountsDown(Exec(Init(n), run).threads[i])
    ensures Exec(Init(n), run).threads[i].Passed? ==> CountDowns(Calls(run)) >= n
  {
    CallsOfRun(n, run);
    RunReaches(n, run);
    WaitReturnsAtZero(n, Exec(Init(n), run), i);
  }

  /** When a run has come to rest, every count-down it began has returned true, and every
      wait has returned if it began `n` count-downs and sleeps if it began fewer. */
  lemma RunIsDone(n: nat, run: seq<Action>)
    requires n > 0 && Legal(Init(n), run)
    requires AtRest(Exec(Init(n), run))
    ensures var s := Exec(Init(n), run);
            && |s.threads| == |Calls(run)|
            && forall i :: 0 <= i < |s.threads| ==>
                 if Calls(run)[i] then s.threads[i].Finished? && s.threads[i].result
                 else if CountDowns(Calls(run)) >= n then s.threads[i].Passed?
                 else s.threads[i].Asleep?
  {
    var s := Exec(Init(n), run);
    RunReaches(n, run);
    QuiescentMeansDone(n, s);
    ResultIsAlwaysTrue(n, s);
    CallsOfRun(n, run);
  }
}
