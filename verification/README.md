# A Dafny model of the base library

The project models the parts of the library that hold state or share it between threads: the
worker pool and the countdown latch over one condition variable, the chained hash map with its
rehash, reference counting with the release cascade, the linked list and the growable array,
path parsing and printing, strings, the FNV-1a hash and the power-of-two sizing of buffers.

| file | models |
|---|---|
| `PoolModel.dfy` | the worker pool as atomic steps of workers, posters, the shutdown and the collection |
| `PoolInvariants.dfy`, `PoolTasks.dfy` | what every one of those steps keeps |
| `PoolProgress.dfy`, `PoolFate.dfy` | the worker pool over all runs; the fate of each task |
| `PoolExample.dfy` | runs in which a task is never executed |
| `Latch.dfy` | the countdown latch, over the same monitor |
| `MapModel.dfy`, `Map.dfy` | the hash map: its meaning, and the class with rehashing |
| `ReleaseCascade.dfy` | retain, release and the cascade of deinits over a heap of objects |
| `References.dfy` | object identities, the ledger of references, allocation that may fail |
| `LinkedList.dfy`, `Array.dfy` | the containers, on heap nodes and on an array buffer |
| `Allocation.dfy`, `Words.dfy` | power-of-two sizes; shifts, or and exclusive or on words |
| `FilePath.dfy`, `Strings.dfy`, `Hash.dfy` | paths, strings and hashes |
| `Sums.dfy` | sums over the threads and tasks of a state |

**How threads are modelled.** A state holds the owner of the mutex, the place of every thread
and the shared fields; an action is one atomic step of one thread, and `Legal` and `Exec` range
over all interleavings. Waiting evaluates the predicate under the lock and releases the lock and
falls asleep in one step; a sleeper may wake at any time. Notifying one wakes a sleeper if there
is any. Posters keep their window between unlocking and notifying, and a worker fixes its
`is_running` before its last wait. Any number of posters run beside any number of workers.

**How failure is modelled.** In the map, the list, the array and in making and appending
strings, every place where the source allocates asks the ledger for memory. An unknown function
`grants` of the number of the request answers, and `asked` counts the requests, so contracts
hold for every pattern of failures and still say exactly when an operation succeeds.

**Assumptions.** Tasks terminate. One thread calls the shutdown, once, and no task drops the
last reference to the pool. The pool is collected when nobody posts any more. A map's `equal` is
an equivalence that its `hash` respects (shown for strings). A map releases the old value of a
key before it retains the new one; that the new one is alive then is assumed in `Map.dfy`, and
`ReleaseCascade.ObjectHeap.ExchangeSlot` says exactly when it is. The mutex and
condition-variable calls that the source wraps in assertions succeed.

**Where the code and its documentation differ.** The model follows the code.
- `src/kworker_pool.h:31-32` says that a posted task will be executed. A shutdown may leave
  tasks behind, and a post after it is accepted and never executed:
  `PoolExample.TaskIsNeverExecuted` and `PoolExample.LatePostIsNeverExecuted` are such runs.
  `PoolFate.FateAtShutdown` and `PoolFate.LatePostFate` say exactly which tasks are executed,
  and `PoolProgress.ShutdownDrain` how many are left.
- `src/kcountdown_latch.h:29` says that counting down reports whether the count was
  decremented. The code reports success at zero too: `Latch.CountDownAtZero` is such a run,
  `Latch.ResultIsRight` gives the exact condition.
- `src/kallocation.h:56-62` documents the next power of two without a bound. The code returns
  zero above 2^31; `Allocation.NextPowerOfTwoSizeIsLeast` gives the exact condition.
- Adding a path is not appending its text when the first string is empty or the added path is
  absolute; `FilePath.AddIsConcat` gives the exact condition.

## Model

| member | source | states |
|---|---|---|
| PoolProgress.ShutdownDrain | src/kworker_pool.c:65-80 | With n tasks queued, w workers and v of them inside the condition variable when `shutdown` is set, exactly max(0, n-w-v) tasks are left when the shutdown returns, on every interleaving; each task added meanwhile adds at most one. |
| PoolProgress.ShutdownDrainBounds | src/kworker_pool.c:131-142 | Wherever the workers were, between max(0, n-2w) and max(0, n-w) tasks are dropped if none is added after the flag is set. |
| PoolFate.TaskFate | src/kworker_pool.c:65-80 | On every interleaving, whatever is posted before, during or after: in any state with `shutdown` set, the task at position x of the list has run when the shutdown has returned, or at any later time, if and only if x is less than the attempts that the workers have left; then it ran once. |
| PoolFate.FateAtShutdown | src/kworker_pool.c:131-142 | A task added before the flag has run when the shutdown has returned if and only if it had left the list or was among its first w+v at the flag. |
| PoolFate.LatePostFate | src/kworker_pool.c:106-124 | A task added after the flag, even after the shutdown has returned, is executed if and only if the list at that moment is shorter than the attempts that are left. |
| PoolFate.FateStep | src/kworker_pool.c:65-142 | Every step of every thread keeps a listed task in or out of reach of the workers, or takes it off the list: to a worker if it was in reach, dropped if not. |
| PoolFate.ShutdownDropsNothingIff | src/kworker_pool.c:131-142 | Whatever is added meanwhile, every task added before `shutdown` is set has run when the shutdown returns if and only if n <= w+v at the flag; if nothing is added, this is also when the list ends empty. |
| PoolExample.OneTaskTooMany | src/kworker_pool.c:106-142 | The input on which "will be executed" fails: one worker that has not yet run, two posts, then a shutdown. In that reachable state the drain formula gives one task. |
| PoolExample.TaskIsNeverExecuted | src/kworker_pool.c:65-142 | The same run to its end: the shutdown has returned and the second task, though posted before it began, is still in the list and has never run. |
| PoolExample.LatePostIsNeverExecuted | src/kworker_pool.c:106-124 | The other failing input: after a shutdown with nothing queued has returned, a post goes through to its end, and in no continuation is its task executed. |
| PoolProgress.IdleShutdownDropsNothing | src/kworker_pool.c:60-80 | If some worker sleeps and every post has been notified when `shutdown` is set, no task is dropped. |
| PoolProgress.SurplusStep | src/kworker_pool.c:65-80 | Once `shutdown` is set, the number of tasks the workers will not get to is conserved by every step of every thread except that an addition may raise it by one. |
| PoolProgress.NoLostWakeUp | src/kworker_pool.c:117-122 | In every reachable state with a sleeping worker, the queue is no longer than the posts between their addition and their notification plus the workers on their way to the list. |
| PoolProgress.AttendedStep | src/kcondition_variable.c:80-110 | That bound is inductive over posts, notifications, spurious wake-ups, sleeping, removals and the shutdown. |
| PoolProgress.InvStep | src/kworker_pool.c:65-142 | Every step of every thread keeps mutual exclusion, the order of the shutdown, the join discipline, the bookkeeping of tasks and the bound above. |
| PoolProgress.InvRun | src/kworker_pool.c:65-142 | So does every run, of any length. |
| PoolProgress.NobodySleepsAgain | src/kworker_pool.c:60-72 | Once `shutdown` is set no worker falls asleep, and after the broadcast none is asleep. |
| PoolProgress.MeasureStep | src/kworker_pool.c:65-80 | A measure of the whole state falls with every step after `shutdown` is set, other than the start of another post. |
| PoolProgress.ShutdownTerminates | src/kworker_pool.c:131-142 | From any reachable state with `shutdown` set, every run is at most as long as that measure and eight times the posts that start on the way. |
| PoolProgress.ShutdownCanMove | src/kworker_pool.c:131-142 | A shutdown that has begun and not returned is never deadlocked: some thread can take a step of its own. |
| PoolProgress.QuiescentMeansDone | src/kworker_pool.c:60-80 | If no worker and no poster can move before a shutdown, every worker sleeps and every post has been notified, and if there is a worker at all the queue is empty and every posted task has been executed exactly once. |
| PoolProgress.OpenPoolComesToRest | src/kworker_pool.c:65-80 | An open pool gets to such a state: a run without a shutdown is bounded by a measure of its first state, the posts that start and the spurious wake-ups that happen on the way. |
| PoolProgress.OpenStep | src/kworker_pool.c:65-80 | Before a shutdown, every step of a worker or a poster lowers that measure; a new post and a spurious wake-up raise it by a constant. |
| PoolProgress.FirstInFirstOut | src/kworker_pool.c:72-79 | On every interleaving the tasks added are those removed followed by those queued, in order and without repetition, and no task is executed twice. |
| PoolProgress.AfterShutdown | src/kworker_pool.c:131-142 | When the shutdown has returned, every added task was executed once, or never and is still queued or was dropped with the warning; every worker has ended and every thread was joined exactly once and freed. |
| PoolProgress.ReferencesBalance | src/kworker_pool.c:25-37 | For every post of every run, whichever of poster and worker releases its task last: the task is deinitialised exactly when its post has let go of it and it is finished or dropped, and never twice; by then the pool has retained and released the user data once if the post passed some, and never otherwise, and the deinit sees a task pointer exactly if the task never ran. |
| PoolProgress.PostsOfRun | src/kworker_pool.c:113-116 | The tasks of a run are those of its posts, in order, and each records whether its post passed user data. |
| PoolProgress.CalledWithItsData | src/kworker_pool.c:32-33 | A worker about to call a task finds its procedure, and user data if and only if the post passed some; the reference on them is still held. |
| PoolTasks.TasksOkStep | src/kworker_pool.c:72-78 | Every step keeps the order of tasks, the pairing of held tasks with the workers that hold them, and the reference count, execution count and field contents of every task. |
| PoolInvariants.ExclusiveStep | src/kcondition_variable.c:128-156 | Every step keeps that a thread is in the critical section if and only if it holds the mutex. |
| PoolInvariants.OrderlyStep | src/kworker_pool.c:65-80 | Every step keeps that a worker leaving its loop has seen the flag, that sleepers have not, that nobody sleeps after the broadcast and that a thread is joined only when it has ended. |
| PoolInvariants.ServedStep | src/kworker_pool.c:60-74 | Every step keeps that, until `shutdown` is set, a worker let through by the predicate finds a task and no task is dropped. |
| PoolInvariants.JoinedOnceStep | src/kthread.c:111-132 | Every step keeps that a thread is joined once, by the shutdown, although its deinit joins again, and that the handshake of `KThreadMain` and the pool's own reference account for its count. |
| Latch.ExactlyOneSignals | src/kcountdown_latch.c:31-53 | On every interleaving the count is max(0, N - count-downs), and exactly one thread takes it to zero, when N count-downs have happened; none before. |
| Latch.SwitchLowers | src/kcountdown_latch.c:37-47 | The switch lowers the count, by one, if and only if it is positive. |
| Latch.ResultIsAlwaysTrue | src/kcountdown_latch.c:31-53 | On every interleaving every count-down returns true, and exactly the count-downs beyond the first N lower nothing. |
| Latch.ResultIsRight | src/kcountdown_latch.h:29-31 | When no count-down is under way, all results so far say whether the count was decremented, as documented, if and only if there were at most N count-downs. |
| Latch.CountDownAtZero | src/kcountdown_latch.c:37-52 | The input on which the documented result fails: the second count-down of a latch made with one decrements nothing and returns true. |
| Latch.WaitReturnsAtZero | src/kcountdown_latch.c:55-67 | A wait returns only after N count-downs, and once N have happened nobody sleeps unless a broadcast is still to come. |
| Latch.QuiescentMeansDone | src/kcountdown_latch.c:31-67 | When no thread can move, every count-down has returned, and every wait has returned if there were N count-downs and sleeps if there were fewer. |
| Latch.RunIsDone | src/kcountdown_latch.c:31-67 | When any run has come to rest, every count-down call it began has returned true, and every wait call has returned if it began N count-downs and sleeps if it began fewer. |
| Latch.WaitBlocks | src/kcountdown_latch.c:59-67 | A wait call of a run never counts down, and returns only if the run has begun N count-downs. |
| Latch.CallsOfRun | src/kcountdown_latch.c:31-67 | The i-th thread executes the i-th call of the run, and the switch has been passed by as many threads as count-down calls, once none is under way, and by no more before. |
| Latch.LatchComesToRest | src/kcountdown_latch.c:31-67 | Every latch gets to such a state: a run is bounded by a measure of its first state and the arrivals and spurious wake-ups on the way. |
| Latch.MeasureStep | src/kcountdown_latch.c:31-67 | Every step of a thread lowers that measure, also before the count is zero; an arrival and a spurious wake-up raise it by a constant. |
| Latch.ZeroTerminates | src/kcountdown_latch.c:59-67 | Once the count is zero the threads present come to rest within a bounded number of steps, spurious wake-ups included. |
| Latch.InvRun | src/kcountdown_latch.c:31-67 | The invariant behind these holds in every state of every run. |
| Map.KMap.SetValue | src/kmap.c:204-210 | True if and only if key and value are given and the key is bound or the two requests for an entry and a node are granted; then the entry of an equal key has the new value under its old key object, or a new entry is behind the others. False leaves contents, buckets and references as they were. References change by exactly those of the entries gained and lost. If every request is granted, the count is below the bucket count afterwards, even when earlier rehashes failed. Book-keeping follows the history and the refused requests. |
| Map.KMap.GetValue | src/kmap.c:212-224 | For every history of sets and removes, across rehashes, the value set last for an equal key and not removed since, which is the value of an entry with an equal key; NULL if and only if there is none. |
| Map.KMap.RemoveValue | src/kmap.c:226-243 | True if and only if an equal key is bound; then the binding is gone, the count drops by one, the bucket count and all references stay, and the table is the old one without an entry of an equal key and holds exactly its references less. |
| Map.KMap.SetValueNoRehash | src/kmap.c:163-202 | Succeeds if and only if key and value are given and the key is bound or memory for an entry and a node is granted; a bound key needs none. The table gains the entry at its end or has one value replaced under the original key object, each with the exact change of references; a failure changes nothing. |
| Map.KMap.Insert | src/kmap.c:204-210 | The recursion of set and rehash ends even when earlier rehashes failed; success depends on the new entry alone, not on the rehash; when all requests are granted the count is below the bucket count afterwards, and the set triggers no rehash as long as the count stays below it. |
| Map.KMap.RehashIfNecessary | src/kmap.c:116-161 | Contents, count and references stay whatever fails part-way; a failed attempt leaves the buckets; a successful one splits every bucket in order, and doubles their number exactly once when the count had just reached it; it succeeds if all requests are granted, and the count is then below the bucket count; below the load limit nothing happens. |
| Map.KMap.Grow | src/kmap.c:121-160 | When the count equals the number of buckets, their number doubles exactly once if and only if every request is granted. In general it succeeds if every request is granted, and their number then exceeds the count; a failure leaves the buckets. The references held by the discarded map, old or new, all come back. |
| Map.KMap.CopyEntries | src/kmap.c:131-147 | The copied table is the concatenation of the buckets in visiting order, with a reference for every key and value copied; it can fail only if an allocation did. |
| Map.KMap.SwapBuckets | src/kmap.c:149-160 | After the swap, with the count untouched, the buckets are those of the same table over the larger count, and releasing the new map with the old buckets restores every reference. |
| Map.KMap.AllocWithBucketCount | src/kmap.c:64-100 | NULL if and only if no buckets are asked for or one of 2 + 2n requests is refused; otherwise an empty valid map of n buckets. |
| Map.KMap.New | src/kmap.c:102-104 | A new map has 16 buckets; NULL if and only if one of the 34 requests is refused. |
| Map.KMap.Scan | src/kmap.c:175-190 | The first match in the bucket of a key is the one entry of the whole table with an equal key. |
| Map.KMap.GetCount | src/kmap.c:245-250 | The stored count is the cardinality of the finite map that the history amounts to, and the sum of the bucket lengths. |
| Map.KMap.GetMaxBucketUtilization | src/kmap.c:259-272 | The result bounds every bucket length and is attained by one. |
| Map.RehashExplained | src/kmap.c:121-122 | Given what copying guarantees of the new map, a successful rehash keeps the book-keeping of doublings and copies true, and leaves the count below the new bucket count unless an allocation has failed. |
| Map.LinearRehashCost | src/kmap.c:45-47 | Over any run from a new map without failures, all rehashes copy fewer than 2n entries, n being the number of sets in the history, and the bucket count is 16·2^k, at most max(16, twice the largest count in the history), and above the count. |
| Map.Life | src/kmap.c:58-60 | Over the whole life of a map, from its creation through any sets and removes to its release and under any failures, the references left behind are exactly those of the removed entries, one on the key and one on the value of each. If nothing is refused, all sets succeed and all removes of bound keys. |
| Map.ExchangeValue | src/kmap.c:184-187 | Releasing the old value and retaining the new one leaves the ledger covering the updated table. |
| Map.LinkEntry | src/kmap.c:27-40 | Two requests decide whether the entry is linked. A new entry takes one reference on its key and one on its value, and gives both back if the list cannot take it. |
| Map.ReleaseBuckets | src/kmap.c:20-23 | The deinit of a map's buckets gives back exactly the references of all entries. |
| MapModel.ReplayMeansLastBinding | src/kmap.c:204-243 | Replaying any history of sets and removes gives the binding read off the history alone, and no two equal keys. |
| MapModel.CardinalityIsLength | src/kmap.c:245-250 | A table without equal keys is a finite map of as many bindings as it has entries. |
| MapModel.RehashSplitsInOrder | src/kmap.c:131-147 | Going from N to q·N buckets, new bucket j holds exactly the entries of old bucket j mod N that hash there, in the old relative order. |
| MapModel.RehashKeepsTable | src/kmap.c:131-156 | Entries re-inserted in visiting order land in the same buckets, in the same order, as the table itself over the larger count. |
| MapModel.NextKeyIsNew | src/kmap.c:142-145 | The entry the copy loop visits next has a key equal to none copied before, so every copy adds an entry and the count assertion cannot fail. |
| MapModel.FirstMatch | src/kmap.c:106-114 | Looking only into the bucket of a key's hash finds what a search of the whole table finds. |
| MapModel.BucketUpdate | src/kmap.c:184-188 | Replacing a value changes one slot of one bucket and nothing else. |
| MapModel.BucketRemove | src/kmap.c:231-241 | Removing a table entry removes one slot of one bucket and nothing else. |
| MapModel.ReleaseUndoes | src/kmap.c:143 | Releasing the buckets of a table gives back what acquiring its entries took, in whatever order they lie. |
| ReleaseCascade.ObjectHeap.Release | src/kobject.c:57-71 | In any heap the release of an owned reference ends, keeps every count equal to owners plus slots, and leaves alive exactly the objects that the remaining owners could reach before or that hung on a cycle; so exactly the reachable ones if and only if every cycle was reachable. |
| ReleaseCascade.ObjectHeap.ReleaseReference | src/kobject.c:57-71 | The cascade ends in any heap, cyclic or not; no object comes back to life, survivors keep their slots, nothing settles alive with count zero, and every set of objects that hold each other stays alive. |
| ReleaseCascade.ObjectHeap.ReleaseSlots | src/karray.c:72-80 | A deinit loop gives back each of its slots once, whatever dies on the way. |
| ReleaseCascade.ObjectHeap.New | src/kobject.c:23-41 | A new object has one owner, its creator, and disturbs no other count. |
| ReleaseCascade.ObjectHeap.Retain | src/kobject.c:46-55 | A retain adds one owner and keeps the ledger; of NULL it does nothing. |
| ReleaseCascade.ObjectHeap.AddSlot | src/karray.c:39-41 | A container that retains an object and stores it keeps the ledger, with no change of external owners. |
| ReleaseCascade.ObjectHeap.TakeSlot | src/klist.c:80-86 | A container that hands over a reference makes the caller its owner. |
| ReleaseCascade.ObjectHeap.ExchangeSlot | src/kmap.c:184-187 | Releasing the old object of a slot before retaining the new one finds the new one alive if and only if, without the slot, an owner reaches it or it hangs on a cycle, in particular if it has an owner; then the slot holds it and every other count is right. |
| ReleaseCascade.ExchangeOfNested | src/kmap.c:184-187 | The input on which this order fails: the old value is the only owner of the new one, which is dead when it is to be retained. |
| ReleaseCascade.ExactReclamation | src/kobject.c:57-71 | When the survivors are the reachable objects and those on cycles, they are exactly the reachable ones if and only if every cycle of the heap before the release is reachable. |
| ReleaseCascade.SurvivorsAre | src/kobject.c:57-71 | After any releases, the survivors are what the remaining owners could reach before them and what hung on a cycle then. |
| ReleaseCascade.ExactAtRest | src/kobject.c:57-71 | In any heap with a balanced ledger, exactly the reachable objects are alive if and only if every cycle of ownership is reachable. |
| ReleaseCascade.LiveIsReachableOrCyclic | src/kobject.c:57-71 | Every object alive is kept so by an external owner or hangs on a cycle. |
| ReleaseCascade.CycleLeaks | src/kobject.c:57-71 | The input on which reclamation fails: two objects are made, own each other and are released by their creator, and both are still alive although nobody can reach them. |
| LinkedList.KList.AddObject | src/klist.c:36-63 | True if and only if an object is given and the request for a node granted; then the object is appended and retained once, in a node of its own. False changes nothing. |
| LinkedList.KList.RemoveObjectAtIndex | src/klist.c:65-91 | At head, middle and tail the item leaves the sequence, its reference passes to the caller and the links stay mutually inverse; past the end nothing changes. |
| LinkedList.KList.Unlink | src/klist.c:71-86 | The pointer surgery leaves a well-linked chain from the root without the entry, and the count is its length. |
| LinkedList.KList.Append | src/klist.c:49-61 | The walk ends at the last node and the new one is linked behind it. |
| LinkedList.KList.GetObjectAtIndex | src/klist.c:93-105 | The item at that position of the sequence, NULL past the end. |
| LinkedList.KList.ContainsObject | src/klist.c:121-131 | True if and only if the very object occurs in the sequence. |
| LinkedList.KList.RemoveAllObjects | src/klist.c:140-158 | Every item is released once and the number removed is the count, so neither assertion of the list fires. |
| LinkedList.LinkedWithout | src/klist.c:72-86 | Bridging over one node of a chain with distinct nodes and inverse links gives such a chain without it. |
| LinkedList.LinkedWith | src/klist.c:52-58 | Linking a new node behind the last one gives such a chain with it. |
| Array.KArray.AddObject | src/karray.c:30-43 | Refused if and only if the object is NULL or the reallocation is; that changes nothing. Otherwise the slot written lies inside the buffer if and only if the elements fit in 2^31 bytes; then the object is appended and retained once, across reallocations that grow or shrink, and 8·length <= size < 16·length. |
| Array.KArray.RemoveObjectAtIndex | src/karray.c:45-56 | The item leaves the sequence and is released once, the later ones move up; out of range nothing changes. |
| Array.CloseGap | src/karray.c:51-53 | The shift loop closes the gap in place without losing or repeating a slot. |
| Array.KArray.GetObjectAtIndex | src/karray.c:58-63 | The item at that position of the sequence, NULL past the end. |
| Array.KArray.RemoveAllObjects | src/karray.c:72-80 | Every item is released once, the buffer keeps its size, and the former length is returned. |
| Array.KAllocation.Truncate | src/kallocation.c:24-40 | Succeeds if and only if the request is granted, and then keeps the common prefix in a buffer of the new size; a failure leaves buffer and size alone. |
| Allocation.NextPowerOfTwoSizeIsLeast | src/kallocation.c:53-67 | The bit smearing gives the least power of two not below its argument if and only if the argument is at most 2^31; above, the 32-bit sum is zero. |
| Allocation.TruncatedSizeFits | src/karray.c:34-36 | Passed through the 32-bit parameter, a byte count gets a buffer that holds it if and only if it is at most 2^31, and then one less than twice as large. |
| Allocation.SmearIsMask | src/kallocation.c:60-64 | The five shifts fill every position below the highest set bit, for every word. |
| Allocation.SmearStep | src/kallocation.c:60-64 | One shift by n doubles a run of n ones below the highest set bit. |
| FilePath.KFilePath.constructor | src/kfile_path.c:34-67 | The index loop finds the maximal runs without separators, and the path is absolute if and only if the string starts with a separator. |
| FilePath.KFilePath.AddComponent | src/kfile_path.c:69-84 | An absolute path is refused and nothing changes; the components of a relative one are appended, to any path, and a path added to itself is doubled; being absolute never changes. |
| FilePath.KFilePath.StringRepresentation | src/kfile_path.c:101-117 | The printing loop joins the components with the separator, behind one for an absolute path. |
| FilePath.PrintThenParse | src/kfile_path.c:101-117 | Parsing the printed form, with '/' or '\', gives back every constructible path. |
| FilePath.PrintUsesSeparator | src/kfile_path.c:106-114 | For every character asked for as separator, the printed form is the one with '/' with that character in place of each '/', and otherwise the same. |
| FilePath.ParseIsConstructible | src/kfile_path.c:45-66 | Whatever is parsed, components are nonempty and free of separators. |
| FilePath.NormaliseIsIdempotent | src/kfile_path.c:34-117 | Printing what was parsed is a normal form: doing it twice changes nothing. |
| FilePath.PrintIsCanonical | src/kfile_path.c:34-117 | Two strings have the same normal form if and only if they parse to the same path. |
| FilePath.NormaliseNeverLengthens | src/kfile_path.c:34-117 | The normal form is no longer than the string. |
| FilePath.AddIsConcat | src/kfile_path.c:69-84 | What is left after adding parse(t) to parse(s) is the parse of s, a separator and t, if and only if s is not empty and t either does not start with a separator or consists of separators. |
| Hash.Create | src/khash.c:12-19 | The loop computes the fold of the FNV-1a step from the offset basis over 64-bit words. |
| Hash.Fnv1aOfLast | src/khash.c:12-19 | The hash of a buffer is that of the buffer without its last byte, combined with that byte by exclusive or and multiplied by 1099511628211 modulo 2^64; that of the empty buffer is 14695981039346656037. |
| Hash.CombineMeans | src/khash.c:3-6 | What was combined with a word can be read off the result by exclusive or, and is the second word plus 0x9e3779b9 plus 64 times and a quarter of the first, modulo 2^64. |
| Hash.StringHashMeans | src/kstring.c:113-121 | The hash of a string is that of its bytes combined with 31. |
| Hash.StepIsBijective | src/khash.c:15-16 | For every byte the step is a bijection of the 64-bit state, with an explicit inverse. |
| Hash.BytesSeparate | src/khash.c:15-16 | From one state, different bytes lead to different states. |
| Hash.OneByteChangeNeverCollides | src/khash.c:12-19 | Two buffers of any length that differ in exactly one byte have different hashes. |
| Words.OrIsBitwise | src/kallocation.c:60-64 | The modelled or of two words has a bit exactly where one of them has it. |
| Words.XorIsBitwise | src/khash.c:15 | The modelled exclusive or has a bit exactly where one of the words, but not both, has it. |
| Words.ShrIsQuotient | src/kallocation.c:60-64 | The modelled shift to the right is the division by a power of two. |
| Words.XorTwice | src/khash.c:15 | Exclusive or with the same word undoes itself. |
| Strings.KString.Append | src/kstring.c:85-103 | Succeeds if and only if the reallocation is granted. The bytes of the suffix follow, also when the suffix is the string itself, with a NUL behind a nonempty result and inside the buffer; a failure changes nothing. |
| Strings.NewWithData | src/kstring.c:59-72 | A string of the given bytes if and only if object and buffer are granted; when only the object is, the bytes are copied to NULL if and only if there are any. |
| Strings.StringKeyingIsLawful | src/kstring.c:113-139 | String equality is equality of the bytes, an equivalence, and equal strings hash alike: strings are admissible map keys. |

## Left out

- Array.KArray.AddObject: promises nothing about the state after an overrun, which the model reports and the source does not notice.
- Map.KMap.RemoveValue: does not claim that the removed entry is freed, because the reference that the list hands over is not released by the source; the ledger keeps counting it.
- Map.KMap.SetValue: the load factor is the comparison of two integers; the source divides doubles, which makes the same comparison for counts below 2^53.
- Strings.NewWithData: promises nothing about the state after a copy to NULL, which the model reports and the source does not notice.
- The buckets of a map are sequences of entry values, so the map's array, lists and entry objects are not `KArray` and `KList` objects on the heap; an update of `entry->value` in place is an update of the sequence.
- The ledger counts the references that containers hold; that an object dies when its count reaches zero is modelled in the release cascade alone, whose slots stand for the array items, list items, map buckets and entry fields.
- The pool and the latch are values that atomic steps transform, not objects; the two writes and the release after a task's call are one step, which no other thread can observe.
- NULL receivers, callbacks and task procedures: those functions return false, zero or NULL at once. A NULL key, value, object or path argument is modelled.
- ReleaseCascade.ObjectHeap.New: assumes that the memory can be had; the source returns NULL otherwise, with no other effect.
- A refused allocation inside `KArrayNew`: the array object and its `KAllocation` are one request.
- The construction of a pool or thread and its failures; every run begins with all workers created and none yet past its handshake. An allocation failure while posting is not modelled.
- The second shutdown that the collection of a pool performs: its worker array is empty by then.
- Reference counts at or above 2^32, `size_t` wrap-around of lengths, and an allocation of zero bytes that yields NULL.
- Atomicity of the reference count itself: each count changes in one step.
- `KArrayIterate`, `KListIterate` with its index that starts at one, and callbacks or deinits that change the container being walked.
- Strings that change while they are map keys.
- `printf` formatting; the separator is a one-character string.
- Autorelease pools, file handles, memory mappings, logging, time, sleeping, thread identifiers, semaphores and plain mutexes: wrappers of the operating system or thin layers over the containers.
