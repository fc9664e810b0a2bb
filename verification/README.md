# Verified model of the kernel barrier and the LED ring driver

This Dafny project models two parts of the repository and proves what they are for.

**The barrier system calls** (`Project4/barrier.patch`, `barrier_sys.c` inside the patch; client `Project4/user.c`).
A reusable barrier: a counter `left`, a gate `cond_flag`, a mutex, a one-shot timer that can end a round early, and
a global list of barriers.

- `BarrierMachine.dfy`: a transition system over any number of threads. One step is one access of `barrier_wait` to
  shared state; the gate test and the taking of the mutex are separate steps. The timer callback is two further steps
  (its store to `cond_flag`, its store to `timeout_flag`) that take no mutex and may run between any two others.
  `left` and `sync_num` are 32-bit and wrap.
- `BarrierInvariant.dfy`, `BarrierRuns.dfy`: the inductive invariant and its lifting to every schedule.
- `BarrierSafety.dfy`, `BarrierAccounting.dfy`: conservation, rounds, gate, timer, return codes.
- `BarrierScenarios.dfy`: concrete runs that show where a property ends.
- `BarrierRefinement.dfy`: the machine refines an abstract barrier with an atomic release.
- `BarrierClient.dfy`: the client in which each thread makes K calls: safety, drift, deadlock freedom, termination.
- `BarrierSchedules.dfy`: which events can come next in any run, that the gate stops newcomers, and the timer
  expiring under the last thread.
- `BarrierMoves.dfy`, `BarrierDeadlock.dfy`: rounds built thread by thread; when fewer or more threads than the count
  get stuck.
- `BarrierPromise.dfy`: exactly when the documented return codes are kept and when -ETIME is returned at all.
- `KernelBarrier.dfy`: `struct barrier` as a class updated in place by the statements of the source.
- `Registry.dfy`: init, lookup and destroy on the list, and histories of such calls.

**The WS2812 ring** (`Project3/part1`). `Ws2812.dfy` models the symbol encoder, its persistent frame and a receiver
that sees only how long the wire stays high. `RingUser.dfy` models the user program that rotates and writes the frame.

## Assumptions

- The count is positive, and at least two where a lemma says so. `ConservationExactly` and `GateWedgesExactly` say
  what happens below: count 0 makes `left--` wrap, count 1 wedges the gate for good.
- `timeout_flag` is not initialised by `barrier_init`; its first value is a parameter (`garbage`), and the lemmas say
  which first-round results depend on it.
- On one processor the callback runs without threads in between. Nothing but return codes and `timeout_flag` depends
  on it: those lemmas ask that the history is not `torn` (no sleeper ran its exit section between the callback's two
  stores), and `AtomicCallbackNeverTears` shows that an uninterrupted callback guarantees it. Without that proviso, a
  drained barrier can be left with `timeout_flag` set if and only if it has a timeout (`StaleFlagExactly`), and the
  count of zeros in every finished round is as `ReturnCodes` says if and only if it has none (`ReturnCodesExactly`).
  `hrtimer_cancel` waits for a callback in progress.
- No signals: the results of `wait_event_interruptible` and `mutex_lock_interruptible` are ignored by the source and
  the waits are taken to end only when their condition holds. `wait_event` is a guarded step, the mutex a holder field.
- A barrier is not destroyed while a thread is between its lookup and its return.

## Where the code and its documentation differ

Project4/README.md:25 promises -ETIME when a timeout arose. In a timed-out round the code returns 0 to exactly one
sleeper, the one that resets the barrier, because it clears `timeout_flag` before testing it, and to the threads that
take the last-thread branch (`CallReturns`, `ReturnCodes`; `TimedOutCallReturnsZero` is such a run). A call keeps the
promise exactly under the condition of `CallMeetsReadmeExactly`. All rounds of all runs with an uninterrupted callback
keep it to their sleepers if and only if the barrier has no timeout and, should the uninitialised `timeout_flag` happen
to be set, the count is two or there are fewer threads than the count (`ReadmePromiseExactly`). Reading the flag before
the reset would keep it (`EarlyReadSeesRound`, `EarlyReadMeetsReadme`).

With that flag set and a count of three or more, -ETIME is also returned without any timeout (`GarbageReportsTimeout`
is such a run). While the callback is not interrupted, a barrier of count two never returns it, timed or not
(`CountTwoReturnsZero`), and `TimeoutReportedExactly` says for every client whether it can be returned at all.

Project4/README.md:16 gives the count as the number of threads to synchronise. Without a timeout a client with fewer
or with more threads can get stuck, and only such a client (`DeadlockFreeExactly`).

## Model

| member | source | states |
|---|---|---|
| BarrierInvariant.InitInv | Project4/barrier.patch:961-980 | A freshly initialised barrier of positive count satisfies the whole invariant, whatever `timeout_flag` held |
| BarrierInvariant.RunConserved | Project4/barrier.patch:1042-1071 | Each statement of any thread keeps `left` + threads inside = count, and `left` is 0 only under the mutex in the deciding statements |
| BarrierInvariant.StepInv | Project4/barrier.patch:915-1096 | Every statement of every thread and both callback stores keep the invariant: mutual exclusion, conservation, gate and timer protocol, rounds |
| BarrierRuns.ReachableInv | Project4/barrier.patch:915-1096 | The invariant holds at every state of every run, any number of threads, any timer behaviour |
| BarrierSafety.CounterNeverWraps | Project4/barrier.patch:1029-1071 | In every run `left` + inside = count; with the mutex free `left` is between 1 and the count; `left--` and `left++` never wrap |
| BarrierSafety.ConservationExactly | Project4/barrier.patch:1042-1071 | Conservation holds of all runs if and only if the count is positive |
| BarrierScenarios.ZeroCountUnderflows | Project4/barrier.patch:1042 | A concrete run with count 0 in which `left--` wraps to 2^32 - 1 |
| BarrierSafety.NoLapping | Project4/barrier.patch:1042-1082 | A thread inside carries the current round number; the gate reopens and `sync_num` moves only with nobody inside and `left` at the count |
| BarrierSafety.RoundHeldOpen | Project4/barrier.patch:1045-1082 | Whatever others and the timer do while a thread is inside, its round stays current and an opened gate stays open for it: no missed release, no carry-over |
| BarrierSafety.SelfRestoration | Project4/barrier.patch:961-968 | A drained barrier equals a freshly initialised one except for `sync_num`, after full and timed-out rounds alike; `timeout_flag` too, without a timeout or in an untorn history |
| BarrierSafety.StaleFlagExactly | Project4/barrier.patch:919-921 | Some run drains the barrier after a round with `timeout_flag` still set if and only if the barrier has a timeout |
| BarrierScenarios.FlagLandsAfterReset | Project4/barrier.patch:919-921 | A concrete run in which the callback's second store comes after the reset: the drained barrier keeps `timeout_flag` set |
| BarrierSafety.TimerDiscipline | Project4/barrier.patch:1029-1055 | The timer is never started while armed; an armed timer belongs to the current round, with the gate not yet set and a participant present; while the last thread releases, the timer is cancelled and no callback is in progress |
| BarrierSafety.NobodyStranded | Project4/barrier.patch:1034-1056 | With a timeout, while any thread is inside the timer is armed or the release has begun |
| BarrierSafety.GateWedgesExactly | Project4/barrier.patch:1052-1082 | With a positive count, a state with the gate set, the mutex free and nobody inside to reset it is reachable if and only if the count is 1 |
| BarrierScenarios.SingleCountWedges | Project4/barrier.patch:1052-1064 | One call on a barrier of count 1 wedges it |
| BarrierSafety.SingleCountClosesForGood | Project4/barrier.patch:1021 | With count 1 and the gate set, a thread at the gate is still there after any continuation |
| BarrierSchedules.GateHolds | Project4/barrier.patch:1020-1021 | While `cond_flag` is 1 no event, of any configuration, takes a thread past the gate; a thread in front of it stays in front |
| BarrierSchedules.GateHoldsRun | Project4/barrier.patch:1020-1021 | Over whole runs: a thread in front of the gate stays there, in the same call, as long as the gate stays set |
| BarrierSchedules.NewcomersWait | Project4/barrier.patch:1020-1082 | Once the sleepers are released, timed or not, nobody joins from in front of the gate while a single thread of the round has not counted out |
| BarrierSchedules.GateOpensExactly | Project4/barrier.patch:1021 | From the start of a call a thread can walk to the mutex if and only if `cond_flag` is 0 |
| BarrierSchedules.BlockedExactly | Project4/barrier.patch:1021-1066 | In every run, for every count, a thread cannot run its next statement exactly when: the gate is set in front of it, it sleeps and the gate is not set, it wants the mutex and another thread is in a critical section, or it cancels the timer and the callback is in progress |
| BarrierSchedules.ThreadsIgnoreCallback | Project4/barrier.patch:915-924 | A callback in progress makes no difference to whether any thread can run, except the one that cancels the timer |
| BarrierSchedules.CallbackNeedsNobody | Project4/barrier.patch:915-924 | An armed timer can expire and its callback complete in every state, mutex held or not; afterwards the gate is set, the flag is set, and no thread has moved |
| BarrierSchedules.CallbackCompletes | Project4/barrier.patch:915-924 | No run keeps a callback from its second store or starts another one before it |
| BarrierSchedules.ArmedExactly | Project4/barrier.patch:1029-1055 | In every run the timer is armed if and only if the barrier has a timeout, a thread is inside or about to do its `left--`, and the sleepers are not being released |
| BarrierSchedules.SchedulesExactly | Project4/barrier.patch:915-1096 | A schedule can be extended by an event if and only if: a thread that is not blocked in the above sense runs, a running timer expires, or a callback in progress completes |
| BarrierSchedules.ReachableByClient | Project4/barrier.patch:1020-1096 | The states of all runs are the states of the clients with any number of calls per thread |
| BarrierSchedules.TornExactly | Project4/barrier.patch:915-924 | A history is torn if and only if some sleeper did its `left++` between the two stores of a callback |
| BarrierSchedules.ReleaseInOrder | Project4/barrier.patch:1045-1064 | The statement that opens the gate to the sleepers finds `left` at 0, the timer not armed and no callback in progress |
| BarrierSchedules.ResetInOrder | Project4/barrier.patch:1073-1082 | The statement that clears `cond_flag` finds `timeout_flag` clear (untorn) and the round not yet counted; `sync_num` moves only with `cond_flag` 0 |
| BarrierSchedules.ExpiresUnderLastThread | Project4/barrier.patch:1042-1055 | A concrete run, for any count and number of threads: the timer expires while the last thread holds the mutex with `left` at 0, and `hrtimer_cancel` has to wait |
| BarrierSchedules.ExpiryMeetsReleaseExactly | Project4/barrier.patch:1042-1055 | The timer can expire with `left` at 0 if and only if the barrier has a timeout and at least as many threads as the count |
| BarrierSchedules.FullHouseTimesOut | Project4/barrier.patch:1052-1095 | That run continued: the callback completes first, so in a full round the last thread returns 0 and the first sleeper -ETIME |
| BarrierAccounting.StepAccounts | Project4/barrier.patch:1071-1095 | Every step keeps the tally of sleepers, releasers and return codes of the current round and the settled books of all earlier ones |
| BarrierAccounting.CallReturns | Project4/barrier.patch:1063-1095 | What each returning call appends to its thread's results, untorn: -ETIME exactly for a sleeper of a flagged round that is not the resetter; 0 for the resetter and the last-thread branch |
| BarrierAccounting.TalliesAreReturns | Project4/barrier.patch:1063-1095 | In every run the -ETIME and 0 codes returned over all threads number what the tallies of all rounds say, up to one releaser about to return |
| BarrierAccounting.ReturnCodes | Project4/barrier.patch:1073-1095 | In every finished round, untorn: all sleepers returned 0 if the timer did not fire; exactly one 0 and -ETIME for all others if it did (or in round one with a garbage flag) |
| BarrierAccounting.ReturnCodesExactly | Project4/barrier.patch:1073-1095 | Without the untorn proviso, the number of zeros in all rounds of all runs is as above if and only if the barrier has no timeout |
| BarrierScenarios.TimedOutCallReturnsZero | Project4/barrier.patch:1073-1095 | A concrete run, callback uninterrupted: the timer fires and the call returns 0 |
| BarrierAccounting.CallMeetsReadmeExactly | Project4/README.md:25 | A returning call meets the promise if and only if: for resetter and last-thread branch, the timer did not fire; for other sleepers, it did or the flag is not first-round garbage |
| BarrierAccounting.EarlyReadSeesRound | Project4/README.md:25 | On taking the mutex to leave, a sleeper would read the flag set exactly if its round is flagged |
| BarrierAccounting.EarlyReadMeetsReadme | Project4/README.md:25 | So an early read would show it to all sleepers of timed-out rounds and to no sleeper of any other round, a garbage first round aside |
| BarrierAccounting.UnfiredRoundsAreFull | Project4/barrier.patch:1045-1064 | A round not ended by the timer had at least `init_count` participants, all but one of them asleep; without timeout every round is one |
| BarrierAccounting.AtomicCallbackNeverTears | Project4/barrier.patch:915-924 | If no thread runs between the callback's two stores, no history is torn |
| BarrierRefinement.StepRefines | Project4/barrier.patch:915-1096 | Each step is one abstract action (join, atomic release of all waiting threads, leave), allowed in the abstract state, or changes nothing abstractly |
| BarrierRefinement.MachineRefinesBarrier | Project4/barrier.patch:915-1096 | Every run of the machine maps to a run of the abstract barrier ending in the abstraction of the last state; the generation is the round count plus one from the release until the resetter has counted |
| BarrierRefinement.OpenedOncePerFullHouse | Project4/barrier.patch:1020-1082 | Without a timeout, generations opened times `init_count` never exceeds the arrivals, any number of threads |
| BarrierClient.StepInStep | Project4/barrier.patch:1020-1096 | With exactly `init_count` threads and no timeout, every step keeps all threads' arrival counts in step and nobody past the set gate |
| BarrierClient.BarrierSafe | Project4/user.c:25-32 | No thread returns from its r-th call before every thread has done its `left--` for its r-th call, for all thread counts, calls and interleavings |
| BarrierClient.BoundedDrift | Project4/user.c:25-32 | Finished-call counts of any two threads differ by at most one; while `cond_flag` is 1 nobody is between the gate and its `left--` |
| BarrierClient.SyncIsMinimum | Project4/barrier.patch:1073-1082 | With the mutex free, the round count is the least number of calls any thread has finished, and `sync_num` is that number modulo 2^32 |
| BarrierClient.StepTerminates | Project4/barrier.patch:1020-1096 | Every event of the client decreases the remaining work |
| BarrierClient.ClientTerminates | Project4/user.c:25-32 | No run of the client is longer than sixteen events per call and thread |
| BarrierClient.MaximalRunsFinish | Project4/user.c:50-61 | A run that cannot go on has all calls of all threads finished and the barrier drained; untimed with `init_count` threads, `sync_num` counts the calls |
| BarrierClient.ClientCanFinish | Project4/user.c:99-103 | Every state of the client has a continuation in which all threads finish, so the joins return |
| BarrierClient.EveryoneGetsOut | Project4/barrier.patch:1034-1082 | With a timeout, every reachable state has a continuation that brings all threads out and drains the barrier, any number of threads |
| BarrierDeadlock.FewerThreadsStarve | Project4/barrier.patch:1045-1064 | Untimed with fewer threads than the count, in every run: the gate is never set, no round ends and no call returns |
| BarrierDeadlock.FewerThreadsFallAsleep | Project4/barrier.patch:1045-1066 | Every maximal run of such a client ends with all threads asleep in their first call |
| BarrierDeadlock.MoreThreadsStrand | Project4/barrier.patch:1020-1096 | Untimed with more threads than the count: a run in which all threads but one finish all their calls and that one sleeps for good, for any number of calls |
| BarrierDeadlock.DeadlockFreeExactly | Project4/barrier.patch:1020-1096 | In every state of the client it has finished or some event is possible, if and only if the barrier has a timeout or exactly as many threads as the count |
| BarrierPromise.ReadmePromiseExactly | Project4/README.md:25 | Untorn, all rounds of all runs give -ETIME to all sleepers of timed-out rounds and to no others if and only if the barrier has no timeout and, if `timeout_flag` starts set, the count is 2 or there are fewer threads than the count |
| BarrierPromise.CountTwoReturnsZero | Project4/barrier.patch:1073-1095 | At count 2 every returning call of an untorn history returns 0, timed out or not, garbage or not |
| BarrierPromise.GarbageReportsTimeout | Project4/barrier.patch:957-968 | A concrete run without a timeout: count 3 or more, `timeout_flag` never initialised and set, and the first sleeper to leave returns -ETIME |
| BarrierPromise.TimeoutReportedExactly | Project4/barrier.patch:1073-1095 | Some untorn run of the client returns -ETIME if and only if the count is 3 or more and: with a timeout, there are two threads; without, `timeout_flag` starts set and there are at least as many threads as the count |
| BarrierPromise.UntimedCallsSucceed | Project4/user.c:29-30 | Without a timeout only a thread's first call can report one, and only with garbage in `timeout_flag` and a count of 3 or more |
| BarrierPromise.UntimedCallsSucceedExactly | Project4/user.c:29-30 | Without a timeout all calls of the `init_count` threads return 0 in every run if and only if `timeout_flag` did not start set or the count is 2 |
| KernelBarrier.Struct.constructor | Project4/barrier.patch:957-980 | The object starts as the machine's initial struct |
| KernelBarrier.Struct.Execute | Project4/barrier.patch:1020-1096 | The next statement of a thread, in place, moves object and thread exactly as the machine does and returns the machine's code |
| KernelBarrier.Struct.EntrySection | Project4/barrier.patch:1025-1064 | The locked entry section as the source writes it, waiting for a callback in progress where the timer is cancelled, ends where the machine's statements end |
| KernelBarrier.Struct.ExitSection | Project4/barrier.patch:1066-1095 | The locked exit section as the source writes it ends where the machine's statements end, with the code the source returns |
| KernelBarrier.EntryEffect | Project4/barrier.patch:1029-1064 | The whole effect of an uninterrupted entry section on every field, for the sleeper and the last thread |
| KernelBarrier.ExitEffect | Project4/barrier.patch:1071-1082 | The whole effect of an uninterrupted exit section on every field, with and without reset |
| KernelBarrier.SectionIsRun | Project4/barrier.patch:1025-1095 | A critical section is a legal run of the machine in which no other thread moves |
| KernelBarrier.Interleave | Project4/barrier.patch:915-1096 | Any legal schedule run on the object ends in the machine's state, and that state satisfies the invariant; `BarrierSchedules.SchedulesExactly` says which schedules are legal |
| Registry.BarrierList.Init | Project4/barrier.patch:945-964 | The id is the number of live barriers of the process plus one; the new node goes to the head |
| Registry.BarrierList.Lookup | Project4/barrier.patch:1003-1016 | The loop finds the first node with the key, or nothing |
| Registry.BarrierList.Destroy | Project4/barrier.patch:1111-1139 | Unknown key: -EINVAL, busy: -EBUSY, both without change; otherwise exactly the found node is taken out |
| Registry.BarrierList.Serve | Project4/barrier.patch:930-1139 | A history of calls on the object gives the list and the answers of the specification |
| Registry.CallRefines | Project4/barrier.patch:945-1139 | Each call on the list is a step, with the same answer, of an unordered pool in which a key denotes its newest live barrier |
| Registry.ListRefinesPool | Project4/barrier.patch:945-1139 | The same for every history of calls |
| Registry.LookupFindsNewest | Project4/barrier.patch:1003-1016 | After any history a lookup finds the most recently initialised live barrier with the key, and fails only if there is none |
| Registry.DestroyIsLocal | Project4/barrier.patch:1111-1135 | Destroy removes one node; every other key is found or missed as before, with the same node |
| Registry.DenseIdsAreUnique | Project4/barrier.patch:945-964 | While the live ids of a process are n to 1 in list order, an id is live if and only if it is 1 to n, and names one barrier |
| Registry.DisciplineKeepsIdsUnique | Project4/barrier.patch:945-964 | If no process takes out a barrier below its highest live id, every process' live ids are 1 to n without repeats after any history |
| Registry.DenseExactlyUnderDiscipline | Project4/barrier.patch:945-964 | All along a history the live ids of every process are 1 to n if and only if that discipline is kept |
| Registry.NextIdRepeatsExactly | Project4/barrier.patch:945-964 | From ids 1 to n, after destroying one of them the next init repeats a live id if and only if the destroyed one was not the highest |
| Registry.ProcessIsolation | Project4/barrier.patch:945-1139 | The ids a process holds and the answers it gets are those of its own calls alone, whatever other processes call in between |
| Registry.UserSequence | Project4/user.c:89-108 | At any point of a process' two inits and destroys of 1 then 2, other processes calling in between: ids 1 and 2, both destroys succeed, and lookups find exactly the ids it holds |
| Ws2812.Device.Open | Project3/part1/spi_ring_driver.c:66-72 | Both buffers allocated and zeroed |
| Ws2812.Device.BitsEncode | Project3/part1/spi_ring_driver.c:79-101 | The in-place shift loops fill the symbol buffer with the encoding of the frame |
| Ws2812.EncodeAt | Project3/part1/spi_ring_driver.c:88-97 | Symbol byte 8i+k is 0xF0 or 0xC0 according to bit k of byte i, most significant first |
| Ws2812.OnePulsePerBit | Project3/part1/spi_ring_driver.c:90-93 | Any sequence of symbols is received as one pulse per symbol, four or two long, whatever follows |
| Ws2812.RoundTrip | Project3/part1/spi_ring_driver.c:79-101 | For data of any length and any silence around it, the receiver sees exactly eight pulses a byte, of length 2 or 4, and recovers the data |
| Ws2812.EncodingIsInjective | Project3/part1/spi_ring_driver.c:79-101 | Two frames with the same wire signal are the same frame |
| Ws2812.Device.Write | Project3/part1/spi_ring_driver.c:104-153 | Byte i of the frame is data where it landed, 0 where the copy missed, and unchanged beyond the data; the symbol buffer is the encoding of that frame even after a faulty copy; the result tells fault and missing device apart |
| Ws2812.Device.Feed | Project3/part1/spi_ring_driver.c:104-121 | A sequence of complete writes leaves the frame of their overlay, and its encoding |
| Ws2812.FrameByte | Project3/part1/spi_ring_driver.c:104-113 | Byte i of the frame is byte i of the latest write longer than i, and 0 if there is none |
| RingUser.ShiftLeft | Project3/part1/user.c:56-60 | The in-place loop is a rotation by one byte |
| RingUser.RotateAt | Project3/part1/user.c:52-61 | After k byte shifts position i holds the original byte at `(i + k) % n`, for any length n |
| RingUser.RotateConserves | Project3/part1/user.c:52-61 | Rotation keeps the multiset of bytes |
| RingUser.PixelsRotate | Project3/part1/user.c:54-61 | After k rounds pixel i is the original pixel `(i + k) % pixels`, whole, for any number of pixels |
| RingUser.PatternPeriod | Project3/part1/user.c:52-61 | The pattern repeats after as many rounds as there are pixels |
| RingUser.Animate | Project3/part1/user.c:52-69 | At write k the ring receives the original pattern rotated by k pixels, and a dark frame at the end |

## Left out

- Destroying a barrier that threads are using: `waitqueue_active` does not see threads between lookup and sleep; quiescence is an assumption.
- Registry.BarrierList.Destroy: whether the wait queue is active is a parameter, because the list is modelled apart from the threads.
- Registry.BarrierList.Init: ids and the count of barriers are unbounded, and the unlocked counting loop and the `first_flag` race are taken as sequential.
- Registry.Node: nodes are identified by birth number, so the reuse of freed memory is not modelled.
- BarrierAccounting.EarlyReadMeetsReadme: speaks of sleepers; a thread that takes the last-thread branch of a timed-out round returns 0 however the flag is read.
- Ws2812.Device.Write: writes longer than the frame are outside its precondition, since the source does not check them; that missed bytes become zeros is taken from the kernel's copy routine, which is not part of this model.
- Signals, real time, `printk`, wait queues and timers below the level of guards, and allocation failure.
- SPI transfer and its 32-bit word order, device probe and removal, ioctl.
- The bit-banging drivers of Project3/part2 and the ultrasonic drivers of Project2 are not modelled.
- The vDSO tables, system call numbers, makefiles and hello-world call of Project4/barrier.patch are not modelled.
- `fork`, `wait`, random sleeps, user input and shell scripts.
