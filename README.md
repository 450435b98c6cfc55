# Reader-writer lock bookkeeping, in Dafny

This project models the bookkeeping of a Rust reader-writer lock (`RwLock<T>` in
`src/lib.rs`). The lock keeps a struct `G` with two wait queues of condition
variable handles, `reader_wait` and `writer_wait`, and two counters,
`reader_active` and `writer_active`. `read`, `write` and the two guard `Drop`s
read and write the struct only while holding the lock's internal mutex. The
public `notify_others` takes no lock itself; its only callers inside the crate
are the two `Drop`s, which hold the mutex. Every critical section is therefore
one atomic step on `G`, and the model is a sequential state machine over it. The
lock is configured with a `Preference` (favour readers or writers) and an
`Order` (`Fifo` or `Lifo`).

- `monitor.dfy`, module `Monitor`: `G` as the datatype `State`, with waiter handles
  abstracted to `Ticket` ids. It also holds the two admission predicates
  `read_wait` and `write_wait`, the atomic steps (register, admit, release),
  wake-selection (`notify_others`) as the list of queue positions it signals,
  and the lemmas about them.
- `rwlock.dfy`, module `Locking`: the class `RwLock`, whose methods update the
  same fields in place. `read` and `write` block in a wait loop. The model
  gives each its first critical section (`RequestRead`, `RequestWrite`). That
  section pushes the new handle and evaluates the wait condition once. If the
  condition is false, the thread also pops its queue and becomes active. Each
  later wake-up is one re-check (`TryAdmitRead`, `TryAdmitWrite`). On a re-check
  either nothing changes, or the thread pops its queue and becomes active.
  `NotifyOthers` returns the signalled positions and modifies nothing. The
  guard `Drop`s are `DropRead` and `DropWrite`.
- `traces.dfy`, module `Traces`: arbitrary interleavings of these critical
  sections as sequences of `Event`s. The state also tracks how many threads of
  each class are blocked. Every state such a run reaches from a new lock keeps
  mutual exclusion, non-negative counters and duplicate-free queues. In every
  such state, each queue has exactly one entry per blocked thread of its class.

Admission pops its queue by position: the head under `Fifo`, the tail under
`Lifo`. That slot need not hold the handle that was actually signalled. The model
follows the code here; the consequence is recorded under "## Findings".

## Model

| member | source | states |
|---|---|---|
| `Monitor.ReadWait` | src/lib.rs:85-103 | A reader must wait whenever a writer is active. Under writer preference it also waits whenever a writer is queued. It waits for no other reason. |
| `Monitor.WriteWait` | src/lib.rs:146-164 | A writer must wait whenever a reader or a writer is active. Under reader preference it also waits whenever a reader is queued. It waits for no other reason. |
| `Monitor.PopIndex` | src/lib.rs:116-127 | The slot an admitted thread removes is the head (0) under Fifo and the tail (n-1) under Lifo, and it is always a valid index. |
| `Monitor.Pop` | src/lib.rs:176-183 | `remove(0)` / `pop()` remove exactly the entry at `PopIndex`. The queue shrinks by one and the remaining entries keep their order. |
| `Monitor.RegisterReader` | src/lib.rs:107-111 | A read request appends exactly one entry, the new ticket, at the tail of the reader queue. Prior entries, the writer queue and both counters are unchanged. |
| `Monitor.RegisterWriter` | src/lib.rs:168-172 | A write request appends exactly one entry, the new ticket, at the tail of the writer queue. Prior entries, the reader queue and both counters are unchanged. |
| `Monitor.AdmitReader` | src/lib.rs:116-130 | An admitted reader removes the entry at the order's position from the reader queue and raises `reader_active` by exactly 1. The rest of the state is unchanged. |
| `Monitor.AdmitWriter` | src/lib.rs:176-184 | An admitted writer removes the entry at the order's position from the writer queue and raises `writer_active` by exactly 1. The rest of the state is unchanged. |
| `Monitor.ReleaseReader` | src/lib.rs:286-288 | Dropping a read guard lowers a positive reader count by exactly 1 and leaves a zero count alone, so the count never goes negative. The queues and the writer count are untouched. |
| `Monitor.ReleaseWriter` | src/lib.rs:321-324 | Dropping a write guard lowers a positive writer count by exactly 1 and leaves a zero count alone, so the count never goes negative. The queues and the reader count are untouched. |
| `Monitor.BatchWake` | src/lib.rs:200-221 | Batch wake of n readers signals every reader index below n exactly once. The indices are strictly ascending under Fifo and strictly descending under Lifo. No writer is signalled. |
| `Monitor.Wakeups` | src/lib.rs:194-253 | Every signal names an existing queue position. Readers and writers are never both signalled. Someone is signalled exactly when some queue is non-empty. |
| `Monitor.IdleSatisfiesInvariant` | src/lib.rs:58-76 | The state built by `new` has both queues empty and both counters 0, and it satisfies the invariant. |
| `Monitor.RemoveAtKeepsDistinct` | src/lib.rs:119-124 | Removing one queue slot keeps a duplicate-free queue duplicate-free and adds no ticket. |
| `Monitor.RegisterKeepsInvariant` | src/lib.rs:107-111 | Registering a newly allocated handle keeps mutual exclusion, non-negative counters and well-formed queues. |
| `Monitor.AdmitReaderKeepsInvariant` | src/lib.rs:112-130 | Admitting a reader after `read_wait` is false keeps the invariant, and no writer is active afterwards. |
| `Monitor.WriterAdmittedOnlyFromIdle` | src/lib.rs:173-175 | If `write_wait` is false, then `reader_active == 0` and `writer_active == 0`. |
| `Monitor.AdmitWriterKeepsInvariant` | src/lib.rs:173-185 | Admitting a writer after `write_wait` is false keeps the invariant. Afterwards exactly one writer and no reader is active. |
| `Monitor.ReleaseKeepsInvariant` | src/lib.rs:280-291 | Dropping a read guard or a write guard keeps the invariant, including non-negative counters. |
| `Monitor.ReaderPreferredWake` | src/lib.rs:196-223 | Under reader preference, a non-empty reader queue gets the batch wake of all readers. Otherwise a non-empty writer queue gets one signal, to index 0 under Fifo or to the last index under Lifo. |
| `Monitor.WriterPreferredWake` | src/lib.rs:224-251 | Under writer preference, a non-empty writer queue gets one signal, to index 0 under Fifo or to the last index under Lifo. Otherwise a non-empty reader queue gets the batch wake of all readers. |
| `Monitor.SignalledWriterIsPoppedFromSameState` | src/lib.rs:207-241 | A writer signal is the only signal. It names the slot that a writer admitted from this same state pops. A request that arrives before the re-check can change that slot. |
| `Monitor.SignalledWaitersAreAdmissible` | src/lib.rs:194-253 | With no writer active, a signalled reader passes `read_wait`. With nobody active, a signalled writer passes `write_wait`. |
| `Locking.RwLock.constructor` | src/lib.rs:58-76 | A new lock has the given preference and order, empty queues, zero counters, and a valid state. |
| `Locking.RwLock.RequestRead` | src/lib.rs:105-130 | Pushes the new handle onto the reader queue and checks `read_wait` on that state. If it is false, the reader pops by order and `reader_active` rises by 1. Otherwise the queue keeps the new entry. The writer fields are unchanged and the invariant is kept. |
| `Locking.RwLock.TryAdmitRead` | src/lib.rs:112-130 | A re-check after a wake-up admits the reader exactly when `read_wait` is false. It then pops by order and becomes active beside no writer. Otherwise the state is unchanged. The invariant is kept. |
| `Locking.RwLock.RequestWrite` | src/lib.rs:166-185 | Pushes the new handle onto the writer queue and checks `write_wait` on that state. If it is false, which happens only on an idle lock, the writer pops by order and `writer_active` becomes 1. Otherwise the queue keeps the new entry. The reader fields are unchanged and the invariant is kept. |
| `Locking.RwLock.TryAdmitWrite` | src/lib.rs:173-185 | A re-check after a wake-up admits the writer exactly when `write_wait` is false, and then only from an idle lock. It pops by order and `writer_active` becomes 1. Otherwise the state is unchanged. The invariant is kept. |
| `Locking.RwLock.NotifyOthers` | src/lib.rs:194-253 | Returns exactly the signals `Wakeups` selects for the lock's preference and order, and modifies nothing. |
| `Locking.RwLock.SignalReaders` | src/lib.rs:203-215 | The `for` loops over the reader queue, ascending or `.rev()`, signal exactly the batch wake of all readers. |
| `Locking.RwLock.DropRead` | src/lib.rs:279-292 | Guarded decrement of `reader_active` with the queues untouched, then wake-selection on the new state. The invariant is kept. |
| `Locking.RwLock.DropWrite` | src/lib.rs:316-328 | Guarded decrement of `writer_active` with the queues untouched, then wake-selection on the new state. The invariant is kept. |
| `Traces.Step` | src/lib.rs:105-328 | Each critical section keeps exactly one queue entry per blocked thread, by count: a blocking request adds both an entry and a blocked thread, and an admitted re-check removes both. |
| `Traces.Run` | src/lib.rs:105-328 | Any run of enabled events keeps exactly one queue entry per blocked thread, by count. |
| `Traces.StepKeepsInvariant` | src/lib.rs:105-328 | Every atomic step a thread can take, including a failed re-check, keeps the invariant. |
| `Traces.RunKeepsInvariant` | src/lib.rs:105-328 | Any interleaving of critical sections that starts in a valid state stays valid. |
| `Traces.ReachableStatesAreSafe` | src/lib.rs:58-328 | Every state reachable from a new lock has `writer_active` in {0, 1}, no reader beside a writer, no negative counter and duplicate-free queues. A blocked thread that re-checks always finds its own queue non-empty. |
| `Traces.PositionalPopLosesWaitingHandle` | src/lib.rs:173-184 | A concrete run from a new lock. A newly arrived writer enters and pops the handle of the writer that wake-selection had just signalled. That writer stays blocked with its handle in no queue, and the next signal goes to the newcomer's stale handle. |
| `Traces.PositionalPopLosesWaitingReader` | src/lib.rs:116-127 | A concrete run from a new lock. A newly arrived reader enters and pops the handle of the reader that the batch wake had just signalled. That reader stays blocked with its handle in no queue, and the queue holds only the newcomer's stale handle. |

## Left out

- Threads, the internal `Mutex`, `Condvar::wait` / `notify_one`, `Rc`, suspension and spurious wakeups. A signal is only the queue position returned by wake-selection. In `Traces` a blocked thread may re-check at any time, whether or not it was signalled.
- Calls to the public `notify_others` from outside the crate, which would read `G` without holding the mutex. `NotifyOthers` is modelled as called only from the two `Drop`s. An outside call changes no state and only adds extra signals, so the invariant results would not change.
- Liveness, starvation and the cross-thread admission order of several writers. These are claims about schedules and are not sequential contracts.
- The protected value `T`, the `UnsafeCell` cells, `Deref` / `DerefMut` on the guards and the `unsafe impl Send/Sync`. They only hand out the stored value.
- The `Result` wrapper of `read` and `write`, which is always `Ok`.
- `i32` overflow of the counters. The counters are unbounded integers kept non-negative by the invariant.
- The unused `Operation` and `ReadWrite` structs, which are dead code.
- Locking.RwLock.TryAdmitRead: requires a non-empty reader queue. That entry need not be the caller's own handle, because removal is by position. The reason is counting. Each blocked reader pushed one entry and has not popped. Every pop is done by an admitted reader. So the queue has at least one entry per blocked reader. `Traces.ReachableStatesAreSafe` proves this for the bookkeeping, and the class does not track blocked threads itself. The model therefore does not cover `remove(0)` panicking, or `pop()` returning nothing, on an empty queue; no run reaches that case.
- Locking.RwLock.TryAdmitWrite: requires a non-empty writer queue, by the same counting argument as TryAdmitRead.
- Locking.RwLock.RequestRead: requires a ticket not already queued, because each request allocates a new `Rc<Condvar>`. Handles are compared by ticket id, not by pointer.
- Locking.RwLock.RequestWrite: requires a ticket not already queued, for the same reason as RequestRead.

## Findings

| source | as written | input that shows it | evidently intended | confidence | as-written member | corrected member |
|---|---|---|---|---|---|---|
| src/lib.rs:176-181 | An admitted writer removes the entry at position 0 (Fifo) or at the tail (Lifo), whichever handle it holds. | Writer preference, Fifo. W1 enters. W2 blocks. W1 drops and handle 2 is signalled. W3 arrives and enters at once, popping handle 2. The re-check of W2 fails, and no queue holds handle 2 any more. | Each thread removes its own handle, so a signalled waiter cannot lose its place. | not executed | `Traces.PositionalPopLosesWaitingHandle` | none: identity-based removal is outside this model, which keeps the source's positional removal |
| src/lib.rs:116-127 | An admitted reader removes the entry at position 0 (Fifo) or at the tail (Lifo), whichever handle it holds. | Writer preference, Fifo. W1 enters. R10 blocks. W1 drops and handle 10 is signalled. R11 arrives and enters at once, popping handle 10. W2 arrives and blocks. The re-check of R10 fails, and no queue holds handle 10 any more. | Each thread removes its own handle, so a signalled waiter cannot lose its place. | not executed | `Traces.PositionalPopLosesWaitingReader` | none: identity-based removal is outside this model, which keeps the source's positional removal |
