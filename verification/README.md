# Thread pool, locked programs and small algorithms: a Dafny model

This project models the concurrent core of the repository, and the algorithms that ship beside it,
and proves what they promise.  Verify it with `dafny verify dfyconfig.toml`.

**The thread pool** (`queue.c`, `worker_thread.c`, `thread_pool.c`) is modelled in two layers, both
measured against one specification, the atomic FIFO with a closed flag in `Fifo.dfy`.

* `QueueHeap.dfy` is the pointer code: a class with `front`, `rear`, `size`, `closed` and linked
  `Node` objects.  Every operation is an operation of the atomic FIFO.
* `QueueMachine.dfy` is the protocol: any number of threads inside the operations of one queue and
  in the consumer loop of a worker, where every lock operation, every pointer write and every update
  of `size` is a step of its own.  Condition variables follow the System Interfaces
  volume of POSIX.1-2017 (IEEE Std 1003.1-2017): waiting releases the lock and sleeps atomically, a
  signal wakes a sleeper if there is one, sleepers may wake for no reason.  `malloc` may return any
  address that is not in use, with any content.  Touching freed memory or NULL is a *fault* of the
  model; it is proved not to happen to callers that observe the contract below.
  `QueueInvariants.dfy` proves the invariant in rely-guarantee style (each statement keeps the
  list, reaches a place whose facts hold, and honours a guarantee towards all other threads),
  `QueueHistory.dfy` follows every request, `QueueTheorems.dfy`, `QueueCalls.dfy` and
  `QueueProgress.dfy` state the results for whole runs.
* `ThreadPool.dfy` puts many queues together with the thread that runs `thread_pool_destroy`, and
  `PoolContract.dfy` shows that what its users have to observe is exactly what they have to;
  `PoolLiveness.dfy` shows that the pool can always be destroyed.

**Lock-protected globals.**  `LockedSection.dfy` proves once that threads which run straight-line
loads and stores under a lock are serializable, for every interleaving of the single instructions.
Every run comes to an end with all threads done.  `Bank.dfy`, `Factorials.dfy` and `ThreadIds.dfy` apply it to `bankacc.c`, `facto.c` and the worker
numbers of `worker_thread.c`.

**Parallel decomposition.**  `ParallelCopy.dfy` (`mt_copy.c`) and `MatrixMul.dfy`
(`thrd_matrixmul.c` against `prcs_matrixmul.c`) prove the result for every interleaving of the
workers' system calls, respectively of their loads and stores.

**Sequential algorithms.**  `HexDump.dfy`, `HttpProxy.dfy` (measured against `HttpSpec.dfy`, which
says without scanning what a request means), `Primes.dfy`, `FutureValue.dfy`.  In the proxy, an overrun of a `char` array, a read of one that was not written, and a `%d` outside of `int`
are outcomes of the model.

## What the model assumes

* The steps are those of the code: nothing in them keeps a client from using a queue that is being
  freed (`worker_thread.c:79`).  What users have to observe is a hypothesis of the theorems
  (`Courteous` for one queue, `PoolPolite` for the pool): nobody begins to add to a queue that is
  being freed, and `thread_pool_destroy` frees a queue only when nobody is inside
  `thread_pool_add` on it.  Calls may race with the closing of the queues and with the joins, and are
  then served or rejected.  `PoolContract.ContractIsExact` proves that an act which breaks this
  contract can always be followed by a use after free, and one that keeps it never;
  `PoolContract.UseAfterFree` gives a run in which it goes wrong.
* Work functions return.  `rand() % num_threads` may pick any queue.
* A client is modelled as a slot of the queue it has picked; one operating-system thread may use
  slots of several queues, so the model allows more overlap than the program has.  Nodes are named
  per queue.
* A `pthread_cond_signal` that wakes several threads is one that wakes one, followed by spurious
  wakeups; the model allows these at any moment.

## Where the code and its documentation differ

* `booksrc/ch3/rlimit_primes.c:96-99` says limits from 4 are valid and rejects 4; for the smallest
  accepted limit, 5, the generator prints 4 as a prime (`Primes.PrintsThePrimes`).
* `booksrc/solutions_to_assgn/ch16/mt_primes1.c:113-117` starts a range at 1, which the loop
  accepts as a prime (`Primes.ExactlyWhenCorrect`, `Primes.RangeExact`).
* The offset column of `hex_dump` is cut after six digits (`HexDump.OffsetShown`).
* With a thread count that does not divide the matrix size, the last rows are not computed
  (`MatrixMul.SequentialIffDivides`).
* `thread_pool_destroy` does not wait for clients inside `thread_pool_add`
  (`PoolContract.UseAfterFree`).
* The proxy loses what follows a NUL (`HttpProxy.BodyCutAtNul`), overruns its arrays on long words
  (`HttpProxy.MethodOverrun`) and cuts hosts of more than 255 characters
  (`HttpProxy.ParseInvertsPrint`).
* `facto.c` prints an unsigned word as a signed number, so some, 21! for one, show as negative
  (`Factorials.EachPrintsItsOwn`).

## Model

| member | source | states |
|---|---|---|
| `Fifo.FirstInFirstOut` | queue.h:12-30 | in every history of the specification, earlier contents followed by what was accepted is what was taken followed by the present contents; a closed queue accepts nothing and stays closed |
| `Fifo.LegalIffFitting` | queue.h:12-30 | the histories of a new queue are exactly the sequences of outcomes in which requests are taken in order of acceptance, nothing is accepted after a close, rejections and "drained" come only after one, and sizes and flags are right |
| `QueueHeap.RequestQueue.constructor` | queue.c:23-35 | a new queue is the empty open FIFO |
| `QueueHeap.RequestQueue.Link` | queue.c:64-70 | the pointer writes put a node behind the last one and keep the list well formed |
| `QueueHeap.RequestQueue.Enqueue` | queue.c:47-74 | accepts at the back if open, leaves the queue unchanged if closed |
| `QueueHeap.RequestQueue.Dequeue` | queue.c:76-99 | takes the front item and frees exactly the front node, the rest staying linked; on an empty queue reports "drained" exactly if closed, otherwise that it has to wait |
| `QueueHeap.RequestQueue.Close` | queue.c:101-106 | sets the flag for good, keeps the contents |
| `QueueHeap.RequestQueue.IsClosed` | queue.c:108-113 | answers with the flag of the abstract queue |
| `QueueHeap.RequestQueue.Size` | queue.c:115-120 | answers with the length of the abstract queue |
| `QueueHeap.RequestQueue.Destroy` | queue.c:37-45 | frees every linked node and its request once, front first |
| `QueueHeap.DrainClosed` | worker_thread.c:23-32 | on a closed queue the worker loop runs all queued requests once, in order, counts them, and stops |
| `QueueInvariants.LocalStep` | queue.c:47-106 | every statement of every operation keeps the list up to what its own thread has still to write, reaches a place whose facts hold, and meets the guarantee towards other threads |
| `QueueInvariants.KnowsStable` | queue.c:56-98 | what a thread relies on between two of its statements survives any statement of any other thread |
| `QueueInvariants.OwnStep` | queue.c:48-97 | every allocated node keeps exactly one owner, the list or one thread |
| `QueueInvariants.SafeStep` | queue.c:37-120 | mutual exclusion, list shape, node ownership and place facts are kept by every step |
| `QueueInvariants.NoFault` | queue.c:37-97 | no thread is about to touch a freed queue, a freed node or NULL |
| `QueueInvariants.WakeStep` | queue.c:72-80 | the balance of queued items and wakeups is kept by every step |
| `QueueHistory.ConserveStep` | worker_thread.c:23-32 | every request stays in exactly one place: rejected, queued, in one thread's hands, executed |
| `QueueHistory.OrderStep` | queue.c:64-96 | accepted requests are those taken followed by those queued, and each thread has executed, then holds, what it took, in order |
| `QueueHistory.RunInv` | queue.c:37-120 | every run, of any length and any schedule, keeps the whole invariant |
| `QueueTheorems.StepRefines` | queue.c:47-120 | each step is a step of the atomic FIFO with the outcome read from concrete memory |
| `QueueTheorems.RunRefines` | queue.c:47-120 | linearizability: the outcomes of any run form a legal history of the atomic FIFO that ends in its abstract state |
| `QueueTheorems.OutcomesFit` | queue.c:47-120 | each outcome of any run of a new queue fits the outcomes before it, said without an abstract state |
| `QueueCalls.OutcomesKnown` | queue.c:47-120 | in every state of every run, the outcomes a call has had since it began are those that its place in the code tells: none before its linearization point, one after it |
| `QueueCalls.ReturnsItsOutcome` | queue.c:47-120 | a call that returns has had exactly one outcome since it began, and returns it: the request or NULL, the size, the flag; an enqueue that returns by the accepting or the rejecting path was accepted or rejected, with the request that the caller handed over; the outcome answers the call that the schedule began; size and flag are still right at the return |
| `QueueTheorems.AtRest` | queue.c:47-99 | whenever the lock is free, the nodes met from `front` are distinct and carry the abstract contents in order, `rear` is the last of them (NULL if there are none), `size` is their number |
| `QueueTheorems.MemorySafe` | queue.c:37-97 | over whole courteous runs: no use after free, no double free, no NULL access; every node is linked or private to exactly one thread |
| `QueueTheorems.NoLostWakeup` | queue.c:56-80 | whenever the lock is free and a thread sleeps, the queue is open and has no more items than woken threads still to re-check; a non-empty queue has a woken thread |
| `QueueTheorems.SubmittedByCallers` | thread_pool.c:36-48 | the requests the queue knows as submitted are those that the callers in the schedule handed over, unchanged and in order |
| `QueueTheorems.ExactlyOnce` | worker_thread.c:23-32 | with all threads at rest, the requests of the schedule's callers = rejected + queued + executed as multisets; if a consumer has returned, nothing is queued and no node allocated |
| `QueueTheorems.ServedInOrder` | worker_thread.c:23-34 | what was taken is a prefix of what was accepted, each thread runs its share in that order, `processed_count` counts it |
| `QueueProgress.Shrinks` | queue.c:76-106 | on a closed queue every statement of a call in progress decreases a measure over queued requests and program counters |
| `QueueProgress.NotStuck` | queue.c:56-106 | while a thread is in a call and not asleep on an open queue, some thread can take a step |
| `ThreadPool.PhaseStep` | thread_pool.c:50-61 | no step on a queue leaves the phase (open, closing, closed, draining, dying, dead) that the destroying thread has brought it to |
| `ThreadPool.ActInv` | thread_pool.c:36-61 | every polite step of a client, worker or the destroying thread keeps the invariant of the whole pool |
| `ThreadPool.PoolRunInv` | thread_pool.c:36-61 | hence every polite run of the pool does |
| `ThreadPool.PoolSafe` | thread_pool.c:36-61 | in every state of every polite run of the pool no thread touches a freed queue, a freed node or NULL, and no queue has lost a wakeup |
| `ThreadPool.PoolExactlyOnce` | thread_pool.c:36-61 | when `thread_pool_destroy` returns, each worker has executed exactly what its queue accepted, in order; the requests that clients added to it, read off the acts, = accepted + rejected; all nodes and queues are freed; processed counts add up to accepted requests |
| `ThreadPool.AnyRequestToAnyQueue` | thread_pool.c:36-48 | an idle client can add any request to any queue, with exactly this request in its hands and nothing else changed; the contract allows it if and only if the queue is not being freed |
| `ThreadPool.DestroyFindsNothing` | worker_thread.c:73-81 | whenever `queue_destroy` runs, the list is empty and no node is allocated, so no unexecuted request is freed |
| `ThreadPool.ShutdownShrinks` | thread_pool.c:55-60 | once all queues are closed every step, new clients aside, decreases a measure over requests, program counters and unjoined workers |
| `ThreadPool.ShutdownBounded` | thread_pool.c:55-60 | so every polite continuation without new clients is no longer than the measure |
| `ThreadPool.PoolNotStuck` | thread_pool.c:50-61 | until `thread_pool_destroy` has returned, some thread can take a polite step |
| `ThreadPool.ShutdownCompletes` | thread_pool.c:50-61 | any polite continuation from the joins is bounded, and if nothing more can happen the pool has been destroyed |
| `PoolLiveness.CanAlwaysFinish` | thread_pool.c:50-61 | from every state of every polite run, the calls in progress and the destroying thread can go on until `thread_pool_destroy` has returned |
| `PoolContract.ContractIsExact` | thread_pool.c:36-61 | after any polite run, an act keeps the contract if and only if the calls in progress cannot go on from it to touch freed memory |
| `PoolContract.UseAfterFree` | thread_pool.c:55-60 | a run in which a client inside `thread_pool_add` touches the queue that `thread_pool_destroy` has freed |
| `LockedSection.Serializable` | booksrc/solutions_to_assgn/ch15/bankacc.c:77-100 | any number of threads running loads and stores under a lock: whenever it is free, shared value and results are those of the serial run in lock order, and while it is held those of the owner cut short on top of it; a run that cannot go on has all threads done, and the order then contains every thread once |
| `LockedSection.Terminates` | booksrc/solutions_to_assgn/ch15/bankacc.c:77-100 | no run is longer than all instructions plus one lock and one unlock per thread; it cannot go on exactly if it is that long, exactly if every thread has unlocked and left |
| `Bank.Account.Deposit` | booksrc/solutions_to_assgn/ch15/bankacc.c:34-43 | positive amounts are added, others ignored; the warning comes exactly from 1000000 on |
| `Bank.Account.Withdraw` | booksrc/solutions_to_assgn/ch15/bankacc.c:44-53 | granted if and only if at least 500 remain, and then subtracted |
| `Bank.ScriptRun` | booksrc/solutions_to_assgn/ch15/bankacc.c:34-53 | the instructions of a script, stopped anywhere, have given the balance, the sum of deposits and the sum of withdrawals of exactly the operations whose store was executed |
| `Bank.BankSerializable` | booksrc/solutions_to_assgn/ch15/bankacc.c:77-100 | in every state of every interleaving, lock held or free, the balance is that of the operations performed so far run in lock order, and equals opening + accepted deposits - accepted withdrawals; the threads' records add up to these two sums separately; every run ends, with every script performed whole |
| `Bank.TheProgramEndsWith` | booksrc/solutions_to_assgn/ch15/bankacc.c:29-92 | the program's two threads end with 6750 from 12000 in every run |
| `Bank.NeverBelowFloor` | booksrc/solutions_to_assgn/ch15/bankacc.c:44-53 | the balance never drops below the minimum credit, not even inside a critical section |
| `Factorials.Global.Factorize` | booksrc/ch15/facto.c:40-52 | the loop leaves the factorial modulo 2^64 (1 for arguments up to 0) |
| `Factorials.SectionPrints` | booksrc/ch15/facto.c:72-86 | whatever the global held before, the section prints the factorial of its own argument modulo 2^64, as a signed number |
| `Factorials.EachPrintsItsOwn` | booksrc/ch15/facto.c:59-91 | for any threads, arguments and interleaving each thread prints its own factorial modulo 2^64 as a signed number (1 for arguments up to 0), which is exact if and only if the argument is at most 20; every run ends, with every thread having printed |
| `ThreadIds.IdsInLockOrder` | worker_thread.c:17-19 | ids are 1, 2, 3, ... in the order in which threads got the lock |
| `ThreadIds.IdsArePermutation` | worker_thread.c:8-19 | every run ends after five steps per thread, exactly when the ids are a permutation of 1..n |
| `ParallelCopy.Plan` | booksrc/solutions_to_assgn/ch18/mt_copy.c:250-279 | the creation loop gives thread i offset i*(size/n), length size/n and the remainder |
| `ParallelCopy.Tiling` | booksrc/solutions_to_assgn/ch18/mt_copy.c:212-279 | for every size and n > 0 the ranges are disjoint and cover exactly [0, size) |
| `ParallelCopy.CopyCorrect` | booksrc/solutions_to_assgn/ch18/mt_copy.c:149-232 | no run has more than 2n + 2 system calls; a run that cannot go on has all workers finished, and ends with the destination equal to the source followed by what it held beyond the source's length |
| `MatrixMul.Multiply` | booksrc/ch14/speed_multiprcs_vs_multithrd_simple/matrixmul/prcs_matrixmul.c:37-41 | the triple loop adds to each cell its row-column dot product |
| `MatrixMul.CellStep` | booksrc/ch14/speed_multiprcs_vs_multithrd_simple/matrixmul/thrd_matrixmul.c:37-40 | after every load or store of any thread each cell holds its initial value and the terms its own thread has added so far |
| `MatrixMul.ThreadedProduct` | booksrc/ch14/speed_multiprcs_vs_multithrd_simple/matrixmul/thrd_matrixmul.c:32-68 | every interleaving ends with the sequential result in the rows that belong to a thread, the others unchanged |
| `MatrixMul.AllRowsCovered` | booksrc/ch14/speed_multiprcs_vs_multithrd_simple/matrixmul/thrd_matrixmul.c:61-64 | all rows belong to a thread if and only if the thread count divides the size |
| `MatrixMul.SequentialIffDivides` | booksrc/ch14/speed_multiprcs_vs_multithrd_simple/matrixmul/thrd_matrixmul.c:32-68 | all complete runs on all matrices give the sequential result if and only if the thread count divides the size |
| `HexDump.PutByte` | booksrc/ch18/mmap_file_simple.c:84-89 | writing one byte turns the line of a chunk into the line of the chunk with this byte added |
| `HexDump.Print` | booksrc/ch18/mmap_file_simple.c:45-93 | the printed lines are the dump of the data, with all 75 columns determined, despite buffer reuse |
| `HexDump.RoundTrip` | booksrc/ch18/mmap_file_simple.c:73-93 | there are ceil(size/16) lines, and decoding their hex columns gives back exactly the data |
| `HexDump.ByteShown` | booksrc/ch18/mmap_file_simple.c:84-93 | byte i stands in line i/16 as two hex digits in columns 8 + 3j and 9 + 3j and in column 58 + j as itself if it is from 32 to 126, else as a dot |
| `HexDump.CellsDisjoint` | booksrc/ch18/mmap_file_simple.c:55-58 | hex and character columns never overlap, and cells without a byte are blank |
| `HexDump.OffsetShown` | booksrc/ch18/mmap_file_simple.c:60-79 | the offset columns show the offset if and only if it is below 1000000, else its first six digits |
| `HttpProxy.ParseRequest` | proxy_server/http_proxy.c:123-148 | for every text with two or three words, however separated: undefined if a word does not fit; refused if and only if the URL does not begin with "http://" and a non-slash; else the host and the signed number after it (undefined outside of `int`), or everything before the first slash and 80; in particular a request printed for a target is answered with its host and port if and only if the words fit their arrays, the host its 255 characters and the port an `int` |
| `HttpProxy.RewriteRequest` | proxy_server/http_proxy.c:78-102 | the bounded writes into `path` and `modified_request` stay within the arrays ; for every text with two or three words: nothing is sent if and only if the URL does not begin with "http://"; else the method, the path from the first slash (or "/"), the protocol, CRLF and what followed the first CRLF, cut to 4095 characters |
| `HttpProxy.DenotesOne` | proxy_server/http_proxy.c:123-148 | a URL has one answer only |
| `HttpProxy.ParseInvertsPrint` | proxy_server/http_proxy.c:123-148 | parsing a printed request gives back host and port (default 80) if and only if the words fit their arrays, the host has at most 255 characters and the port is an `int`; longer hosts are cut; the other cases are undefined |
| `HttpProxy.RewriteLossless` | proxy_server/http_proxy.c:82-102 | if and only if the words fit their arrays, what is sent is method, path (default "/"), protocol, CRLF and what followed the first CRLF up to the first NUL; it is shorter than what was received, and complete if and only if no NUL was received |
| `HttpProxy.BodyCutAtNul` | proxy_server/http_proxy.c:99-106 | a request whose body is cut at a NUL |
| `HttpProxy.MethodOverrun` | proxy_server/http_proxy.c:79-82 | a request whose method overruns its array |
| `Primes.GenerateRange` | booksrc/solutions_to_assgn/ch16/mt_primes1.c:60-75 | collects and counts, in order, the numbers of the range that the inner loop lets pass |
| `Primes.GenerateUpTo` | booksrc/ch3/rlimit_primes.c:37-60 | prints 2, 3 and the numbers from 4 that the inner loop lets pass |
| `Primes.ExactlyWhenCorrect` | booksrc/solutions_to_assgn/ch16/mt_primes1.c:61-67 | trial division below half of the limit decides primality if and only if the number is not 1, and not 0 or 4 with a limit below 6 |
| `Primes.RangesJoin` | booksrc/solutions_to_assgn/ch16/mt_primes1.c:60-75 | adjacent ranges, each with its own bound, generate together the primes of their union, and the counts add up |
| `Primes.RangeExact` | booksrc/solutions_to_assgn/ch16/mt_primes1.c:60-117 | a range generates exactly its primes if and only if it does not contain 1 and, when it ends below 6, neither 0 nor 4 |
| `Primes.PrintsThePrimes` | booksrc/ch3/rlimit_primes.c:37-58 | for the accepted limits exactly the primes are printed if and only if the limit is at least 6 |
| `FutureValue.Calculate` | M2/future_value.c:62-78 | exactly the first `years` rows are written; with g = 1 + annual/1200, row y satisfies annual*V = 1200*m*g*(g^(12(y+1)) - 1), V = 12*m*(y+1) for a rate of 0, and interest = V - 12*m*(y+1) |
| `FutureValue.RowValue` | M2/future_value.c:67-75 | every row satisfies r*V = m*(1+r)*((1+r)^(12y) - 1) |
| `FutureValue.RowInterest` | M2/future_value.c:72-75 | the interest is V - 12*m*y and positive |
| `FutureValue.RowsIncrease` | M2/future_value.c:72-75 | the interest is strictly increasing from year to year |

## Left out

- The structs of `worker_thread.c` and `thread_pool.c` as heap objects: several threads run on them at once, so they are modelled as values in the step machine; in-place update of the `workers` array is not captured.
- `malloc` failure, `exit` paths, failing pthread calls and thread attributes.
- The requests' own memory (`free(req)` after execution), the per-worker mutex and condition variable, and rejected requests: the code never frees the latter two, so there is no leak claim beyond nodes and queues.
- Integer width of `size`, of the balance in `bankacc.c` and of the matrix cells: unbounded here; only `facto.c` wraps around, explicitly.
- Fairness: shutdown is bounded from the moment the joins begin, if no new clients come; before that, a run may go on for ever as long as clients keep adding requests or sleepers keep waking for no reason.
- ParallelCopy.CopyCorrect: does not model short transfers, because the retry loops at `booksrc/solutions_to_assgn/ch18/mt_copy.c:112-123` and `:132-141` do not advance buffer or offset.
- HexDump.Print: does not model the caption and the ruler line, and offsets are not negative.
- HttpProxy.ParseInvertsPrint: prints no targets with a query but no path; what such a URL is answered with is part of `HttpProxy.ParseRequest`.
- `queue_destroy` on a queue that still holds requests is modelled by `QueueHeap.RequestQueue.Destroy` alone: in the step machine the list is always empty by then (`ThreadPool.DestroyFindsNothing`).
- What the proxy does after an array has been overrun or read uninitialised: the outcome is undefined in the model as it is in C.
- The sockets of the proxy, its `main`, the target server, and the logging tasks.
- FutureValue.Calculate: does not model floating-point rounding.
- The text layout of the generated primes (`"%6d, "`, line wrapping) and the size of the output buffer.
- The unlocked modes of `bankacc.c` and `facto.c`, which are racy on purpose.
- `M9`, `queue_internal.h` and `test_queue.c`, which belong to other versions of the queue; `mt_primes2.c` with its cancellation; the rest of `booksrc`, mostly thin wrappers over system calls.
