# Verified model of the threading and image exercises

The repository is a set of POSIX-thread exercises in C++. This project models its four components
with properties that hold for every run or every input, and proves those properties with Dafny
4.11 (`dafny verify dfyconfig.toml`).

- **Blocking queue, thread pool, active object** (`Mutexes.dfy`, `Protocol*.dfy`,
  `ActiveObject.dfy`, `BlockingQueue.dfy`, `SharedQueue.dfy`). One transition system over any
  number of workers and calling threads. A step is one mutex operation, one access to the queue,
  one signal or wait, one task start or end, one thread launch or one join. `Config.variant`
  chooses between the pool (recursive mutex, nested lock in `is_empty`, signal after unlocking)
  and the active object (plain mutex, signal under the lock). Waits may return spuriously, fresh
  workers may overtake woken ones, and undefined behaviour (front of an empty queue, releasing a
  mutex that is not owned, waiting with the mutex held twice) sets a fault flag that is then
  proved never to be set. A pushed `std::function` may be empty, as `nullptr` is; so the exact
  condition under which all tasks run is part of the result, for one run (`DrainBeforeJoin`) and,
  as a condition on the calls alone, for all runs (`DrainsOnEveryRun`). A run is a sequence of
  moves; `Run` says where it leads. `BlockingQueue.ThreadSafeQueue` is the class itself, as one
  thread executes it, and `SharedQueue.dfy` its three operations called by any threads in any
  order. `ProtocolLocking.dfy` fixes where the mutex is held and in which order a push makes its
  calls.
- **Netpbm printer and parser** (`Text.dfy`, `Netpbm*.dfy`). Writer and reader for all six modes
  as the loops of the source over a byte buffer, each proved equal to a function on byte
  sequences; then the round trip of whole files as an if-and-only-if, bottom-up writing, and
  second round trips. `NetpbmWritten.dfy` says what stands in a written file in terms of the
  caller's pixels, `NetpbmForeign.dfy` what is read from files of other origin. `fgets`, `fgetc` and `fscanf` are functions on what is left of the file.
- **Binary search tree** (`TreeModel.dfy`, `SearchTree.dfy`, `SharedTree.dfy`,
  `SharedTreeShape.dfy`). The mutable tree on the heap with its footprint, and the same tree
  shared by threads that walk one node per step under the readers-writer lock.
- **Fork and join** (`ArraySum.dfy`, `Histogram.dfy`, `LockedCounter.dfy`). The partitioned,
  interleaved computations give what the single loop gives.

`Sums.dfy` holds the few facts about sums over sequences and turns of a schedule that the counting
arguments share.

## Where the code decides against its documentation

- `day1/ex_histogram/appm.cpp:140` takes 1 as white, while `day1/ex_histogram/appm.cpp:231`
  prints 1 for dark: a plain bitmap comes back complemented (`NetpbmRoundTrip.Project`,
  `NetpbmFiles.SecondTrip`).
- `day1/ex_histogram/appm.cpp:98` skips all whitespace after the maximum, so raw colour and grey
  files come back exactly if and only if their data does not start with a whitespace byte
  (`NetpbmFiles.RoundTrip`).
- The counter `i` at `day1/ex_histogram/appm.cpp:171` is never initialised. It is a parameter of
  the model, any integer, and `%` is the one of C, negative for a negative counter. Every value is
  fine for five modes. With bit packing, all images of a width `w` come back if and only if `i` is
  a multiple of 8 and either `w` is one too or `i + w > 0` (`NetpbmFiles.CounterForEveryImage`);
  `NetpbmRoundTrip.PackingSafe` says for each image and each `i` whether it does. A counter of 1
  shifts the first row; a counter of -8 loses the last byte of a row of one pixel.
- The pool does not run every task in every case: tasks queued behind as many empty functions as
  there are workers stay in the queue, and with no worker nothing runs
  (`ProtocolShutdown.DrainBeforeJoin`). If the calls allow that, there is a run on which it happens
  (`ProtocolCallers.WorstRun`).
- A negative width is written into the header as it is; the reader then gives up
  (`NetpbmFiles.NegativeWidth`).
- `day1/ex_histogram/modify_image.cpp:159` and `day1/ex_histogram/modify_image.cpp:169` index one
  past the end; the model extends the last block and adds up bins 0 to 255.

## Model

| member | source | states |
|---|---|---|
| ProtocolInvariants.MutexStep | day2/ex_ThreadPool/thread_safe_queue.h:30-70 | every step leaves the mutex held exactly by the thread, and exactly as often, as program counters say |
| ProtocolInvariants.LockStep | day2/ex_ThreadPool/thread_safe_queue.h:30-70 | besides, an answer of is_empty stays true until acted on, the phases of constructor and destructor are respected, and no undefined behaviour occurs |
| ProtocolInvariants.OrderStep | day2/ex_ThreadPool/threadpool.cpp:29-32 | what each caller has enqueued so far, followed by what it still has to push, is its sequence of calls |
| ProtocolInvariants.AddsStep | day2/ex_ThreadPool/threadpool.cpp:17-20 | the destructor's empty functions follow all other jobs in push order |
| ProtocolInvariants.PillsStep | day2/ex_ThreadPool/threadpool.cpp:34-53 | empty functions dequeued = workers that hold one or have exited; nothing is dequeued after the last worker got one |
| ProtocolInvariants.WakeupStep | day2/ex_ThreadPool/thread_safe_queue.h:30-63 | while a worker sleeps, queue length <= signals still owed + workers up and about to look at the queue |
| ProtocolInvariants.LogsStep | day2/ex_ThreadPool/threadpool.cpp:41-46 | for every task: dequeued = started + held, started = finished + running, counted with multiplicity |
| ProtocolInvariants.InvStep | day2/ex_ThreadPool/threadpool.cpp:5-53 | all of these together survive every step of any thread and any spurious wakeup |
| ProtocolTheorems.RunInv | day2/ex_ThreadPool/threadpool.cpp:5-53 | they hold in every reachable state, for every number of workers, callers and jobs |
| ProtocolTheorems.LockDiscipline | day2/ex_ThreadPool/thread_safe_queue.h:30-40 | the depth never exceeds 2, a wait starts at depth exactly 1, locked sections exclude each other, the queue is never popped empty |
| ProtocolTheorems.NoLostWakeup | day2/ex_ThreadPool/thread_safe_queue.h:34-63 | a sleeping worker with no signal owed and no worker up means an empty queue |
| ProtocolLocking.PushOrder | day2/ex_ThreadPool/thread_safe_queue.h:55-63 | in every run the calls of each thread that pushes, read off the states, are lock, append, unlock, signal for one of its jobs after the other; for the active object lock, append, signal, unlock |
| ProtocolLocking.RecursiveMutex | day2/ex_ThreadPool/thread_safe_queue.h:30-70 | in the pool the mutex is held twice inside is_empty, once elsewhere in pop and push, and not at all while signalling, sleeping or running a task |
| ProtocolLocking.AnswerUnderOwnLock | day2/ex_ThreadPool/thread_safe_queue.h:65-70 | a worker of the pool gets its answer only inside is_empty under a second lock, about the queue of that moment |
| ProtocolLocking.LateSignal | day2/ex_ThreadPool/thread_safe_queue.h:57-62 | for every pool with a worker and a job, a run to a state where a worker sleeps, the queue is not empty, the mutex is free and the signal is still owed |
| ProtocolLocking.FreeForAll | day2/ex_ThreadPool/thread_safe_queue.h:34-37 | with the mutex free any worker that wants it can take it, woken or not; any wait may end without a signal |
| ProtocolLocking.FreeForPushers | day2/ex_ThreadPool/thread_safe_queue.h:58 | with the mutex free any caller, and the destructor, can take it |
| ProtocolTheorems.FifoRefinement | day2/ex_ThreadPool/thread_safe_queue.h:30-63 | every step is an append, a removal of the front, or invisible, both under the mutex; push history = pop history + queue |
| ProtocolTheorems.Progress | day2/ex_ThreadPool/threadpool.cpp:14-27 | before the destructor has returned, the move that NextMove computes is enabled and is not a spurious wakeup |
| ProtocolTheorems.NoDeadlock | day2/ex_ThreadPool/threadpool.cpp:14-27 | every run that has not returned can be continued without a spurious wakeup |
| ProtocolShutdown.MeasureDrops | day2/ex_ThreadPool/threadpool.cpp:14-53 | a weight falls with every step and rises by 6 with a spurious wakeup |
| ProtocolShutdown.RunLength | day2/ex_ThreadPool/threadpool.cpp:14-53 | a run with k spurious wakeups has at most the initial weight + 7k steps |
| ProtocolShutdown.StartMeasure | day2/ex_ThreadPool/threadpool.cpp:5-20 | the initial weight in terms of workers, callers and jobs |
| ProtocolShutdown.EveryRunReturns | day2/ex_ThreadPool/threadpool.cpp:14-53 | every run that has been reached goes on, with no further spurious wakeup and within that bound, to the return of the destructor |
| ProtocolShutdown.Shutdown | day2/ex_ThreadPool/threadpool.cpp:14-53 | at return: finished = started = dequeued tasks as multisets, all workers exited, one empty function dequeued per worker, the rest still queued in order |
| ProtocolShutdown.CutLosesNothing | day2/ex_ThreadPool/threadpool.cpp:17-20 | nothing callable remains queued if and only if no task follows as many empty functions as there are workers |
| ProtocolShutdown.DrainBeforeJoin | day2/ex_ThreadPool/threadpool.cpp:14-53 | at return every added task has run exactly once if and only if that condition holds of the jobs in push order |
| ProtocolShutdown.SingleCallerDrain | day2/ex_ThreadPool/main.cpp:9-16 | with one calling thread the condition is on its calls alone |
| ProtocolCallers.DrainsOnEveryRun | day2/ex_ThreadPool/threadpool.cpp:14-53 | every run ends with every task run as often as the callers added it, if and only if, for each task, the empty functions its caller adds before it and those of all other callers are together fewer than the workers |
| ProtocolCallers.WorstRun | day2/ex_ThreadPool/threadpool.cpp:29-53 | for each job there is a complete run on which all these empty functions do get ahead of it |
| ProtocolCallers.EveryTaskOnce | day2/ex_ThreadPool/threadpool.cpp:29-53 | under that condition no task is left in the queue either |
| ProtocolShutdown.QueueEndsEmpty | day2/ex_ThreadPool/threadpool.cpp:14-27 | callable tasks only and at least one worker: the queue is empty at return, after one pill per worker |
| ActiveObject.Serial | day2/x_active_object/active_object.h:37-49 | with one worker, at every moment: finished is a prefix of started, started a prefix of the tasks sent, at most one task runs |
| ActiveObject.Complete | day2/x_active_object/active_object.h:57-65 | at return the executed sequence is the sent sequence, if and only if no task was sent behind an empty function |
| ActiveObject.OneSender | day2/x_active_object/active_object.h:57-65 | with one sender it is that sender's sequence of calls, under the same condition |
| ActiveObject.PlainMutex | day2/x_active_object/thread_safe_queue.h:19-55 | no thread that is about to lock the non-recursive mutex holds it, and every signal is sent by the thread that holds it |
| BlockingQueue.ThreadSafeQueue.constructor | day2/ex_ThreadPool/thread_safe_queue.h:13-22 | an empty queue, not locked, no call made |
| BlockingQueue.ThreadSafeQueue.IsEmpty | day2/ex_ThreadPool/thread_safe_queue.h:65-70 | whether the queue is empty; it locks, looks and unlocks |
| BlockingQueue.ThreadSafeQueue.TryPop | day2/ex_ThreadPool/thread_safe_queue.h:42-53 | fails exactly on an empty queue, otherwise removes the front; the exact sequence of calls on both paths |
| BlockingQueue.ThreadSafeQueue.Push | day2/ex_ThreadPool/thread_safe_queue.h:55-63 | appends the item; locks, appends, unlocks, signals, in this order |
| BlockingQueue.ThreadSafeQueue.CondWait | day2/ex_ThreadPool/thread_safe_queue.h:36 | may only be entered with the mutex held once; comes back with the queue the other threads left |
| BlockingQueue.ThreadSafeQueue.Pop | day2/ex_ThreadPool/thread_safe_queue.h:30-40 | takes the front of the first queue found non-empty, however many waits returned to an empty one, with the exact sequence of calls |
| SharedQueue.InvStep | day2/ex_ThreadPool/thread_safe_queue.h:30-70 | with any threads calling push, pop and try_pop, every step keeps mutex, answers, log and results consistent |
| SharedQueue.Linearizable | day2/ex_ThreadPool/thread_safe_queue.h:30-63 | in every interleaving the operations, in the order they took effect, are a run of a plain queue with the same results, each thread's in program order; try_pop fails exactly on an empty queue |
| SharedQueue.NoLostWakeup | day2/ex_ThreadPool/thread_safe_queue.h:30-63 | with any mix of push, pop and try_pop: while a thread sleeps every queued item is covered by a signal owed or a thread in pop that will look again; sleeping on a non-empty queue, somebody can act; nobody can act only if all are done or sleep on an empty queue |
| SharedQueue.SignalWakes | day2/ex_ThreadPool/thread_safe_queue.h:62 | a signal wakes a sleeper, if there is one, and is sent without the mutex |
| SharedQueue.MutexHeld | day2/ex_ThreadPool/thread_safe_queue.h:30-70 | the mutex is held twice inside is_empty, once in the rest of a locked section, and not at all otherwise |
| SharedQueue.FreeForAll | day2/ex_ThreadPool/thread_safe_queue.h:30-58 | with the mutex free every thread that wants it can take it |
| SharedQueue.WaitMayEnd | day2/ex_ThreadPool/thread_safe_queue.h:36 | every wait may end without a signal |
| SharedQueue.LockedSection | day2/ex_ThreadPool/thread_safe_queue.h:30-63 | while a thread is between lock and unlock, no step of another thread changes the queue |
| SharedQueue.TryPopRefused | day2/ex_ThreadPool/thread_safe_queue.h:42-53 | a try_pop that fails holds the mutex and the queue is empty |
| NetpbmFormat.WritePixel | day1/ex_histogram/appm.cpp:211-252 | the body of the inner loop computes one step of the writer function |
| NetpbmFormat.WriteRow | day1/ex_histogram/appm.cpp:210-253 | the inner loop writes row y of the buffer |
| NetpbmFormat.WriteRows | day1/ex_histogram/appm.cpp:207-254 | the outer loop writes the rows downwards, or upwards for a negative height |
| NetpbmFormat.WritePPM | day1/ex_histogram/appm.cpp:168-259 | the whole file for any counter and any sign of width and height, or the error for a negative mode |
| NetpbmWritten.HeaderText | day1/ex_histogram/appm.cpp:198-205 | the exact text of the header |
| NetpbmWritten.GreyFile | day1/ex_histogram/appm.cpp:222-223 | size of a raw grey file; each data byte v has 3v <= r + g + b < 3v + 3 for its pixel of the caller's buffer |
| NetpbmWritten.ColourFile | day1/ex_histogram/appm.cpp:215-216 | size of a raw colour file; its bytes are the components |
| NetpbmWritten.PackedFile | day1/ex_histogram/appm.cpp:234-252 | size of a packed file; a bit is set if and only if r + g + b < 384 |
| NetpbmWritten.TextFile | day1/ex_histogram/appm.cpp:217-233 | the data are numbers (components, mean, or 1 if r + g + b < 384) with a space after each and a newline after every fifth or fifteenth pixel |
| NetpbmWritten.OtherModesFile | day1/ex_histogram/appm.cpp:215-255 | no data with a mode that is none of the six |
| NetpbmWritten.PixelsComeBack | day1/ex_histogram/appm.cpp:60-259 | what is read back for each pixel, in numbers |
| NetpbmWritten.WhitespaceStart | day1/ex_histogram/appm.cpp:98 | which first pixels spoil a raw file, in numbers |
| NetpbmForeign.CommentsSkipped | day1/ex_histogram/appm.cpp:88-90 | any number of comment lines makes no difference |
| NetpbmForeign.EndlessExactly | day1/ex_histogram/appm.cpp:88-90 | the reader never returns if and only if a good mode line is followed by comments only, at least one, up to the end |
| NetpbmForeign.HeaderRead | day1/ex_histogram/appm.cpp:75-101 | for any first line, comments, sizes and maximum: when the header is accepted and what is read |
| NetpbmForeign.FileRejected | day1/ex_histogram/appm.cpp:78-101 | rejected if and only if the mode line is bad, or a maximum is not positive or, in a raw file, above 255 |
| NetpbmForeign.NegativeSizes | day1/ex_histogram/appm.cpp:104-106 | one negative size is fatal, two give a zero image |
| NetpbmForeign.SizesMissing | day1/ex_histogram/appm.cpp:93 | sizes that cannot be scanned keep their old values |
| NetpbmForeign.PlainFile | day1/ex_histogram/appm.cpp:134-152 | a plain file of any layout is read number by number; in a bitmap only 1 is white, other numbers are cut to a byte |
| NetpbmForeign.RawFile | day1/ex_histogram/appm.cpp:122-132 | any raw grey or colour file; what a short file lacks is 255 |
| NetpbmForeign.CutOffText | day1/ex_histogram/appm.cpp:134-152 | plain data that ends too early goes on black in a bitmap and repeats the last numbers otherwise |
| Text.FgetsLongLine | day1/ex_histogram/appm.cpp:76-90 | a longer line is cut after 255 bytes |
| Text.ScanOther | day1/ex_histogram/appm.cpp:93-148 | signs, leading zeros, and what is no number |
| NetpbmReader.ReadHeader | day1/ex_histogram/appm.cpp:75-101 | mode line, comment lines, sizes and maximum as a function of the file, bad headers and the endless comment loop included |
| NetpbmReader.ReadPixel | day1/ex_histogram/appm.cpp:111-152 | one step of the reader function; exactly three bytes of the buffer change |
| NetpbmReader.ReadRow | day1/ex_histogram/appm.cpp:110-153 | the inner loop appends the bytes of one row |
| NetpbmReader.ReadRows | day1/ex_histogram/appm.cpp:109-154 | the outer loop fills the whole buffer |
| NetpbmReader.ReadPPM | day1/ex_histogram/appm.cpp:60-159 | for every file: the image, the fatal error, or no return, and the buffer of 3 * width * height bytes |
| NetpbmBits.PutBitsRow | day1/ex_histogram/appm.cpp:234-252 | from any point in a row and for any counter the accumulator loop emits the pixels' bits in groups of eight, padded at the end, the last byte 0 if the counter is still negative there; afterwards the counter is a multiple of 8 and the accumulator 0 |
| NetpbmBits.GetBitsRow | day1/ex_histogram/appm.cpp:113-121 | reading a row of packed bits gives its pixels, whatever bits follow, uses up exactly ceil(width / 8) bytes and resets the counter |
| NetpbmRoundTrip.PackedSize | day1/ex_histogram/appm.cpp:239-251 | height * ceil(width / 8) bytes, every row padded by itself; the first row may take one more if the counter is not a multiple of 8 |
| NetpbmRoundTrip.PutData | day1/ex_histogram/appm.cpp:207-254 | the data stream of each mode, with line breaks after every 5 or 15 items counted from any start |
| NetpbmRoundTrip.GetData | day1/ex_histogram/appm.cpp:109-154 | reading the data stream of any mode gives the projected pixels, whatever follows it, in the packed mode if and only if PackingSafe |
| NetpbmFiles.ReadHeaderBack | day1/ex_histogram/appm.cpp:198-205 | the reader recovers mode and sizes from the written header and stops where the data starts, or after its leading whitespace |
| NetpbmFiles.OtherModesRejected | day1/ex_histogram/appm.cpp:77-82 | a file written with a one-digit mode outside 1..6 is rejected |
| NetpbmFiles.NegativeWidth | day1/ex_histogram/appm.cpp:104-106 | a file written with a negative width is rejected, unless it has no rows |
| NetpbmFiles.RoundTrip | day1/ex_histogram/appm.cpp:60-259 | reading back gives mode, sizes and the projected image if and only if raw colour or grey data does not start with whitespace and, in the packed mode, the counter suits the image |
| NetpbmFiles.FileRoundTrip | day1/ex_histogram/appm.cpp:168-259 | the same for the caller's buffer and signed height |
| NetpbmFiles.CounterForEveryImage | day1/ex_histogram/appm.cpp:234-252 | all packed images of a size come back if and only if the counter starts at a multiple of 8 and the width is one too or the counter is positive at the end of the first row |
| NetpbmFiles.MirrorAt | day1/ex_histogram/appm.cpp:207-209 | pixel (x, y) of the mirrored buffer is pixel (x, h - 1 - y) of the original |
| NetpbmFiles.BottomUp | day1/ex_histogram/appm.cpp:176-209 | writing with height -h gives the file of the mirrored image with height h, byte for byte |
| NetpbmFiles.SecondTrip | day1/ex_histogram/appm.cpp:60-259 | a second round trip, with any time stamp and counter, changes nothing, except that it undoes the complement of the plain bitmap mode; packed, if and only if its counter suits the image |
| NetpbmFiles.BlackAndWhiteKept | day1/ex_histogram/appm.cpp:136-141 | a packed file keeps a black-and-white image if and only if the counter suits it; two trips through plain bitmap files restore it |
| TreeModel.BuildSorts | day2/07a_rwlock_tree/pthread_rwlock.cpp:173-199 | after any insertions the in-order walk is their stable sort and left < node <= right holds everywhere |
| TreeModel.SearchAfter | day2/07a_rwlock_tree/pthread_rwlock.cpp:201-215 | searching finds exactly the inserted keys |
| SearchTree.BTree.constructor | day2/07a_rwlock_tree/pthread_rwlock.cpp:114-118 | an empty tree |
| SearchTree.BTree.Insert | day2/07a_rwlock_tree/pthread_rwlock.cpp:126-141 | the heap stays a disjoint tree and becomes the tree of all keys so far, this one last |
| SearchTree.BTree.InsertAt | day2/07a_rwlock_tree/pthread_rwlock.cpp:173-199 | the descent inserts the key into the tree below the node and allocates exactly one node |
| SearchTree.BTree.Search | day2/07a_rwlock_tree/pthread_rwlock.cpp:143-152 | true exactly for the keys inserted so far |
| SearchTree.BTree.SearchAt | day2/07a_rwlock_tree/pthread_rwlock.cpp:201-215 | a node of the tree with that key, or null exactly if there is none |
| SearchTree.BTree.Destroy | day2/07a_rwlock_tree/pthread_rwlock.cpp:120-124 | every allocated node is deleted exactly once, after its children, in the order left subtree, right subtree, node |
| SearchTree.BTree.DestroyAt | day2/07a_rwlock_tree/pthread_rwlock.cpp:162-171 | the same for the nodes below a node |
| SharedTree.InvStep | day2/07a_rwlock_tree/pthread_rwlock.cpp:126-152 | every step keeps: writers alone, every walk where its key belongs, findable keys = keys whose insert took effect |
| SharedTree.Linearizable | day2/07a_rwlock_tree/pthread_rwlock.cpp:126-152 | in every interleaving every search answers membership among the inserts that took effect before it |
| SharedTree.SearchReturnsMembership | day2/07a_rwlock_tree/pthread_rwlock.cpp:143-152 | the answer a search hands back is membership of its key among the inserts before it |
| SharedTree.AnswersReturned | day2/07a_rwlock_tree/pthread_rwlock.cpp:143-152 | every thread is handed, in order, exactly the answers of its searches |
| SharedTree.Admission | day2/07a_rwlock_tree/pthread_rwlock.cpp:126-147 | a search can begin if and only if nobody inserts, an insert if and only if nobody inserts or searches |
| SharedTree.FoundStaysFound | day2/07a_rwlock_tree/pthread_rwlock.cpp:232-245 | once a key has been found, every later search for it succeeds |
| SharedTree.ReadersSeeOneSet | day2/07a_rwlock_tree/pthread_rwlock.cpp:143-152 | no step of any thread changes heap or keys while a search is under way |
| SharedTree.ProgramOrder | day2/07a_rwlock_tree/pthread_rwlock.cpp:220-245 | each thread's operations take effect once each, in program order |
| SharedTree.NoDeadlock | day2/07a_rwlock_tree/pthread_rwlock.cpp:126-152 | while a thread has not finished, some thread can step |
| SharedTreeShape.RefinesSequential | day2/07a_rwlock_tree/pthread_rwlock.cpp:173-199 | in every interleaving the heap is node for node the tree that sequential insertion builds, so it is searchable and stably sorted |
| ArraySum.OneThreadSum | day1/ex_accumulate/multithread_sum.cpp:9-21 | the sum of the elements modulo 2^64, the sum itself if it fits |
| ArraySum.Interleave | day1/ex_accumulate/multithread_sum.cpp:32-39 | in any interleaving each thread has summed its block up to where its turns have brought it, at most to the end |
| ArraySum.Partition | day1/ex_accumulate/multithread_sum.cpp:46-63 | four blocks of a quarter of the elements without gap or overlap, the last one with the remainder |
| ArraySum.MultithreadSum | day1/ex_accumulate/multithread_sum.cpp:41-79 | for every length and every interleaving before each join, the total of the single loop, the sum itself if it fits |
| Histogram.MakeHistogramTh | day1/ex_histogram/modify_image.cpp:84-99 | every bin grows by the column-wise count of its pixels in the rows of the block, all accesses in range |
| Histogram.ColumnsCountPixels | day1/ex_histogram/modify_image.cpp:87-98 | the column-major walk over some rows counts each pixel of these rows exactly once |
| Histogram.MakeHistogram | day1/ex_histogram/modify_image.cpp:18-39 | bin v grows by the number of pixels with 3v <= r + g + b < 3v + 3 |
| Histogram.Interleave | day1/ex_histogram/modify_image.cpp:112-116 | in any interleaving each thread has counted the pixels of its rows up to where its turns have brought it, at most to the end |
| Histogram.Partition | day1/ex_histogram/modify_image.cpp:137-159 | consecutive blocks of height / blocks rows without gap or overlap, the last one with the remainder |
| Histogram.MakeHistogramBlocks | day1/ex_histogram/modify_image.cpp:129-171 | for every number of row blocks, and every interleaving before each join, the merged histograms are the histogram of the whole image |
| Histogram.BinsAddUp | day1/ex_histogram/modify_image.cpp:18-39 | the bins of a histogram add up to the number of pixels |
| LockedCounter.RunInv | day1/05_mutex/pthread_mutex_perf.cpp:40-55 | in every interleaving: one thread at most between lock and unlock, no stale load, stores done and to come add up to N * K |
| LockedCounter.CounterExact | day1/05_mutex/pthread_mutex_perf.cpp:58-88 | all threads can be joined exactly after 4 * N * K steps, with the counter at N * K; before, some thread can step |

## Left out

- Jobs that push further jobs while they run, and calls of add_task or Send during destruction; callers are separate threads that have finished before the destructor starts.
- BlockingQueue.ThreadSafeQueue.CondWait: release, sleep and reacquisition are one assignment of the queue the wait finds; step by step they are in `Protocol.dfy` and `SharedQueue.dfy`.
- BlockingQueue.ThreadSafeQueue.Pop: other threads act only while the wait is blocked, through the queue contents it finds; interleaved it is in `Protocol.dfy` and `SharedQueue.dfy`.
- try_pop inside the pool and active-object protocol, since neither uses it (it is in `SharedQueue.dfy`); the try_pop of `day2/x_active_object/thread_safe_queue.h` returns with the mutex locked and is never called.
- Copying the front and removing it are one step of the protocol; both happen under the mutex.
- NetpbmFormat.WritePPM: a file that cannot be opened, `time` and the file handle; the time stamp is any text without a newline that keeps the comment on one line.
- NetpbmReader.ReadPPM: a file that cannot be opened and failing or null zero-size allocation; variables the source reads uninitialised (r, g, b, the maximum) start at 0.
- Overflow of sizes, of the counters and of scanned numbers: numbers are unbounded integers except where bytes and the 64-bit sum wrap around.
- SearchTree.BTree.Insert: the lock calls; the locked tree is `SharedTree.dfy`. Calling destroy_tree before the destructor, which leaves the root dangling, is not modelled.
- Linking a new node and setting its fields is one step of the shared tree; readers cannot observe the difference because the writer is alone.
- Histogram.Interleave: counting one pixel is one step, since each thread writes only a histogram of its own; drawing the histogram is floating-point output.
- The second copy of pool and queue in `day3/socknet/thread`, sockets, priorities, signals, cancellation, barriers, futures, Monte Carlo pi, console output and timing.
