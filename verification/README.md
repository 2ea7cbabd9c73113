# Verified models of the algorithms and protocols in CS392

Each group of files models one program of the repository and proves what the program is for.
Programs that change memory step by step are modelled on classes and arrays; programs whose point
is concurrency are modelled as transition systems in which one step is one statement of one thread
or process, so that a lemma about all runs is a statement about all schedules.
`dafny verify dfyconfig.toml` checks everything.

| files | program |
|---|---|
| `BoundedBuffer.dfy`, `BoundedBufferSafety.dfy`, `BoundedBufferLiveness.dfy`, `BoundedBufferItems.dfy`, `BoundedBufferMemory.dfy` | producers and consumers on a ring buffer with a mutex and two condition variables |
| `Primes.dfy`, `Sieve.dfy`, `SieveThreads.dfy` | trial division; the segmented sieve, its partition into segments and its threads |
| `ByteQuicksort.dfy` | generic quicksort on a buffer of raw bytes |
| `ChatServer.dfy`, `ChatEvents.dfy`, `ChatRuns.dfy`, `ChatLoop.dfy`, `Names.dfy` | the slot table of the chat server, what one event and what every run sends to every client, and the main loop |
| `StableSort.dfy`, `LinkedLists.dfy` | doubly linked lists on the heap: ordered insertion, freeing, a deque |
| `ForkCounter.dfy` | a parent and its children counting in shared memory under a semaphore |
| `Tokenizer.dfy` | the in-place tokenizer of the minishell |
| `Gcd.dfy` | the two gcds with C's remainder |
| `Sums.dfy`, `Mapping.dfy`, `Options.dfy` | helpers |

## What the models show

**Bounded buffer.** The model takes any positive queue length, any number of threads and any number
of items for each. It is free of deadlock, spurious wakeups included, exactly when the producers'
total is at least the consumers' and exceeds it by no more than the queue holds
(`DeadlockFreeExactly`). The proof rests on a count of credits: whatever a waiting thread could take
is promised to a thread that is woken, or inside the critical section, or about to signal. The logs
of a run show that what is consumed is what the producers drew.

**Sieve.** `low_primes` is exact below the square root. A mark in `high_primes` means "prime", with
one exception: line 32 of `mtsieve.c` leaves out the square root of the segment's end when the end
is a perfect square, so the square of a prime at the end of a segment keeps its mark. The lemmas
state the marks and the printed total with this exception, say exactly when the total is right for a
range and a number of threads (`TotalIsRightForRange`), and show an execution in which it is wrong
(323761, the square of 569). Entries of `low_primes` that the program never writes are taken to be
zero. The program's sums fit an int exactly when `b + 1 + (b - a + 1) / t` does (`NoOverflowExactly`);
on one thread they do not for the range from 2 to 1500000000, on four they do.

**Quicksort.** The elements are known only as blocks of bytes; swapping two blocks byte by byte is
shown to exchange two elements and nothing else, and everything else is proved on the sequence of
elements.

**Chat server.** The slots are compared with a room that has no slots: members, announcements, and
for each connection the announcements between which it belongs to the room. A connection is a
number that is never used again, where the program has a descriptor that the system may reuse. The
lemmas about runs allow events in any order; the main loop on the arrays is shown to handle exactly
the events that its rounds bring, in the order it takes them, and so to be such a run (`Serve`).
A connection that is greeted and hangs up before it has given a name is never closed (lines 206 and
207): after shutdown exactly these are still open (`LeftOpenExactly`), and one is enough to show it
(`OneLeftOpen`).

**Linked lists.** A list is its sequence of items, a node with its data. Inserting in order is
inserting into the stable sort of what came before, and there is only one stable sort.

**Tokenizer.** The program does not know how long its argument vector is. The model stops at the
first entry behind the vector, says exactly when it comes to that, and for which vectors it cannot
(`RoomExactly`): the caller's 65 entries hold the arguments of every line of up to 127 characters.

## Model

| member | source | states |
|---|---|---|
| BoundedBufferLiveness.FirstInFirstOut | 392/producerconsumer/produceconsume.c:37-53 | in every reachable state the consumed items are the first produced ones in order, at most a queue length behind; with the mutex free produced = consumed ++ the occupied cells from the read index, and the write index follows them |
| BoundedBufferLiveness.MutualExclusion | 392/producerconsumer/produceconsume.c:68-86 | at most one thread is between lock and unlock, and it owns the mutex |
| BoundedBufferLiveness.NoWakeupIsLost | 392/producerconsumer/produceconsume.c:39-50 | with the mutex free, a thread that waits unsignalled could take no more than the signalled threads of its role that are still to re-acquire the mutex |
| BoundedBufferLiveness.DeadlockFreeExactly | 392/producerconsumer/produceconsume.c:35-89 | no reachable state is stuck with an unfinished thread if and only if the totals fit each other and the queue |
| BoundedBufferLiveness.RunsTerminate | 392/producerconsumer/produceconsume.c:60-124 | every run has at most 20 steps per item and one per thread, plus three per spurious wakeup |
| BoundedBufferLiveness.CompleteRunDeliversAll | 392/producerconsumer/produceconsume.c:93-124 | with equal totals a run that cannot go on has finished all threads, emptied the queue and consumed every item once, in order |
| BoundedBufferItems.DrawnIsWritten | 392/producerconsumer/produceconsume.c:41-78 | in every reachable state each producer has written what it drew, in the order of drawing, but for the one expression it may hold; what is produced is what was written and what is consumed is what the consumers read |
| BoundedBufferItems.DrawnIsProducedOrHeld | 392/producerconsumer/produceconsume.c:63-76 | in every reachable state each expression has been drawn as often as it has been produced and is held |
| BoundedBufferItems.CompleteRunConsumesDrawn | 392/producerconsumer/produceconsume.c:35-91 | with equal totals a run that cannot go on has consumed exactly the expressions drawn, and every thread has moved its quota |
| BoundedBufferItems.TheProgramDelivers | 392/producerconsumer/produceconsume.c:9-124 | the set-up of main (two and two threads, ten items, five cells) never deadlocks, keeps at most five items in the queue, and within 804 statements consumes the twenty expressions drawn, in the order of production |
| BoundedBufferSafety.StepInv | 392/producerconsumer/produceconsume.c:35-89 | every statement of every thread keeps mutual exclusion, order, the counts and the bound behind "no wakeup is lost" |
| BoundedBufferLiveness.StepMeasure | 392/producerconsumer/produceconsume.c:35-89 | every statement lowers the measure, a spurious wakeup raises it by two |
| BoundedBufferMemory.SharedBuffer.Produce | 392/producerconsumer/produceconsume.c:76-80 | on the array: appends the item to the contents, which is the three steps of the transition system |
| BoundedBufferMemory.SharedBuffer.Consume | 392/producerconsumer/produceconsume.c:43-47 | on the array: removes and returns the oldest item, which is the three steps of the transition system |
| Primes.TrialDivisionExact | 392/signalprimes/primestest.c:9-16 | trying divisors up to the square root decides primality from 2 on, and accepts 0 and 1 |
| Primes.IsPrime | 392/signalprimes/primestest.c:9-16 | the loop answers as trial division does, hence exactly for primes from 2 on |
| Sieve.LowSieve | mtsieve/mtsieve.c:32-43 | entry k is set exactly when k is prime and its square is below the end of the segment |
| Sieve.ProductFits | mtsieve/mtsieve.c:39-41 | every product the inner loop evaluates fits a 32-bit int |
| Sieve.StrikeStartLeast | mtsieve/mtsieve.c:52-55 | the first struck offset is that of the least multiple of p in the segment that is at least 2p |
| Sieve.StrikeSegment | mtsieve/mtsieve.c:52-59 | exactly the proper multiples of p lose their mark |
| Sieve.StrikeFits | mtsieve/mtsieve.c:56-59 | every sum of the striking loop fits an int if and only if the last one does, for the greatest multiple of p in the segment |
| Sieve.SegmentSieve | mtsieve/mtsieve.c:45-61 | a mark survives exactly when the number is no proper multiple of a small prime |
| Sieve.StruckExactly | mtsieve/mtsieve.c:32-61 | the survivors are the primes, and the segment's end if it is the square of a prime |
| Sieve.HasTwoThrees | mtsieve/mtsieve.c:67-75 | true exactly when two different decimal places of the number hold a 3 |
| Sieve.ThreeTwiceExactly | mtsieve/mtsieve.c:69-75 | counting two digits 3 is finding two different places that hold one |
| Sieve.DigitsDenote | mtsieve/mtsieve.c:69-74 | the digits counted are the decimal notation of the number |
| Sieve.CountIfIsCardinality | mtsieve/mtsieve.c:64-79 | the count is the number of elements of the range that are counted |
| Sieve.CountSegment | mtsieve/mtsieve.c:26-79 | the count of a segment is the number of its primes with two digits 3, plus one if its end is the square of a prime and has two |
| Sieve.SieveRefinesTrialDivision | 392/signalprimes/primestest.c:9-16 | the sieve and trial division agree on a segment if and only if its end is not the square of a prime |
| SieveThreads.Partition | mtsieve/mtsieve.c:208-248 | as many segments as threads or numbers, consecutive from a to b, lengths differing by at most one, and segment i ends at a + (i + 1) L + min(i + 1, R) - 1 for the quotient L and the remainder R |
| SieveThreads.SegmentsPartition | mtsieve/mtsieve.c:208-248 | the segments are determined by the range and the number of threads, and are a partition with these ends, the longer ones first |
| SieveThreads.PartitionFits | mtsieve/mtsieve.c:219-243 | the sums of the loop all fit an int if and only if b + 1 plus the segment length does |
| SieveThreads.NoOverflowExactly | mtsieve/mtsieve.c:50-59 | the sums of the partition and of striking in all threads fit an int if and only if b + 1 and the quotient L together do |
| SieveThreads.OneThreadOverflows | mtsieve/mtsieve.c:219-243 | from 2 to 1500000000 the sums of the partition do not fit on one thread and fit on four |
| SieveThreads.CountPartition | mtsieve/mtsieve.c:219-243 | counting over the segments counts each number of the range once |
| SieveThreads.StepInv | mtsieve/mtsieve.c:80-87 | every step keeps the total equal to the sum of what the finished additions have added |
| SieveThreads.Progress | mtsieve/mtsieve.c:232-254 | some step is possible exactly as long as not all threads are joined |
| SieveThreads.RunsEnd | mtsieve/mtsieve.c:232-254 | every run has at most seven steps for each thread, and has all of them exactly when all threads are joined, exactly when it cannot go on |
| SieveThreads.TotalAfterJoins | mtsieve/mtsieve.c:64-87 | for every schedule the total is the number of primes with two digits 3 plus the segment ends that are squares of primes with two |
| SieveThreads.TotalIsRightExactly | mtsieve/mtsieve.c:64-87 | the total is right if and only if no segment ends in the square of a prime with two digits 3 |
| SieveThreads.TotalIsRightForRange | mtsieve/mtsieve.c:208-257 | the same for a range and a number of threads, with the segment ends written out |
| SieveThreads.SameTotalForAllSchedules | mtsieve/mtsieve.c:218-254 | then neither the number of threads nor the schedule matters |
| SieveThreads.CountsASquare | mtsieve/mtsieve.c:32-43 | on a range of one number, the square of a prime with two digits 3, the total is 1 although there is no prime in it |
| SieveThreads.SquareWithTwoThrees | mtsieve/mtsieve.c:32-43 | 323761 is such a number |
| SieveThreads.PrintsAWrongTotal | mtsieve/mtsieve.c:208-257 | an execution on the range of this one number comes to its end with the total 1 |
| ByteQuicksort.Swap | 392/Quciksort/quicksort.c:78-90 | exchanges two blocks that are disjoint or the same, and no other byte |
| ByteQuicksort.SwapRefines | 392/Quciksort/quicksort.c:78-90 | exchanging the bytes of two elements is exchanging the two elements of the sequence |
| ByteQuicksort.ElemsAreBlocks | 392/Quciksort/quicksort.c:101-113 | element k is the k-th block of the buffer |
| ByteQuicksort.Lomuto | 392/Quciksort/quicksort.c:101-113 | the pivot ends at s, before it what is below it, behind it the rest; a permutation within the bounds, nothing else changed |
| ByteQuicksort.QuicksortHelper | 392/Quciksort/quicksort.c:120-126 | permutes within the bounds for any comparator, and sorts for one that is a total preorder |
| ByteQuicksort.Quicksort | 392/Quciksort/quicksort.c:131-133 | the buffer read in elements is a sorted permutation of what it was, and the bytes behind are unchanged |
| ByteQuicksort.IntCmpOrders | 392/Quciksort/quicksort.c:25-36 | int_cmp is a total preorder on four-byte elements and equates only identical ones |
| ByteQuicksort.ReadIntBack | 392/Quciksort/quicksort.c:25-28 | reading is the inverse of storing a 32-bit integer, least significant byte first |
| ByteQuicksort.SortInts | 392/Quciksort/quicksort.c:25-133 | sorting with int_cmp puts the integers in ascending order |
| ChatRuns.EveryRunDelivers | hw7/chatserver.c:59-274 | in every run the counter is the number of members and within the limit, the slots hold exactly the members, and each connection has been sent its welcome and then exactly what the others announced while it belonged, in order |
| ChatEvents.SayIsHeard | hw7/chatserver.c:254-273 | a message reaches everybody in another slot as "[name]: text", from which name and text can be read back, and nobody else; nothing else changes |
| ChatEvents.LeaveIsHeard | hw7/chatserver.c:137-152 | hanging up or saying "bye" frees slot, connection and name, and everybody in another slot is told who has left |
| ChatEvents.JoinTakesSlot | hw7/chatserver.c:199-224 | an arrival that gives its name takes the first free slot; if the read fails it goes by the string last read |
| ChatEvents.JoinIsHeard | hw7/chatserver.c:188-224 | it has been sent the welcome only, and everybody in a slot is told who has joined |
| ChatEvents.WelcomeLists | hw7/chatserver.c:84-106 | the welcome contains exactly the names present, in dictionary order, separated by ", ", or says that nobody is there |
| ChatEvents.FullIsRefused | hw7/chatserver.c:172-179 | an arrival is turned away without any change if and only if all slots are in use |
| ChatEvents.HangUpIsSilent | hw7/chatserver.c:188-207 | an arrival that hangs up has been greeted and nothing else changes |
| ChatEvents.FailureIsSilent | hw7/chatserver.c:255-259 | a read that fails changes nothing |
| ChatRuns.ShutdownDelivers | hw7/chatserver.c:112-115 | on shutdown "bye" goes, last, to exactly those still connected |
| ChatRuns.ShutdownReleases | hw7/chatserver.c:112-130 | after shutdown the listening socket is closed, every copy of a name has been freed once, and the connections still open are exactly those that were greeted and hung up before giving a name |
| ChatRuns.LeftOpenExactly | hw7/chatserver.c:172-207 | a connection is still open after shutdown if and only if it arrives while there is room and hangs up when it should give its name |
| ChatRuns.OneLeftOpen | hw7/chatserver.c:206-207 | after the run of one such arrival the connection is still open |
| ChatRuns.StepAccounts | hw7/chatserver.c:144-227 | every event keeps open exactly the connections that were greeted and have not left, and unfreed exactly the names in the slots |
| ChatLoop.Serve | hw7/chatserver.c:360-410 | the program from start to shutdown, on the arrays: it handles the events that its rounds bring, and what has been sent, closed and freed at the end is what is due |
| ChatLoop.HandleRound | hw7/chatserver.c:360-407 | one round handles the accepted connection, then the clients that were connected when it began and are ready, in slot order, and nothing after the signal |
| ChatLoop.RoundServes | hw7/chatserver.c:360-407 | the events of a round are the arrival and, for each slot before the signal whose connection is ready, one read, in slot order |
| ChatLoop.EveryReadyClientIsServed | hw7/chatserver.c:400-406 | in a round without signal and failure a client is read from if and only if it is ready |
| ChatLoop.EveryRoundIsHandled | hw7/chatserver.c:360-407 | every round up to the one that ends the loop is handled, from the state the rounds before have left |
| ChatRuns.StepMatches | hw7/chatserver.c:159-274 | every event keeps slots and room in step and everybody sent what is due |
| ChatRuns.BroadcastReaches | hw7/chatserver.c:59-71 | a broadcast reaches each connected client but the one left out, once, and nobody else |
| ChatRuns.SameWelcome | hw7/chatserver.c:84-106 | the welcome lists the names of those present in sorted order, whatever their slots |
| Names.SortNamesSorts | hw7/chatserver.c:91-98 | the listed names are in dictionary order and are the given ones |
| Names.SeparatedAt | hw7/chatserver.c:100-104 | each name is at its place in the list, with ", " before the next |
| Names.AscendingUnique | hw7/chatserver.c:98 | there is only one such arrangement, so it is what qsort leaves |
| Names.StrCmpIsTotalOrder | hw7/chatserver.c:76-78 | the comparator is a total order that equates only identical names |
| Names.StrCmpIsDictionary | hw7/chatserver.c:76-78 | a name compares less exactly when it is a proper prefix or has the smaller character where the two first differ |
| ChatServer.ChatServer.HandleServerSocket | hw7/chatserver.c:159-227 | on the arrays: refuse, or greet and add to the first free slot and announce; socket, name and counter stay consistent |
| ChatServer.ChatServer.HandleClientSocket | hw7/chatserver.c:234-274 | on the arrays: drop the client or relay its message, consistently |
| ChatServer.ChatServer.DisconnectClient | hw7/chatserver.c:137-152 | on the arrays: announce the leaving, close the connection, free the name and the slot, consistently |
| ChatServer.ChatServer.BroadcastBuffer | hw7/chatserver.c:59-71 | on the arrays: the loop over the slots sends what the specification says |
| ChatServer.ChatServer.CreateWelcomeMsg | hw7/chatserver.c:84-106 | on the arrays: builds the welcome text |
| ChatServer.ChatServer.Cleanup | hw7/chatserver.c:112-130 | on the arrays: sends "bye" to every slot in use, closes the listening socket and their connections, and frees their names |
| ChatServer.AcceptConsistent | hw7/chatserver.c:159-227 | an arrival keeps name set iff socket set, no connection in two slots, and the counter the number of slots in use |
| ChatServer.ReceiveConsistent | hw7/chatserver.c:234-274 | so does what a client sends |
| StableSort.InsertKeepsStableSort | 392/lab 3/linked_list.h:24-54 | inserting into the stable sort of what came before gives the stable sort of everything up to the new item |
| StableSort.InsertAllIsStableSort | 392/lab 3/linked_list.h:24-54 | insertion one by one gives a sorted permutation in which equivalent items keep their order |
| StableSort.StableSortExactly | 392/lab 3/linked_list.h:24-54 | being sorted with the same classes in the same order determines the result |
| LinkedLists.LinkedList.InsertInOrder | 392/lab 3/linked_list.h:31-54 | on the heap: the list becomes the ordered insertion, with head, tail, both chains and the count consistent |
| LinkedLists.InsertSequence | 392/lab 3/linked_list.h:31-54 | on the heap: any sequence of insertions into an empty list leaves the stable sort of the inserted nodes |
| LinkedLists.LinkedList.FreeList | 392/lab 3/linked_list.h:80-86 | gives back every node once, last to first, reading only nodes still in use; head and count are left stale |
| LinkedLists.ReversedAt | 392/lab 3/linked_list.h:80-86 | the order of release is the list reversed |
| LinkedLists.LinkedList.PushBack | 392/LinkedList/linked_list.h:18-27 | appends the node, links and count consistent |
| LinkedLists.LinkedList.PushFront | 392/LinkedList/linked_list.h:29-38 | puts the node in front, links and count consistent |
| LinkedLists.LinkedList.PopFront | 392/LinkedList/linked_list.h:40-55 | removes and returns the first node fully unlinked, or null from an empty list |
| LinkedLists.RunDeque | 392/LinkedList/linked_list.h:18-55 | any sequence of the three calls does to the list, and returns, what it does to a sequence of nodes, and leaves nodes outside the list unlinked |
| LinkedLists.DequeOrder | 392/LinkedList/linked_list.h:18-55 | what is pushed at the back comes out last, in order |
| LinkedLists.FrontComesNext | 392/LinkedList/linked_list.h:29-55 | what is pushed at the front comes out next |
| ForkCounter.CounterStaysInRange | sharedmem/sleepingprocesses.c:86-152 | the semaphore is 0 or 1, and 0 exactly while one process is between P and V; the counter lies between -1 and the number of processes |
| ForkCounter.CounterCanBeNegative | sharedmem/sleepingprocesses.c:86-151 | the value -1 is reached when a child counts itself out before the parent has counted it |
| ForkCounter.CounterNegativeExactly | sharedmem/sleepingprocesses.c:86-151 | the counter is negative if and only if a started child is not counted yet and all children have counted themselves out |
| ForkCounter.CounterAtTheEnd | sharedmem/sleepingprocesses.c:154-169 | when the parent is done the counter is the number of children that have not counted themselves out; it is 0 exactly when all have, and so when no wait failed |
| ForkCounter.OnlyOneInSection | sharedmem/semaphore.c:64-97 | while one child is between P and V no other process is |
| ForkCounter.StepInv | sharedmem/sleepingprocesses.c:86-161 | every step of every process keeps the semaphore, the counter and the registers in agreement |
| ForkCounter.Progress | sharedmem/sleepingprocesses.c:138-161 | every step lowers a measure and until the parent is done some process can go on |
| ForkCounter.RunsTerminate | sharedmem/sleepingprocesses.c:86-161 | every run has at most 21 steps for each process and two more |
| ForkCounter.ForkLoopStartsAll | sharedmem/sleepingprocesses.c:138-161 | once the fork loop is left the children and the failed forks together are the number of processes, and at the end each child has been waited for once |
| ForkCounter.EndIsReachable | sharedmem/sleepingprocesses.c:138-169 | from every reachable state the parent can come to its end, with a child for every fork that has not failed, and with the counter 0 if no wait has failed |
| Tokenizer.Parse | 392/minishell/version2/minishell.c:75-87 | the saved positions are the word beginnings and, after trailing white space, the end of the line; the C strings there are the words; white space and nothing else is overwritten; it gets to the end if and only if the vector has room |
| Tokenizer.StartsExactly | 392/minishell/version2/minishell.c:75-87 | the saved beginnings are in ascending order and are all the places where a word begins |
| Tokenizer.EmptyWordExactly | 392/minishell/version2/minishell.c:75-87 | a word is empty if and only if it is the last and the line ends in white space |
| Tokenizer.EveryCharacter | 392/minishell/version2/minishell.c:77-84 | a character belongs to a word if and only if it is no blank, tab or line end |
| Tokenizer.SavedBound | 392/minishell/version2/minishell.c:81 | there are at most half as many arguments as characters, and one |
| Tokenizer.RoomExactly | 392/minishell/version2/minishell.c:75-87 | a vector has room for every line of a length if and only if it has room for half as many arguments, one more, and the NULL |
| Tokenizer.ParseOfJoined | 392/minishell/version2/minishell.c:75-87 | parsing words joined by single blanks gives back the words |
| Gcd.GcdIter | 392/gradingB/gcd.cpp:11-19 | the loop returns what the recursion returns |
| Gcd.GcdRecIsGcd | 392/gradingB/gcd.cpp:21-32 | the result divides both arguments, every common divisor divides it, and it is not negative for arguments that are not |
| Gcd.GcdRecSign | 392/gradingB/gcd.cpp:21-32 | the result has the sign of the first argument after an even number of remainders and of the second after an odd number; it is not positive if neither argument is |
| Gcd.GcdRecIsGreatest | 392/gradingB/gcd.cpp:21-32 | its absolute value is the greatest common divisor, and it is 0 only for 0 and 0 |

## Left out

- Failures of the thread and mutex calls, of `pthread_create` and of `malloc`; thread creation order, which the free interleaving covers.
- Random sleeps, log lines, time stamps and the text form of an expression in a queue cell: items are pairs of numbers.
- Machine integers, except where a bound is stated: `Sieve.ProductFits`, which holds for every range, `SieveThreads.NoOverflowExactly`, which says exactly for which ranges and numbers of threads the sums of `mtsieve.c` (lines 58, 222, 235, 242, 243) stay in the range of int, and the element count of the quicksort, which must fit an int.
- `sqrt`, `ceil` and the division in doubles are taken to be exact.
- Option parsing and messages of `mtsieve.c` and `sleepingprocesses.c`; `SEM_UNDO`, since no process ends between P and V; failing `semop` calls.
- `dbl_cmp` (not a total preorder because of NaN) and `str_cmp` of the quicksort, which compares strings the elements only point to.
- The chat server's sockets, and `select` itself: what it reports is a parameter; interrupted calls; failing sends; messages and names longer than the buffers.
- ChatServer.ChatServer.Cleanup: does not model the delay between "bye" and closing, which changes no state.
- Printing of lists; the fate of the node after `pop_front`, which belongs to the caller.
- Tokenizer.Parse: does not model what the program writes behind a vector that is too short, which C leaves undefined; the model stops there and says so in its result.
- Drafts and variants of the same programs elsewhere in the repository (`392/mtsieve`, `392/Qsort original`, `392/minishell/v1`), `392/sorts/sorts.c`, and the programs that only wrap system calls.
