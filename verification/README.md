# OS/161 kernel core: a verified model

A Dafny model of the parts of the OS/161 teaching kernel (version 1.99) whose behaviour
is hardest to see from the text, with proofs about every input, every interleaving or
every sequence of calls. There are five independent groups of modules.

**Threads and synchronisation.** `Scheduler` is the thread system of a machine with any
number of processors, as a step system at the grain of single spinlock operations:
`thread_switch` with its idle loop and the run-queue lock handed from one thread to the
next, `thread_startup`, `thread_make_runnable`, `thread_fork`, `exorcise`, the wait
channels, `thread_consider_migration` in the timer interrupt, spl changes, and interrupt
handlers running on the stack of the current thread, even in `cpu_idle`. `SchedulerLinks`
proves where threads are, `SchedulerLocks` who holds what, that the interrupt counters are
right and that nobody waits for a run-queue lock while holding one, and `SchedulerRunnable`
that a runnable thread stays runnable until it is picked and that migration preserves the
set of runnable threads, over every execution. `SchedulerWakeups` follows a sleep and a
wakeup from call to return, `SchedulerSpl` the spl through switches and interrupts.
`Interrupts` is spl.c with the nesting of spinlocks, `Threadlist` the linked list that the
lists of the step system stand for, `Migration` the migration code as loops over queues,
and `SchedulerMigration` shows that its steps, undisturbed, do what the loops do.
`Semaphore`, `Lock` and `CondVar` are synch.c, interleaved at every spinlock operation and,
for locks, at every read and write of the two fields; `SemaphoreCalls`, `LockCalls` and
`CondVarCalls` say what a caller can rely on when a call returns. Two clients sit on top:
`Processes` (fork, `_exit`, `waitpid`, the process tables and the menu) with `ForkedPids`
(the pid that fork returns) and `ProcessCalls`, and `Traffic` (the intersection monitor, as
the class that changes its globals and as the system of vehicles with Mesa wakeups) with
`TrafficOrder` (who goes next).

**Arithmetic.** `Digits`, `AlgorithmD`, `Shifts` and `QDivRem` are `__qdivrem`: Knuth's
Algorithm D (volume 2, section 4.3.1) on arrays of base-2^16 digits with 32-bit words that
wrap. `Multiply` is `__lmulq` and `__muldi3`, `SignedDivision` the signed wrappers.

**Kernel heap.** `HeapModel`, `HeapSizes` and `Kmalloc`: page descriptors on two linked
lists, free lists threaded through the free blocks, the descriptor bitmap, the two critical
sections between which the lock is dropped, and the sizes that were asked for.

**SFS.** On a device that does not fail: `Bytes` and `SfsModel` (blocks, inodes, the role
of each block, and which blocks are marked), `Bitmap` with `SfsFreeMap`, `Uio`, `SfsTransfer` and `Sfs`
(formatting, allocation, block mapping, file input and output), `SfsTruncate`, `SfsRefs`
and `SfsVnodes` (the vnode table, reference counts, reclaim), `SfsDirModel`, `SfsDirFile`
and `SfsDir` (names and link counts), `SfsLayout` (the bytes on disk), and `SfsLimits`
(where offsets, sizes and volumes become too large).

**Numbers as text.** `Format` says what a format prints, `Printf` is `__printf.c` and
`snprintf.c` as code that updates its state record and a buffer, `Atoi` is `atoi`, and
`PrintParse` relates the two; `Conversions` says what every directive prints, by what its
text reads as. `Arithmetic`, `Linking` and `Options` hold what several
groups share.

Sequential code is written as methods over arrays and objects; protocols are state
machines whose steps are the atomic actions of the code, and the theorems about them hold
in every state of every run from the initial state. Integers wrap where the source's do.
Nothing was executed: all results are proofs about the model.

## Where the code does less than it promises

- An intersection vehicle does not look again after `cv_wait`. If the last vehicle leaves
  while a woken one is still on its way in, vehicles of two directions get in:
  `Traffic.ConflictHappens` is such a run, and `Traffic.OvertakingIsTheFault` says that
  only such an exit does it.
- `sys_fork` reads the pid it returns off the structure of a child that is already running.
  If the child has exited by then, the structure is freed and the value is whatever is in
  that memory: `ForkedPids.ForkIsRight` is the exact condition, `ForkedPids.ForkCanBeWrong`
  says that any number can come out of it, and `ForkedPids.ForkedPidIsLost` is a run in which
  fork returns 0xdeadbeef and `waitpid` then answers ECHILD.
- `sfs_truncate` keeps an indirect block exactly at the new end, although its comment says
  blocks past the end are discarded (`SfsTruncate.NothingLeftPastTheEnd` says when), and it
  clears no bytes: `SfsTruncate.TruncationLeavesZeros` says exactly when what is past the
  new length reads as zeros, and `SfsLimits.OldByteComesBack` is a write, a truncation, a
  write and a read that returns the old byte.
- A write at or past offset 2^41 lands 2^41 earlier in the file, and the new size is cut to
  32 bits: `SfsLimits.BytesAreRight` and `SfsLimits.SizeIsRight` are the exact conditions,
  `SfsLimits.WriteFarOut` and `SfsLimits.WriteRefused` writes that fail.
- A write that is refused at its first block still sets the size to its offset if that is
  larger: `SfsLimits.NothingWritten` says exactly when the size stays, and
  `SfsLimits.RefusedAndGrown` is such a write, after which part of the file cannot be read.
- Whole blocks of a volume are addressed by a 32-bit byte offset, so that block b is taken
  for block b mod 2^23: `SfsLimits.WholeBlockLands` and `SfsLimits.WholeBlockFound` say when
  that matters, `SfsLimits.SuperblockOverwritten` is a volume where it does. mksfs makes
  volumes of at most 131072 blocks.
- printf pads with zeros on the right if given both `-` and a leading `0`, so that `atoi`
  does not recover the number: `PrintParse.RoundTrip` is the exact condition, in terms of
  the text of the directive.
- kmalloc asks for no page at all when the size is above 2^32 - 4096
  (`Kmalloc.Heap.WholePages`); exit codes lose their two highest bits
  (`Processes.ExitCodeSurvives`).

## Model

| member | source | states |
|---|---|---|
| `AlgorithmD.QhatIsQuotientOrOneMore` | common/gcc-millicode/qdivrem.c:182-210 | for every base and digit count: the quotient of the three leading dividend digits by the two leading divisor digits, cut off at base - 1, is the true quotient digit or one more, whenever the dividend is below base times the divisor; this is why one add-back is enough |
| `AlgorithmD.EstimateDigit` | common/gcc-millicode/qdivrem.c:186-210 | D3, with its jump into the correction loop and its wrapped 32-bit products, ends with exactly that three-by-two-digit quotient, cut off at B - 1 |
| `AlgorithmD.BorrowIsExact` | common/gcc-millicode/qdivrem.c:217-223 | the 32-bit word that wraps in D4 still splits into the digit to store and the borrow to carry, without loss |
| `AlgorithmD.MultiplySubtract` | common/gcc-millicode/qdivrem.c:217-225 | D4 in place: the digits of u become the true difference u - qhat*v, plus B^(n+1) exactly when a borrow runs off the left end; nothing outside them changes |
| `AlgorithmD.AddBack` | common/gcc-millicode/qdivrem.c:230-237 | D6 in place: v is added to the digits of u modulo B^(n+1), the lost carry included in the equation |
| `Shifts.ShiftLeft` | common/gcc-millicode/qdivrem.c:270-279 | shl in place: every digit is that of the number shifted left, the bits that fall out on the left being dropped, digits outside untouched |
| `Shifts.ShiftRight` | common/gcc-millicode/qdivrem.c:247-254 | the loop that shifts the remainder back, from right to left, leaves the digits of the number shifted right |
| `Shifts.NormalisingShift` | common/gcc-millicode/qdivrem.c:169-171 | D1 ends with the shift below 16 that brings the leading divisor digit into the upper half of the digit range |
| `QDivRem.EstimateForDigits` | common/gcc-millicode/qdivrem.c:182-210 | in terms of the digit arrays: D3 yields the quotient digit or one more |
| `QDivRem.Estimate` | common/gcc-millicode/qdivrem.c:186-210 | D3 on the arrays: the true digit or one more |
| `QDivRem.DivideDigit` | common/gcc-millicode/qdivrem.c:182-239 | one round D3 to D6 leaves in u the remainder, below v, and returns the quotient digit: old u = q*v + new u |
| `QDivRem.DivideRound` | common/gcc-millicode/qdivrem.c:182-240 | the loop invariant of D2 to D7: dividend = quotient so far * v * B^(rest) + running remainder, and the running remainder is below v * B^(rest) |
| `QDivRem.DivideDigits` | common/gcc-millicode/qdivrem.c:179-240 | the loop on j: all quotient digits are in q, u holds the remainder, which is below v |
| `QDivRem.Split` | common/gcc-millicode/qdivrem.c:112-122 | the digits of a 64-bit number stand for that number |
| `QDivRem.Assemble` | common/gcc-millicode/qdivrem.c:255-263 | COMBINE of the last four digits is the number they stand for |
| `QDivRem.ShortDigit` | common/gcc-millicode/qdivrem.c:136-142 | one step of short division: r*B + d = q*t + r' with a digit-sized q and r' < t |
| `QDivRem.DivideByDigit` | common/gcc-millicode/qdivrem.c:125-148 | the one-digit divisor path: dividend = q*t + r, r < t |
| `QDivRem.DivisorLength` | common/gcc-millicode/qdivrem.c:123-150 | the scan for the leading divisor digit drops only zeros |
| `QDivRem.SkipLeadingZeros` | common/gcc-millicode/qdivrem.c:157-158 | the scan of the dividend stops before it is shorter than the divisor, because the dividend is not smaller |
| `QDivRem.Normalise` | common/gcc-millicode/qdivrem.c:169-175 | D1 multiplies both numbers by the same power of two, loses no bit, and leaves the dividend below v * B^(m+1) |
| `QDivRem.TakeRemainder` | common/gcc-millicode/qdivrem.c:247-258 | undoing the normalising shift on the remainder gives the remainder of the numbers as they came |
| `QDivRem.LongDivide` | common/gcc-millicode/qdivrem.c:152-263 | the whole multi-digit path: quotient and remainder of the numbers passed in |
| `QDivRem.UnsignedDivide` | common/gcc-millicode/qdivrem.c:67-263 | __qdivrem on every path: a divisor of 0 traps, and otherwise u = q*v + r with 0 <= r < v |
| `Multiply.CarryChain` | common/gcc-millicode/muldi3.c:213-234 | adding x << 16 to a two-word number with the carry seen as a wrapped low word is addition modulo 2^64 |
| `Multiply.BorrowChain` | common/gcc-millicode/muldi3.c:218-222 | the same for subtraction, where the sign-and-difference product is negative |
| `Multiply.Difference` | common/gcc-millicode/muldi3.c:200-207 | the difference of two halves as size and sign, the sign folded into neg, across all four sign cases |
| `Multiply.AssembleProduct` | common/gcc-millicode/muldi3.c:212-240 | the carry chains put the three products together modulo 2^64 |
| `Multiply.WordProduct` | common/gcc-millicode/muldi3.c:183-241 | __lmulq is the exact 64-bit product of any two 32-bit words |
| `Multiply.PatternProduct` | common/gcc-millicode/muldi3.c:124-157 | only the low product is needed in full: the result is the product of the two 64-bit patterns modulo 2^64 |
| `Multiply.SignedProduct` | common/gcc-millicode/muldi3.c:99-164 | __muldi3 is a*b modulo 2^64, read as a signed number, for all signed 64-bit operands |
| `SignedDivision.SignedDivide` | common/gcc-millicode/divdi3.c:44-62 | __divdi3: traps exactly on 0, and otherwise is the truncating quotient modulo 2^64 |
| `SignedDivision.SignedRemainder` | common/gcc-millicode/moddi3.c:45-62 | __moddi3: traps exactly on 0, and otherwise is what the truncating quotient leaves |
| `SignedDivision.TruncDivIsTruncating` | common/gcc-millicode/divdi3.c:44-62 | the quotient meant is the one of section 6.5.5 of ISO C99: the remainder is smaller than the divisor and never of the sign opposite to the dividend |
| `SignedDivision.DivisionIdentity` | common/gcc-millicode/moddi3.c:45-62 | (a/b)*b + a%b = a modulo 2^64 for all operands, the least number divided by -1 included |
| `SignedDivision.QuotientWrapsOnlyAtLeast` | common/gcc-millicode/divdi3.c:44-62 | the signed quotient differs from the mathematical one for exactly one pair of operands |
| `Printf.Snp.Send` | common/libc/printf/snprintf.c:73-93 | the buffer always holds the first buflen characters of everything sent, whatever the pieces |
| `Printf.Pf.Print` | common/libc/printf/__printf.c:145-149 | text goes to the sink and is counted |
| `Printf.Pf.EndField` | common/libc/printf/__printf.c:155-168 | a field ends with the state a fresh one starts in |
| `Printf.Pf.FillOut` | common/libc/printf/__printf.c:335-344 | spc fill characters are sent |
| `Printf.Pf.PrintStuff` | common/libc/printf/__printf.c:352-391 | a field is its prefixes, digits and padding in the order that left, right and zero padding ask for |
| `Printf.Pf.Modifier` | common/libc/printf/__printf.c:178-228 | a modifier character updates the field, with 0 a flag or a digit of the width |
| `Printf.Pf.GetNum` | common/libc/printf/__printf.c:236-298 | the next argument as size and sign: it is congruent to the argument modulo 2^32 or 2^64, as the modifiers say, and lies in the range of its signed or unsigned type; the least number included |
| `Format.FetchedIs` | common/libc/printf/__printf.c:236-298 | there is one such value, and it is the one the format means |
| `Printf.Pf.SetBase` | common/libc/printf/__printf.c:311-330 | base and alternate-form flag of a conversion |
| `Printf.Pf.Convert` | common/libc/printf/__printf.c:413-454 | the digits written right to left into the fixed buffer are the digits of the number, most significant first, and never run off the buffer; that these are its numeral is Conversions.DigitsRead |
| `Printf.Pf.PrintNum` | common/libc/printf/__printf.c:400-478 | sign, base prefix and digits of a number, padded |
| `Printf.Pf.SendInteger` | common/libc/printf/__printf.c:511-521 | an integer conversion prints the text the format means and ends the field |
| `Printf.Pf.SendChar` | common/libc/printf/__printf.c:483-550 | one format character: the step of the formatting state machine |
| `Printf.VPrintf` | common/libc/printf/__printf.c:557-575 | a session sends exactly the output of the format on the arguments, and returns its length |
| `Printf.VSnprintf` | common/libc/printf/snprintf.c:98-142 | for every format, arguments and length: the total length is returned; with len > 0 the first min(len-1, total) characters and a NUL are stored and nothing after; with len 0 nothing; what the output of a format is, Conversions says without naming the code |
| `Atoi.SkipBlanks` | common/libc/stdlib/atoi.c:56-59 | the first loop stops after the leading blanks |
| `Atoi.ReadDigits` | common/libc/stdlib/atoi.c:70-92 | the digit loop accumulates the value of the digit run modulo 2^32 |
| `Atoi.Atoi` | common/libc/stdlib/atoi.c:49-101 | atoi is the number a string stands for: blanks, sign, digit run, rest ignored, wrapped to an int |
| `PrintParse.DirectiveOutput` | common/libc/printf/__printf.c:483-575 | what % with any modifiers and d prints for an int: sign and decimal digits, padded as the modifiers say |
| `PrintParse.DigitsAreDecimal` | common/libc/printf/__printf.c:426-446 | the digits printed have the number as their decimal value |
| `PrintParse.ParsedValue` | common/libc/stdlib/atoi.c:49-101 | read back, any padding of a number gives the number times ten for every zero padded on its right, wrapped |
| `PrintParse.ModifiersMean` | common/libc/printf/__printf.c:178-228 | the field any string of modifiers leaves, read off its text: padding on the right exactly with a -, zeros exactly with a 0 before any other digit, the width all its digits read as a number, the alternate form exactly with a #, the size by the number of l: none an int, an odd number a long, an even one a long long |
| `PrintParse.PadsZerosRightIs` | common/libc/printf/__printf.c:335-391 | zeros are padded on the right exactly if the text has a - and a leading 0 and its width is more than the length of the number |
| `PrintParse.RoundTrip` | common/libc/printf/__printf.c:335-391 | for every int and every string of modifiers: atoi recovers the number printed with %d if and only if the text does not ask for zeros on the right (a -, a leading 0 and a width above the length of the number), or the number is 0 |
| `PrintParse.RoundTripFails` | common/libc/printf/__printf.c:387-390 | the failing family is not empty: %-03d prints 7 as "700", which reads as 700 |
| `PrintParse.PrintThenRead` | common/libc/printf/snprintf.c:98-142 | snprintf into a large enough buffer followed by atoi on that buffer: the same if and only if |
| `Conversions.DigitsRead` | common/libc/printf/__printf.c:413-454 | in every base from 2 to 16 the digits printed for a number are a numeral, without leading zeros, of lower-case digits below the base, that reads as that number |
| `Conversions.OneNumeral` | common/libc/printf/__printf.c:413-454 | and there is no other such numeral for it |
| `Conversions.IntegerDirective` | common/libc/printf/__printf.c:178-521 | %d, %u, %x, %o and %p with any modifiers print the numeral in their base of the argument as a value of their type, signed or unsigned, 32 bits wide or 64, with its sign, the 0x or 0 of the alternate form, and padding |
| `Conversions.FittingArgument` | common/libc/printf/__printf.c:236-298 | an argument that fits its type prints as itself |
| `Conversions.StringDirective` | common/libc/printf/__printf.c:522-532 | %s prints its string padded, and (null) for a null pointer |
| `Conversions.CharDirective` | common/libc/printf/__printf.c:533-549 | %c prints its character padded, and only padding for a NUL |
| `Conversions.OtherDirective` | common/libc/printf/__printf.c:533-549 | any other character after a % prints as itself, padded, and takes no argument |
| `Conversions.FormatIsPieces` | common/libc/printf/__printf.c:483-575 | every format prints piece by piece: text as it is, a directive what it prints alone with the next argument, or none |
| `Conversions.LiteralText` | common/libc/printf/__printf.c:483-550 | a format without a % prints itself |
| `Conversions.AtoiReads` | common/libc/stdlib/atoi.c:49-101 | atoi of blanks, a sign or none, digits and anything after them is the number the digits write down, negated after a minus, modulo 2^32 in the range of an int |
| `Semaphore.NextKeepsInv` | kern/thread/synch.c:90-144 | every step of every thread keeps: who holds which lock, who is on the list, conservation of the count, no lost wakeup |
| `Semaphore.RunKeepsInv` | kern/thread/synch.c:90-144 | so does every run |
| `Semaphore.EmptyListMeansNobodySleeps` | kern/thread/synch.c:105-125 | a V that finds the list empty under both locks leaves nobody asleep or bound to sleep: the lock bridging of P |
| `Semaphore.SemaphoreIsSafe` | kern/thread/synch.c:90-144 | in every state of every run the count is not negative and is initial + Vs - Ps, and if anyone sleeps or is bound to, the woken threads and the Vs in mid-flight number at least the count |
| `Semaphore.NobodySleepsOnAvailableCount` | kern/thread/synch.c:90-144 | when all threads are outside or asleep, nobody sleeps on a positive count |
| `SemaphoreCalls.ReturnsAreCounted` | kern/thread/synch.c:90-144 | in every run the Ps that have returned, and those about to, are the units taken out of the count, and the Vs that have raised it, returned or not, the units put in; read off who enters and leaves the calls |
| `SemaphoreCalls.PsNeedVs` | kern/thread/synch.c:90-144 | in every run no more Ps have returned than the initial count plus the Vs that were called |
| `SemaphoreCalls.NothingIsLost` | kern/thread/synch.c:90-144 | when nothing but sleep is under way, the count is the initial count plus the Vs called minus the Ps returned, and 0 if anyone sleeps |
| `SemaphoreCalls.SleepersQueue` | kern/thread/synch.c:90-144 | sleepers join the list at its end and leave it at its head |
| `Lock.NextKeepsInv` | kern/thread/synch.c:187-224 | every step, including each single read and write of hold and owner, keeps the invariant of the lock |
| `Lock.RunKeepsInv` | kern/thread/synch.c:187-224 | so does every run |
| `Lock.MutualExclusion` | kern/thread/synch.c:187-216 | at most one thread holds the lock |
| `Lock.DoIHoldIsRight` | kern/thread/synch.c:218-224 | the two unlocked reads of lock_do_i_hold answer correctly for the caller, both ways, whatever happens between them |
| `Lock.FreeLockIsNotForgotten` | kern/thread/synch.c:187-216 | a free lock with a sleeper always has a woken thread or a release that has not yet looked for one |
| `LockCalls.AcquireEndsHolding` | kern/thread/synch.c:187-203 | when lock_acquire returns the caller holds the lock, hold and owner say so, and nobody else holds it |
| `LockCalls.ReleaseEndsFree` | kern/thread/synch.c:205-216 | when lock_release returns the caller does not hold it |
| `LockCalls.HeldUntilReleased` | kern/thread/synch.c:187-216 | the lock is given up only in lock_release, taken only when it is free, and slept on only while somebody holds it |
| `LockCalls.AskAnswers` | kern/thread/synch.c:218-224 | lock_do_i_hold returns, from its two reads, whether the caller holds the lock, and changes nothing for it |
| `LockCalls.SleepersQueue` | kern/thread/synch.c:187-216 | sleepers join the list at its end and leave it at its head |
| `CondVar.NextKeepsInv` | kern/thread/synch.c:263-294 | every step of cv_wait, cv_signal and cv_broadcast keeps the invariant |
| `CondVar.RunKeepsInv` | kern/thread/synch.c:263-294 | so does every run |
| `CondVar.EmptyListMeansNobodyWaits` | kern/thread/thread.c:1059-1091 | a wakeup that finds the channel empty leaves nobody who gave up the lock still waiting |
| `CondVar.BroadcastWakesEveryWaiter` | kern/thread/synch.c:287-294 | when a broadcast is done, nobody who gave up the lock before it is on the list, on the way to it, or in anyone's hands |
| `CondVar.SignalMissesNobody` | kern/thread/synch.c:276-285 | a signal that takes nobody leaves nobody waiting |
| `CondVarCalls.WaitEndsWoken` | kern/thread/synch.c:263-274 | cv_wait never returns of itself: between call and return the thread slept, was first on the list, and was taken off it by a signal or broadcast |
| `CondVarCalls.LeavesByAcquire` | kern/thread/synch.c:263-274 | and only then acquired the lock again, before it returned |
| `CondVarCalls.BroadcastWakesAll` | kern/thread/synch.c:287-294 | from its call to its return a broadcast makes everyone who was waiting when it was called acquire the lock again |
| `CondVarCalls.SignalLooks` | kern/thread/synch.c:276-285 | a signal that returns has taken the lock of the channel on the way |
| `CondVarCalls.SignalWakesTheFirst` | kern/thread/synch.c:276-285 | a signal that finds sleepers makes the first acquire the lock again before it returns, and leaves the others on the list in their order |
| `Traffic.FullNamesAll` | kern/synchprobs/traffic_synch.c:110-119 | the array of four never overflows: four different directions are all there are |
| `Traffic.Intersection.constructor` | kern/synchprobs/traffic_synch.c:25-35 | an empty intersection: no direction waiting, none current, count 0 |
| `Traffic.Intersection.InWaitlist` | kern/synchprobs/traffic_synch.c:112-114 | the scan finds a direction exactly if it is waiting |
| `Traffic.Intersection.Arrive` | kern/synchprobs/traffic_synch.c:102-128 | intersection_before_entry up to the wait: a vehicle enters exactly if nobody is counted inside and no direction is current or its own is, and otherwise its direction is on the wait list once |
| `Traffic.Intersection.Resume` | kern/synchprobs/traffic_synch.c:130-134 | after cv_wait the vehicle is counted, without another look |
| `Traffic.Intersection.DropFirst` | kern/synchprobs/traffic_synch.c:160-165 | shifting the array down drops the first direction |
| `Traffic.Intersection.Exit` | kern/synchprobs/traffic_synch.c:148-176 | intersection_after_exit: the last one out hands the intersection to the first direction waiting and wakes it |
| `Traffic.NextKeepsInv` | kern/synchprobs/traffic_synch.c:102-176 | every interleaving with Mesa wakeups keeps: the wait list is duplicate-free and names exactly the directions with sleepers, count is the number of vehicles inside, and with nobody inside or woken nobody sleeps and no direction is current |
| `Traffic.RunKeepsInv` | kern/synchprobs/traffic_synch.c:102-176 | so does every run |
| `Traffic.NextKeepsOneWay` | kern/synchprobs/traffic_synch.c:102-176 | every step keeps all vehicles inside, and all woken, from the current direction, unless it is an exit that brings count to 0 while a woken vehicle is pending and makes another direction current |
| `Traffic.RunKeepsOneWay` | kern/synchprobs/traffic_synch.c:102-176 | so does every run without such an exit |
| `Traffic.IntersectionIsSafe` | kern/synchprobs/traffic.c:287-318 | in every state reached without such an exit any two vehicles inside have the same origin, and check_constraints finds no conflict |
| `Traffic.NobodyIsStranded` | kern/synchprobs/traffic_synch.c:102-176 | in every run a sleeping vehicle has its direction on the wait list and a vehicle inside or on its way in before it |
| `Traffic.OvertakingIsTheFault` | kern/synchprobs/traffic_synch.c:120-130 | an exit breaks the one-way property if and only if it brings count to 0 while a woken vehicle is pending and makes another direction current, and then two more events put vehicles of different origins inside |
| `Traffic.ConflictHappens` | kern/synchprobs/traffic.c:287-318 | a run of eight events from the empty intersection that puts two conflicting vehicles inside |
| `TrafficOrder.ListIsInOrder` | kern/synchprobs/traffic_synch.c:110-119 | in every run the wait list is in the order in which the directions began to wait |
| `TrafficOrder.ArrivalRule` | kern/synchprobs/traffic_synch.c:102-128 | in every run an arriving vehicle enters if and only if nobody is inside and no direction, or its own, is current, and otherwise sleeps |
| `TrafficOrder.NoNeedlessWait` | kern/synchprobs/traffic_synch.c:102-128 | a vehicle that comes when nobody is inside or woken enters |
| `TrafficOrder.ExitAmongOthers` | kern/synchprobs/traffic_synch.c:148-176 | a vehicle that leaves others behind wakes nobody |
| `TrafficOrder.LastExitHandsOver` | kern/synchprobs/traffic_synch.c:148-176 | in every run the last one out makes the direction current that has waited longest, and wakes all vehicles asleep there and no others; with nobody asleep no direction is current |
| `Processes.ExitCodeSurvives` | kern/include/kern/wait.h:46-74 | the code an application reads back with WEXITSTATUS is the one passed to _exit if and only if it fits 30 bits |
| `Processes.IsExist` | kern/syscall/proc_syscalls.c:18-30 | isExist finds a pid exactly if fork recorded it as a child |
| `Processes.LoopTestIsSound` | kern/syscall/proc_syscalls.c:137-147 | at the loop test of waitpid the slot of the child is in the tables and says alive exactly while the child has not cleared it, and the condition variable still exists if it does |
| `Processes.FewChildren` | kern/syscall/proc_syscalls.c:174-216 | a process has no more children than pids were handed out, so childArray has room |
| `Processes.NextKeepsInv` | kern/syscall/proc_syscalls.c:18-216 | every step of fork, with its late read of the pid, of _exit and of waitpid, with its ECHILD, by any process keeps the tables, the table lock, the sleepers, the family, the makers, the menu and the reports right |
| `Processes.StepKeepsCounts` | kern/proc/proc.c:117-195 | every step keeps proc_count the number of live processes, and the semaphore of the menu raised exactly when it fell to 0 |
| `Processes.RunKeepsInv` | kern/syscall/proc_syscalls.c:18-216 | so does every run |
| `Processes.WaitpidReportsTheExitCode` | kern/syscall/proc_syscalls.c:111-170 | waitpid returns 0 only for a child in childArray that has exited, with the status made of exactly the code it passed to _exit |
| `Processes.NobodySleepsForever` | kern/syscall/proc_syscalls.c:39-91 | a sleeper is on the condition variable of a child that exists and will still broadcast |
| `Processes.TablesAreUsedSafely` | kern/syscall/proc_syscalls.c:111-216 | the tables are indexed within bounds, no destroyed condition variable is waited on, and childArray is not overrun |
| `Processes.MenuWaitsForAll` | kern/startup/menu.c:127-162 | the menu goes on only when every process ever started is destroyed |
| `ProcessCalls.ExitKeepsItsCode` | kern/syscall/proc_syscalls.c:39-91 | in every run a process that has called _exit does nothing else, and its code never changes |
| `ProcessCalls.ExitWasCalled` | kern/syscall/proc_syscalls.c:39-91 | and a process that is exiting did call _exit with that code |
| `ProcessCalls.WaitReportsTheCodePassed` | kern/syscall/proc_syscalls.c:111-170 | the status waitpid returns is made of the code its child passed when it called _exit, earlier in the run |
| `ProcessCalls.WaitEndsWithStatus` | kern/syscall/proc_syscalls.c:111-170 | a waitpid for a child returns only with a status for that child |
| `ProcessCalls.ForkEndsWithPid` | kern/syscall/proc_syscalls.c:174-216 | a fork returns only with a child that it made, that has been started and is in childArray |
| `ForkedPids.ForkReturnsItsChild` | kern/syscall/proc_syscalls.c:195-210 | in every run the child that fork made is in childArray when its pid is read, and what is read is its pid unless it has been destroyed |
| `ForkedPids.ForkIsRight` | kern/syscall/proc_syscalls.c:204-210 | however the run goes on, fork returns the pid of its child, if and only if the child is not destroyed before the pid is read |
| `ForkedPids.ForkedPidIsKnown` | kern/syscall/proc_syscalls.c:111-170 | from then on, in every run, waitpid never answers ECHILD for a pid that fork read in time, and reports for it exactly the code its child passed to _exit |
| `ForkedPids.RunKeepsChildren` | kern/syscall/proc_syscalls.c:195-199 | a pid once in childArray stays there |
| `ForkedPids.LateRead` | kern/syscall/proc_syscalls.c:209-209 | a read after the child is destroyed may give any number |
| `ForkedPids.ForkCanBeWrong` | kern/syscall/proc_syscalls.c:39-91 | whenever the child runs and lk_tb is free before the read, the run can go on so that fork returns any number, and waitpid answers ECHILD if that is not in childArray |
| `ForkedPids.ForkedPidIsLost` | kern/syscall/proc_syscalls.c:174-216 | a run from the start in which fork returns 0xdeadbeef and waitpid ECHILD |
| `Threadlist.InsertAfterNode` | kern/thread/threadlist.c:106-122 | a node goes into the doubly linked chain after another; the links of all others stay consistent |
| `Threadlist.InsertBeforeNode` | kern/thread/threadlist.c:126-142 | the same, before another |
| `Threadlist.RemoveNode` | kern/thread/threadlist.c:146-158 | a node is unlinked, its own links cleared, the chain closed |
| `Threadlist.List.constructor` | kern/thread/threadlist.c:60-71 | the bookended empty list is the empty sequence |
| `Threadlist.List.IsEmpty` | kern/thread/threadlist.c:91-95 | tells exactly whether the sequence is empty |
| `Threadlist.List.AddHead` | kern/thread/threadlist.c:162-169 | refines prepending to a sequence |
| `Threadlist.List.AddTail` | kern/thread/threadlist.c:172-179 | refines appending |
| `Threadlist.List.RemHead` | kern/thread/threadlist.c:182-197 | refines taking the first, NULL exactly on the empty list |
| `Threadlist.List.RemTail` | kern/thread/threadlist.c:200-215 | refines taking the last, NULL exactly on the empty list |
| `Threadlist.List.InsertAfter` | kern/thread/threadlist.c:218-224 | refines insertion after a position |
| `Threadlist.List.InsertBefore` | kern/thread/threadlist.c:226-232 | refines insertion before a position |
| `Threadlist.List.Remove` | kern/thread/threadlist.c:234-240 | refines removal at a position |
| `Interrupts.Processor.Raise` | kern/thread/spl.c:86-104 | splraise: counts up, interrupts off with the first |
| `Interrupts.Processor.Lower` | kern/thread/spl.c:106-125 | spllower: counts down, interrupts on with the last |
| `Interrupts.Processor.SetLevel` | kern/thread/spl.c:131-155 | splx: raises or lowers only on a change, and returns the old level |
| `Interrupts.CallsKeepBalance` | kern/thread/spl.c:86-155 | after any sequence of spl and spinlock calls, in any nesting, the count is the raised spl plus the locks held, and interrupts are off exactly when it is positive |
| `SchedulerSpl.SwitchRestoresSpl` | kern/thread/thread.c:557-719 | in every execution thread_switch returns with the spl it was called with, whatever the other processors and interrupts did in between |
| `SchedulerSpl.HandlerRestoresSpl` | kern/arch/mips/locore/trap.c:201-246 | an interrupt handler leaves the spl of the thread it interrupted as it found it, in cpu_idle and elsewhere, even if it yields |
| `SchedulerSpl.NewThreadStartsLow` | kern/thread/thread.c:729-766 | a new thread comes out of thread_startup with interrupts on |
| `SchedulerSpl.OnlySplCallsChangeSpl` | kern/thread/spl.c:131-155 | outside those, only a call of splx by the thread itself changes its spl, to the level asked for |
| `SchedulerLinks.EventDone` | kern/thread/thread.c:434-958 | each of the 35 events of the multi-processor step system does to lists, threads and frames what its kind allows: the case analysis under all that follows |
| `SchedulerWakeups.SwitchGoesOn` | kern/thread/thread.c:546-719 | in every execution the steps of thread_switch come in order: a thread that sleeps is put last on the list of its channel, one that yields on its run queue, one that exits among the zombies, and no other list changes; then the first of the run queue is switched to, as soon as there is one; a yield returns at once exactly if there is nobody |
| `SchedulerWakeups.AsleepUntilWoken` | kern/thread/thread.c:1022-1091 | a thread on the list of a channel leaves it only when it is first and a wakeup of that channel takes it |
| `SchedulerWakeups.WakeupTakesItsShare` | kern/thread/thread.c:1034-1091 | when a wakeup lets go of the channel it has in hand everybody who was there when it took the lock, in order, or, waking one, the first alone, and the others are still there |
| `SchedulerWakeups.WakeupWakes` | kern/thread/thread.c:1034-1091 | when a wakeup returns, all of them have been put on a run queue |
| `SchedulerWakeups.MadeRunnable` | kern/thread/thread.c:434-470 | whoever is in the hands of thread_make_runnable has been on a run queue when its caller is done |
| `SchedulerWakeups.ForkedInHand` | kern/thread/thread.c:477-534 | a new thread is ready, on the processor of its parent, and in the hands of the fork that made it |
| `SchedulerWakeups.ForkedIsRunnable` | kern/thread/thread.c:477-534 | and has been on a run queue before that fork returns |
| `SchedulerLinks.StepKeepsLinks` | kern/thread/thread.c:434-719 | such a step keeps every thread on at most one list, on the run queue of its own processor, and current on at most one |
| `SchedulerLinks.StepKeepsFrames` | kern/thread/thread.c:546-719 | and keeps every stack frame, of a thread or of an interrupt handler, in a state its place allows |
| `SchedulerLinks.StepKeepsVictims` | kern/thread/thread.c:881-954 | and keeps the threads a migration has in hand as many as it still has to send |
| `SchedulerLinks.NextKeepsInv` | kern/thread/thread.c:434-958 | every step of every processor keeps all three |
| `SchedulerLinks.ExecutionKeepsInv` | kern/thread/thread.c:434-958 | so does every execution |
| `SchedulerLinks.EveryThreadHasOnePlace` | kern/thread/thread.c:546-719 | in every reachable state no thread is on two lists, a queued thread is on the queue of its t_cpu, it is linked if and only if no processor is running it, none is current on two processors, and only the current thread of an idle processor is linked |
| `SchedulerLinks.CurrentThreadsAreSpared` | kern/thread/thread.c:896-931 | a thread whose t_cpu changes, or that is destroyed, was current on no processor, and what exorcise destroys was a zombie |
| `SchedulerLinks.MigrationNeverRunsDry` | kern/thread/thread.c:881-954 | a migration never takes from an empty queue or list, whatever other processors have done since it counted |
| `SchedulerLocks.NextKeepsLocks` | kern/thread/thread.c:546-752 | every step keeps the spinlocks each processor holds what its stage and its task say |
| `SchedulerLocks.ExecutionKeepsLocks` | kern/thread/thread.c:546-752 | so does every execution |
| `SchedulerLocks.CountsAreRight` | kern/thread/spl.c:86-155 | for every current thread t_iplhigh_count is the raised spl plus the spinlocks its processor holds, interrupts are off exactly when it is positive outside cpu_idle, and every thread not current carries the two of the switch that will resume it |
| `SchedulerLocks.RunQueueLockIsHandedOver` | kern/thread/thread.c:557-752 | the run-queue lock taken before a switch is the one lock held when the next thread arrives, and none is held after it has dropped it, in thread_switch and thread_startup alike |
| `SchedulerLocks.LocksAreDroppedByTheirHolder` | kern/thread/spinlock.c:72-127 | whatever event comes next, a spinlock it drops is held by the processor that drops it |
| `SchedulerLocks.HandlersLeakNothing` | kern/arch/mips/locore/trap.c:205-246 | when an interrupt handler returns, having dropped the ordinary spinlocks it took, its processor holds no spinlock at all, no run-queue lock included, the spl is still raised and its raise is the only one, as the trap code asserts |
| `SchedulerLocks.NobodyWaitsWithARunQueueLock` | kern/thread/spinlock.c:72-87 | in every execution a processor about to take a run-queue lock, in a wakeup, a switch or a migration, holds none: the deadlock panic of spinlock_acquire never happens on one, and processors never wait for each other's run-queue locks in a circle |
| `SchedulerLocks.HoldersGoOn` | kern/thread/thread.c:434-958 | and a processor that holds a run-queue lock always has a step to take that needs no other run-queue lock |
| `SchedulerLocks.QueuesChangeUnderTheirLock` | kern/thread/thread.c:434-958 | a run queue changes only while no other processor holds its lock |
| `SchedulerRunnable.MigrationPreservesTheRunnable` | kern/thread/thread.c:855-958 | whatever the other processors do meanwhile, every step of thread_consider_migration leaves the set of runnable threads, those on a run queue or in the hands of a migration, exactly as it was |
| `SchedulerRunnable.HandlersAtRestHoldNobody` | kern/thread/thread.c:943-958 | and when it is done it has no thread left in hand |
| `SchedulerRunnable.EventKeepsRunnable` | kern/thread/thread.c:434-958 | every event leaves a runnable thread runnable, or is the one in which a processor switches to it |
| `SchedulerRunnable.RunnableUntilPicked` | kern/thread/thread.c:434-958 | in every execution a runnable thread stays runnable until some processor picks it |
| `Migration.CountAll` | kern/thread/thread.c:864-874 | the first loop adds up all run queues and finds the caller's own |
| `Migration.TakeVictims` | kern/thread/thread.c:881-888 | the victims are the last of the queue, in order |
| `Migration.RoomIsEnough` | kern/thread/thread.c:876-941 | the other queues together have room for all that is above a share |
| `Migration.SharesCoverAll` | kern/thread/thread.c:876-881 | one_share is the least share of which there are enough |
| `Migration.GiveTo` | kern/thread/thread.c:895-940 | filling one other queue to a share moves threads and loses none; the current thread is passed over once |
| `Migration.GiveAll` | kern/thread/thread.c:890-941 | all victims are sent but the current thread, and no queue is filled beyond a share |
| `Migration.PutBack` | kern/thread/thread.c:948-954 | what is left goes back to the caller's queue |
| `Migration.ConsiderMigration` | kern/thread/thread.c:855-958 | if no queue changes meanwhile: a caller below a share changes nothing; otherwise it keeps exactly one_share threads, one more when its own current thread was picked, and the multiset of runnable threads is preserved; for queues that do change see SchedulerRunnable.MigrationPreservesTheRunnable |
| `SchedulerMigration.UndisturbedMigration` | kern/thread/thread.c:855-958 | in every execution of the step system: a migration whose steps no other processor comes between leaves in the run queues what the loops leave, the caller its first threads, a share of them, with its current thread if that is among the rest, and every other victim at the end of a queue that is not filled beyond a share |
| `Kmalloc.Heap.constructor` | kern/vm/kmalloc.c:138-142 | an empty heap satisfies the invariant |
| `Kmalloc.Heap.AllocPageRef` | kern/vm/kmalloc.c:144-168 | the first descriptor not in use is marked, and none is returned exactly when all are in use |
| `Kmalloc.Heap.FreePageRef` | kern/vm/kmalloc.c:170-182 | exactly that descriptor is unmarked |
| `Kmalloc.Heap.TypeOf` | kern/vm/kmalloc.c:377-393 | blocktype is the smallest size class that is large enough |
| `Kmalloc.Heap.FindPage` | kern/vm/kmalloc.c:415-421 | a page of the class with a free block, if there is one |
| `Kmalloc.Heap.TakeBlock` | kern/vm/kmalloc.c:421-448 | doalloc: a block not live before is live for the size asked, every other live block keeps its size and its page its class, and the heap invariant, by which every live block is at least as large as was asked for it, is kept |
| `Kmalloc.Heap.TryAlloc` | kern/vm/kmalloc.c:395-450 | the first critical section: a block of a class large enough, live for the size asked and no other block changed, or no change at all |
| `Kmalloc.Heap.ThreadPage` | kern/vm/kmalloc.c:489-499 | the blocks of a new page are threaded through their first words, and no word outside the page is written |
| `Kmalloc.Heap.SetUpRef` | kern/vm/kmalloc.c:480-505 | the descriptor of a new page and its place at the head of both lists |
| `Kmalloc.Heap.NewPage` | kern/vm/kmalloc.c:469-509 | the second critical section, after the lock was dropped around alloc_kpages: a block of the new page, or no change when descriptors have run out; no word of a live block is written |
| `Kmalloc.Heap.SubpageAlloc` | kern/vm/kmalloc.c:395-509 | subpage_kmalloc as one call: a block of the smallest class that is large enough, not live before, is live for the size asked, all other live blocks as they were with their words untouched; fails only without a page or a descriptor |
| `Kmalloc.Heap.FindOwner` | kern/vm/kmalloc.c:529-546 | the descriptor whose page holds the address, if there is one |
| `Kmalloc.Heap.StartsBlock` | kern/vm/kmalloc.c:548-553 | the test of position and alignment accepts an address exactly if it is a live block or one on a free list |
| `Kmalloc.Heap.FindBlock` | kern/vm/kmalloc.c:529-553 | search and test together: the page of an address if the heap has it, and whether the address is a block, live or on a free list |
| `Kmalloc.Heap.FillDeadbeef` | kern/vm/kmalloc.c:40-51 | every word of the block is 0xdeadbeef and none outside it changes |
| `Kmalloc.Heap.PushFreeList` | kern/vm/kmalloc.c:555-574 | the block is the head of its page's free list, threaded to the old head |
| `Kmalloc.Heap.UnlinkSame` | kern/vm/kmalloc.c:360-366 | the first loop of remove_lists cuts one descriptor out of the list of its size |
| `Kmalloc.Heap.UnlinkAll` | kern/vm/kmalloc.c:368-374 | the second cuts it out of the list of all |
| `Kmalloc.Heap.RemoveLists` | kern/vm/kmalloc.c:352-375 | afterwards both kinds of list hold the same descriptors, all but that one |
| `Kmalloc.Heap.ReturnBlock` | kern/vm/kmalloc.c:555-577 | the block is free, and nfree is the number of blocks exactly when none is live |
| `Kmalloc.Heap.DropPage` | kern/vm/kmalloc.c:577-584 | the page leaves the lists and the descriptor bitmap together |
| `Kmalloc.Heap.FreeOnPage` | kern/vm/kmalloc.c:555-587 | the page goes to free_kpages if and only if no live block is left on it; all other live blocks keep their sizes and words |
| `Kmalloc.Heap.SubpageFree` | kern/vm/kmalloc.c:511-596 | freed exactly if the address is a live block, refused exactly if it is on none of the heap's pages, and otherwise the panic; nothing but that block stops being live, other live blocks keep sizes and words; what goes to free_kpages has no live block and no descriptor |
| `Kmalloc.Heap.Kfree` | kern/vm/kmalloc.c:621-634 | kfree: frees exactly that block, ignores NULL, hands whole-page allocations to free_kpages and panics exactly on an address inside the heap that is no block or off the heap that is no page; the page of a block is handed over only when empty and stays the heap's otherwise |
| `Kmalloc.Heap.WholePages` | kern/vm/kmalloc.c:601-617 | the pages of a large allocation, rounded up in 32 bits: enough for the size if and only if it is at most 2^32 - 4096, and then no more than needed; above that none |
| `Kmalloc.Heap.Kmalloc` | kern/vm/kmalloc.c:601-618 | kmalloc: from 2048 bytes on whole pages, otherwise a block of the smallest class large enough, live for the size asked; live blocks keep their sizes and their words |
| `Kmalloc.Heap.Store` | kern/vm/kmalloc.c:489-499 | whatever the owner of a live block writes into it keeps the heap invariant, though the free lists run through the same memory, and no word of another live block changes |
| `Kmalloc.Heap.BlocksDoNotOverlap` | kern/vm/kmalloc.c:377-596 | after any sequence of calls, any two live blocks are disjoint in the sizes that were asked for, and aligned to eight bytes |
| `Kmalloc.Heap.BlocksAreAligned` | kern/vm/kmalloc.c:377-509 | every live block is one of exactly one size class, at least as large as was asked, and its address is a multiple of the size of that class |
| `HeapModel.BlocksApart` | kern/vm/kmalloc.c:395-509 | blocks of different pages, and different blocks of one page, do not overlap |
| `HeapModel.TakeKeepsPages` | kern/vm/kmalloc.c:423-444 | taking the head of a free list keeps every page's free list the blocks that are not live, once each, nfree of them |
| `HeapModel.ReturnKeepsPages` | kern/vm/kmalloc.c:566-574 | so does returning a live block |
| `HeapModel.NewPageOK` | kern/vm/kmalloc.c:480-499 | the free list of a new page holds each of its blocks once |
| `HeapModel.AddKeepsPages` | kern/vm/kmalloc.c:480-505 | adding a fresh page keeps the invariant of the others |
| `HeapModel.DropKeepsPages` | kern/vm/kmalloc.c:577-584 | and so does dropping one with no live block |
| `HeapModel.LinkKeepsLists` | kern/vm/kmalloc.c:501-505 | linking a descriptor at both heads keeps allbase and the lists by size the same set |
| `HeapModel.UnlinkKeepsLists` | kern/vm/kmalloc.c:352-375 | and so does cutting one out of both |
| `HeapModel.FullyFree` | kern/vm/kmalloc.c:574-577 | nfree never exceeds the number of blocks of a page, and equals it if and only if none is live |
| `HeapSizes.AskedApart` | kern/vm/kmalloc.c:377-596 | no two live blocks overlap in what was asked for |
| `HeapSizes.SizesKept` | kern/vm/kmalloc.c:555-587 | blocks stay as large as asked when others are freed and pages dropped, because no page changes its class |
| `HeapSizes.SizesWithNewPage` | kern/vm/kmalloc.c:480-505 | and when a page is added |
| `HeapSizes.NewPageUntouched` | kern/vm/kmalloc.c:489-499 | threading a fresh page writes no word of a live block |
| `HeapSizes.OthersUntouched` | kern/vm/kmalloc.c:555-574 | clearing a block and linking it writes no word of another live block |
| `HeapSizes.StoreKeepsPages` | kern/vm/kmalloc.c:423-444 | a word inside a live block is on no free list |
| `Bitmap.Bitmap.constructor` | kern/lib/bitmap.c:56-90 | a new bitmap is the empty set, the bits past the end marked for good |
| `Bitmap.Bitmap.Alloc` | kern/lib/bitmap.c:98-123 | the least index not in the set joins it; none is found exactly when all are in it |
| `Bitmap.Bitmap.Mark` | kern/lib/bitmap.c:134-145 | refines adding to a set |
| `Bitmap.Bitmap.Unmark` | kern/lib/bitmap.c:147-158 | refines removing from a set |
| `Bitmap.Bitmap.IsSet` | kern/lib/bitmap.c:161-169 | refines membership |
| `SfsFreeMap.Balloc` | kern/fs/sfs/sfs_vnode.c:89-110 | bitmap_alloc on the free map and the search of the set of marked blocks choose the same block, never one past the volume, and fail together; map and set agree afterwards |
| `SfsFreeMap.Bfree` | kern/fs/sfs/sfs_vnode.c:112-118 | bitmap_unmark keeps them in agreement |
| `SfsFreeMap.Bused` | kern/fs/sfs/sfs_vnode.c:123-132 | and bitmap_isset tells what the set says; the panic exactly past the end of the volume |
| `Uio.Uio.Kinit` | kern/lib/uio.c:152-165 | one buffer, its length the residue |
| `Uio.Uio.MoveOut` | kern/lib/uio.c:41-120 | uiomove, reading: as many bytes as are asked for, or as the residue allows if less, are appended to what the iovecs have received, across any number of them; offset and residue move with them |
| `Uio.Uio.MoveIn` | kern/lib/uio.c:41-120 | uiomove, writing: as many of the next bytes of the iovecs, taken off them |
| `Uio.Uio.MoveZeros` | kern/lib/uio.c:122-146 | uiomovezeros: as many zeros, in pieces of the static buffer |
| `SfsModel.InodeRoundTrip` | kern/include/kern/sfs.h:77-87 | an inode written to its block is read back the same |
| `SfsModel.ZeroInode` | kern/fs/sfs/sfs_vnode.c:1709-1718 | a cleared block is an inode with nothing in it |
| `SfsModel.AllocKeeps` | kern/fs/sfs/sfs_vnode.c:89-110 | clearing a block that is being allocated changes no file and no role |
| `SfsModel.WriteKeeps` | kern/fs/sfs/sfs_vnode.c:381-441 | writing a data block changes that block of that file only |
| `SfsModel.SetDirectKeeps` | kern/fs/sfs/sfs_vnode.c:178-187 | a fresh block put into a direct slot keeps each block in at most one role and every byte |
| `SfsModel.SetIndirectKeeps` | kern/fs/sfs/sfs_vnode.c:232-252 | so does a fresh indirect block |
| `SfsModel.SetWordKeeps` | kern/fs/sfs/sfs_vnode.c:266-281 | so does a fresh block under the indirect one |
| `SfsModel.SyncKeeps` | kern/fs/sfs/sfs_vnode.c:67-80 | writing an inode back changes no file and no role |
| `SfsModel.AccountedKept` | kern/fs/sfs/sfs_vnode.c:381-441 | exactly the reserved blocks and those with a role stay marked when roles stay as they are |
| `SfsModel.AccountedAlloc` | kern/fs/sfs/sfs_vnode.c:89-110 | while a block is being allocated it is the only other one |
| `SfsModel.AccountedAdded` | kern/fs/sfs/sfs_vnode.c:178-187 | and no longer once it has a role |
| `SfsModel.AccountedDropped` | kern/fs/sfs/sfs_vnode.c:1152-1216 | and when roles and marks go together |
| `Sfs.Volume.Format` | user/sbin/mksfs/mksfs.c:88-143 | a volume as mksfs makes it satisfies the invariant: the root directory is the only file and empty, exactly the superblock, the free map and the root inode are marked |
| `Sfs.Volume.Balloc` | kern/fs/sfs/sfs_vnode.c:89-110 | the least block not marked, now marked and cleared, and nothing else; ENOSPC, with no change, exactly when all are marked |
| `Sfs.Volume.BmapDirect` | kern/fs/sfs/sfs_vnode.c:166-198 | the block in a direct slot, allocated if asked; ENOSPC only on a full volume with the slot empty; a block that is there costs nothing |
| `Sfs.Volume.BmapIndirect` | kern/fs/sfs/sfs_vnode.c:200-290 | the block under the indirect block, both allocated if asked, with the same errors |
| `Sfs.Volume.Bmap` | kern/fs/sfs/sfs_vnode.c:144-290 | sfs_bmap: EFBIG exactly past the last block an inode can map, ENOSPC only on a full volume with that slot empty, else the block that slot maps; no byte of any file changes, no mark is lost, every new mark has a role, and without need nothing changes at all |
| `Sfs.Volume.BmapAt` | kern/fs/sfs/sfs_vnode.c:330-345 | the same for an offset, whose block number is cut to 32 bits |
| `SfsTransfer.PatchOverwrites` | kern/fs/sfs/sfs_vnode.c:358-373 | patching part of a mapped block overwrites those bytes of that file and nothing else |
| `SfsTransfer.MovedTwice` | kern/fs/sfs/sfs_vnode.c:446-542 | two transfers in a row are one transfer: how the three phases of sfs_io compose |
| `SfsTransfer.FileBlockIs` | kern/fs/sfs/sfs_vnode.c:330-331 | the block number kept in 32 bits is that of the offset modulo 2^41 |
| `SfsTransfer.DeviceBlockIs` | kern/fs/sfs/sfs_vnode.c:420-421 | the device block that the 32-bit byte offset of block b names is b mod 2^23 |
| `Sfs.Volume.PartialIo` | kern/fs/sfs/sfs_vnode.c:306-376 | part of a block, read or written, at any alignment: exactly those bytes of that file, no mark lost |
| `Sfs.Volume.RwBlock` | kern/fs/sfs/sfs_vnode.c:415-438 | the transfer through the device, at the wrapped byte offset, moves the bytes of that block of the file, because a volume has at most 2^23 blocks |
| `Sfs.Volume.BlockIo` | kern/fs/sfs/sfs_vnode.c:381-441 | a whole block, zeros if it is not mapped: exactly those bytes of that file |
| `Sfs.Volume.Transfer` | kern/fs/sfs/sfs_vnode.c:476-526 | the three phases: a leading part, whole blocks, a trailing part make one transfer; one that fails stops at a block boundary, at the block that could not be mapped |
| `Sfs.Volume.IoRead` | kern/fs/sfs/sfs_vnode.c:446-542 | sfs_io, reading: the bytes of the file from the offset on, unmapped blocks as zeros, never more than asked for and never past the size; a read that succeeds with less than asked for has come to the size; no block, mark, inode or vnode changes |
| `Sfs.Volume.IoWrite` | kern/fs/sfs/sfs_vnode.c:446-542 | sfs_io, writing, for every offset, length and alignment: exactly the addressed bytes change, in no other file any, no mark is lost and every new mark has a role, and the size grows to the end of the write if larger, both modulo their 32 bits; on ENOSPC, only on a full volume, or EFBIG the same for the part before the block that failed |
| `SfsTruncate.FreeDirect` | kern/fs/sfs/sfs_vnode.c:1156-1166 | the loop over the direct blocks, from blocklen on |
| `SfsTruncate.FreeWords` | kern/fs/sfs/sfs_vnode.c:1186-1200 | the loop over the indirect block, from the one after blocklen on |
| `SfsTruncate.CutBlocks` | kern/fs/sfs/sfs_vnode.c:1152-1216 | both together: exactly the blocks not kept are unmarked, and no other role, mark or byte changes |
| `SfsTruncate.Truncate` | kern/fs/sfs/sfs_vnode.c:1126-1225 | sfs_truncate: the blocks that its two tests keep are kept with their bytes, the rest freed, the indirect block too if it became empty; the size is set |
| `SfsTruncate.TruncatedToNothing` | kern/fs/sfs/sfs_vnode.c:1126-1225 | truncation to 0 frees every block |
| `SfsTruncate.NothingLeftPastTheEnd` | kern/fs/sfs/sfs_vnode.c:1176-1200 | no block past the new end is left if and only if the end is among the direct blocks or the block at the end was never mapped |
| `SfsTruncate.CutByte` | kern/fs/sfs/sfs_vnode.c:1152-1216 | byte by byte: the old content in the blocks that are kept, zero elsewhere |
| `SfsTruncate.TruncationLeavesZeros` | kern/fs/sfs/sfs_vnode.c:1140-1225 | everything past the new length reads as zeros if and only if the old bytes from there to the end of the last block kept were zeros already |
| `SfsTruncate.ShrunkAccounted` | kern/fs/sfs/sfs_vnode.c:1152-1216 | what a truncation frees loses mark and role together, so that no block leaks |
| `SfsVnodes.LoadVnode` | kern/fs/sfs/sfs_vnode.c:1649-1757 | the vnode of an existing file, one more reference to it and to no other; at most one vnode per inode |
| `SfsVnodes.LoadNew` | kern/fs/sfs/sfs_vnode.c:1649-1757 | the vnode of a new file on a cleared block |
| `SfsVnodes.MakeObj` | kern/fs/sfs/sfs_vnode.c:792-812 | a new empty file on a block that was not marked, with one reference; ENOSPC changes nothing |
| `SfsVnodes.SyncInode` | kern/fs/sfs/sfs_vnode.c:67-80 | the inode on disk is the one in memory; no byte of any file changes |
| `SfsVnodes.Forget` | kern/fs/sfs/sfs_vnode.c:887-960 | reclaiming a file with links writes it back and keeps it |
| `SfsVnodes.Erase` | kern/fs/sfs/sfs_vnode.c:887-960 | reclaiming one without unmarks all its blocks and its inode, and no block of another file |
| `SfsVnodes.ErasedIs` | kern/fs/sfs/sfs_vnode.c:913-932 | truncation to 0, write-back and freeing the inode together erase exactly that file |
| `SfsVnodes.DecRef` | kern/vfs/vnode.c:97-121 | vnode_decref: the last reference, and only that, reclaims; the file is erased exactly if its link count is 0 as well; references to other files stay |
| `SfsVnodes.SetRefs` | kern/vfs/vnode.c:82-121 | counting references up or down moves those of that file and of no other |
| `SfsVnodes.ErasedAccounted` | kern/fs/sfs/sfs_vnode.c:913-932 | an erased file leaks no block |
| `SfsRefs.RefsAt` | kern/vfs/vnode.c:82-121 | with one vnode per file its count is all the references to the file |
| `SfsRefs.LoadedIsReferenced` | kern/fs/sfs/sfs_vnode.c:887-960 | a file has a vnode exactly while there are references to it |
| `SfsRefs.RefsCut` | kern/vfs/vnode.c:97-121 | forgetting a vnode drops its references and no others |
| `SfsDirModel.EntryRoundTrip` | kern/include/kern/sfs.h:89-95 | a directory entry written is read back the same |
| `SfsDirModel.CountPut` | kern/fs/sfs/sfs_vnode.c:695-751 | writing a slot changes the number of slots naming a file by exactly what went in and out |
| `SfsDirModel.PutDistinct` | kern/fs/sfs/sfs_vnode.c:695-733 | a name not in use keeps the live names distinct |
| `SfsDirModel.EntryPut` | kern/fs/sfs/sfs_vnode.c:586-615 | an entry written at its byte offset is that slot, and no other, of the directory |
| `SfsDirModel.LiveIsMapped` | kern/fs/sfs/sfs_vnode.c:586-615 | a live entry lies in a mapped block, so erasing it cannot fail |
| `SfsDirFile.ReadDir` | kern/fs/sfs/sfs_vnode.c:552-580 | the entry in a slot; nothing changes |
| `SfsDirFile.NoPartialEntry` | kern/fs/sfs/sfs_vnode.c:586-615 | an entry never crosses a block, so a write of one that fails has written nothing |
| `SfsDirFile.LiveNeverFails` | kern/fs/sfs/sfs_vnode.c:739-751 | writing over a live entry cannot fail |
| `SfsDirFile.WriteDir` | kern/fs/sfs/sfs_vnode.c:586-615 | the slot written, or on an error nothing; a live slot never fails; every other file keeps its bytes, size and links |
| `SfsDirFile.FindName` | kern/fs/sfs/sfs_vnode.c:645-692 | the slot of a name if there is one, and an empty slot if there is one; nothing changes |
| `SfsDirFile.DirLink` | kern/fs/sfs/sfs_vnode.c:695-733 | the name in an empty slot or at the end; EEXIST exactly if it is in use, ENAMETOOLONG exactly if it is new and does not fit; on an error nothing; every other file keeps its bytes, size and links |
| `SfsDirFile.DirUnlink` | kern/fs/sfs/sfs_vnode.c:739-751 | exactly that slot is free; every other file keeps its bytes, size and links |
| `SfsDir.LinkFile` | kern/fs/sfs/sfs_vnode.c:1326-1346 | linking and counting the link: one more for that file, nothing else of any file but the directory changes; on an error nothing |
| `SfsDir.UnlinkFile` | kern/fs/sfs/sfs_vnode.c:1368-1378 | unlinking and uncounting it, likewise |
| `SfsDir.DropFile` | kern/vfs/vnode.c:97-121 | dropping a reference, to the directory itself too, leaves the directory as it is and every other file with its bytes, size and links; the file itself is gone exactly if that was the last reference and it had no links; nobody else loses a reference |
| `SfsDir.DropKeepsFiles` | kern/fs/sfs/sfs_vnode.c:887-960 | reclaiming touches no file but the one reclaimed, and that only if it has no links |
| `SfsDir.LookOnce` | kern/fs/sfs/sfs_vnode.c:757-784 | the slot and the vnode of a name, found exactly if it is in use; one more reference to that file, none to others, and nothing else changes |
| `SfsDir.CreatNew` | kern/fs/sfs/sfs_vnode.c:1289-1317 | creation under a new name: an empty file with one link and one reference, or nothing, the new inode given back |
| `SfsDir.Creat` | kern/fs/sfs/sfs_vnode.c:1251-1317 | sfs_creat: one new entry for a new empty file and every other slot as it was, or the existing file, or EEXIST exactly if it exists and excl is set; on an error half-way neither a name nor an inode nor a reference more; names distinct, link counts right, every other file with its bytes, size, links and references |
| `SfsDir.Link` | kern/fs/sfs/sfs_vnode.c:1324-1346 | sfs_link: one entry and one link more for that file, or nothing; EEXIST and ENAMETOOLONG exactly when due; names distinct, link counts right, every other file with its bytes, size, links and references |
| `SfsDir.Remove` | kern/fs/sfs/sfs_vnode.c:1354-1386 | sfs_remove: ENOENT exactly if the name is not in use, otherwise exactly its slot is free; the file is gone if and only if it had one link and no reference, and otherwise keeps its bytes; names distinct, link counts right, every other file with its bytes, size and links, every reference as before |
| `SfsDir.Relink` | kern/fs/sfs/sfs_vnode.c:1418-1447 | the new entry written and the old one cleared: the file has the same links as before; EEXIST and ENAMETOOLONG exactly when due |
| `SfsDir.RenameFound` | kern/fs/sfs/sfs_vnode.c:1418-1473 | with the reference dropped: the file keeps its inode, because it has a name; the same errors |
| `SfsDir.Rename` | kern/fs/sfs/sfs_vnode.c:1394-1473 | sfs_rename: the new name instead of the old for the same file, or nothing; ENOENT, EEXIST and ENAMETOOLONG exactly when due; every file, the renamed one included, keeps its bytes, size, links and references |
| `SfsDir.DropKeepsDir` | kern/fs/sfs/sfs_vnode.c:887-960 | reclaiming any vnode, the directory's own included, keeps names distinct and link counts right |
| `SfsDir.WriteKeepsDir` | kern/fs/sfs/sfs_vnode.c:446-542 | so does writing to a file |
| `SfsDir.TruncateKeepsDir` | kern/fs/sfs/sfs_vnode.c:1126-1225 | and truncating one |
| `SfsDir.FreshDirectory` | user/sbin/mksfs/mksfs.c:88-101 | the root directory that mksfs writes satisfies all this: no names, no files |
| `SfsLimits.SizeIsRight` | kern/fs/sfs/sfs_vnode.c:529-534 | a write, whole or cut short, leaves the larger of the old size and the place where it stopped if and only if that place is below 2^32, and that modulo 2^32 otherwise |
| `SfsLimits.NothingWritten` | kern/fs/sfs/sfs_vnode.c:529-534 | a write that moves nothing leaves the size if and only if its offset is at most the size or equals it modulo 2^32 |
| `SfsLimits.RefusedAndGrown` | kern/fs/sfs/sfs_vnode.c:446-542 | ten bytes at 1000448 into a file of a thousand are refused with EFBIG and leave it 1000448 long, and reading at the first byte that cannot be mapped then fails with EFBIG |
| `SfsLimits.ReadFails` | kern/fs/sfs/sfs_vnode.c:446-542 | a read inside the size but past the last block an inode can map fails with EFBIG |
| `SfsLimits.BytesAreRight` | kern/fs/sfs/sfs_vnode.c:395-396 | a write changes exactly the bytes at its offset if and only if the offset is below 2^41 or it writes zeros over zeros |
| `SfsLimits.WriteFarOut` | kern/fs/sfs/sfs_vnode.c:446-542 | ten bytes written at 2^41 into a file of a thousand overwrite its first ten and cut it to ten; the only other outcome is ENOSPC on a full volume |
| `SfsLimits.WriteRefused` | kern/fs/sfs/sfs_vnode.c:446-542 | ten bytes written at 2^40 are refused and leave a file of a thousand with size 0 |
| `SfsLimits.WholeBlockLands` | kern/fs/sfs/sfs_vnode.c:420-421 | on a volume of any size: a whole block written to block b is in block b if and only if b is below 2^23 or held it already |
| `SfsLimits.WholeBlockFound` | kern/fs/sfs/sfs_vnode.c:420-421 | and one read from b is block b if and only if b is below 2^23 or the two are equal |
| `SfsLimits.SuperblockOverwritten` | kern/fs/sfs/sfs_vnode.c:420-421 | on a volume of 2^23 + 1 blocks the last block, written, overwrites the superblock |
| `SfsLimits.WriteByte` | kern/fs/sfs/sfs_vnode.c:446-542 | a byte written within reach is that byte of the file and changes no other, or the volume is full |
| `SfsLimits.ReadByte` | kern/fs/sfs/sfs_vnode.c:446-542 | a byte read inside the size and within reach is the one there, and the read does not fail |
| `SfsLimits.OldByteComesBack` | kern/fs/sfs/sfs_vnode.c:1126-1225 | a byte written at 200, the file cut to 100 and a byte written at 300: reading at 200 returns the old byte, unless the volume was full |
| `SfsLayout.WordIs` | kern/include/kern/sfs.h:77-95 | a word on disk is the number its four bytes spell, the most significant first |
| `SfsLayout.WordsAreBigEndian` | kern/include/kern/sfs.h:77-95 | 0x01020304 is on disk as 1, 2, 3, 4, and is read back from them |
| `SfsLayout.InodeRead` | kern/include/kern/sfs.h:77-87 | an inode is read from its block as big-endian numbers at fixed places: size, type, link count, 15 direct blocks, the indirect block |
| `SfsLayout.InodeWritten` | kern/include/kern/sfs.h:77-87 | and written at the same places, the rest of the block zero |
| `SfsLayout.EntryWritten` | kern/include/kern/sfs.h:89-95 | a directory entry is its big-endian inode number, its name, and zeros to the end |
| `SfsLayout.ByteIs` | kern/fs/sfs/sfs_vnode.c:144-290 | byte x of a file is byte x mod 512 of the direct block for it, or of the block the big-endian words of the indirect block name for it, and zero where there is none |

## Left out

- Device drivers, the LAMEbus code, autoconf, the console and the menu's user interface.
- Device errors and the retry loop of sfs_io.c: a block transfer succeeds and is atomic.
- `alloc_kpages` and `free_kpages`, address spaces, the TLB, trap entry, and
  `switchframe_switch`: a page is fresh and aligned, and the register switch is atomic.
- The spinlock inside `ipi_send`, which is taken and released under a run-queue lock.
- TLB shootdown and the offline interprocessor interrupts; interrupts of processors as such
  (an idle processor may wake at any time, so the unidle interrupt needs no event).
- Out-of-memory paths of fork, process creation and vnode loading; emufs.
- The bitwise, shift, add, subtract and compare millicode, string functions, resizable
  arrays, whale mating and the cat-and-mouse defaults: they would only add easy members.
- kern/lib/bswap.c, `load_elf`, execv and runprogram.
- Spinning on a spinlock: taking one is the moment its test-and-set succeeds. The case of a
  spinlock used before there is a current processor, and the start of secondary processors.
- The step systems (scheduler, semaphores, locks, condition variables, processes, the
  intersection with its vehicles) are values and not objects updated in place. Waiting on a
  lock is a step that is possible only when the lock is free, so nothing is said about
  fairness or about how long anyone waits.
- Processes and Traffic take cv_wait and cv_broadcast as single steps; CondVar is where
  these are taken apart.
- ForkedPids.LateRead: freed memory is any number; what the heap and its next owner write into the
  place of the pid is not followed.
- A 65th process: the tables have 64 slots, and the model of fork takes a pid only while
  there is one. System calls are taken from processes with one thread.
- `sys_waitpid` checks its options and its status pointer first, and copies the status out
  last; the model starts at the table of children and ends with the status.
- Kmalloc.Heap.AllocPageRef: the words of the descriptor bitmap are rows of bits, and the shortcut
  for a full word is left out, because it only skips bits that are set.
- Kmalloc.Heap.SubpageFree: requires that the address is not that of a block on a free list;
  freeing a block twice, which the code does not notice, is an error of the caller.
- Kmalloc.Heap.Kfree: the same.
- Kmalloc.Heap.Store: memory is a map of aligned words, and what a client writes is one of them.
- Kmalloc.Heap.TryAlloc: says nothing about other threads between it and NewPage; both keep the whole
  invariant, so any calls may come in between.
- Uio.Uio.MoveOut: requires no more bytes than the residue if the iovecs have room for more than
  it, because the residue would wrap; copies to and from user space that fault are left out.
- Uio.Uio.MoveIn: the same.
- Uio.Uio.MoveZeros: the same.
- Sfs.Volume.RwBlock: the volumes of this class have at most 2^23 blocks. Larger ones, where the
  byte offset wraps, are the subject of SfsLimits.WholeBlockLands and SfsLimits.WholeBlockFound.
- Sfs.Volume.Format: the superblock's fields and the free map as it is on disk are left out; the
  blocks of the device are given with these written.
- Sfs.Volume.Balloc: the free map is a set, which SfsFreeMap ties to the bitmap; writing the free map and the
  superblock back, and their dirty flags, are left out.
- SfsVnodes.LoadVnode: the table of vnodes is a sequence of records, and vnodes are named by their
  place in it; the open count and the operations tables are left out.
- SfsDir.Creat: when ENOSPC or EFBIG is returned is stated of Balloc and Bmap and not again here.
- SfsDir.Link: linking the root directory itself, which the code allows, is left out, like all
  directories but the root.
- SfsDir.Rename: the recovery when unlinking the old name fails is left out: WriteDir shows that
  erasing a live entry cannot fail on a device that does not.
- Printf.Pf.GetNum: an argument of the wrong kind, or a missing one, which is undefined in C, reads
  as 0 or as the null string. The character count and the width do not overflow.
- Traffic.IntersectionIsSafe: is about vehicles with the same origin; the further combinations of
  directions that check_constraints would allow never occur in the states it is about.
