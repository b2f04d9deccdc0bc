# Sorting, arithmetic, hashing and kernel proofs

Verified models of six parts of the repository, each proved against a specification of its own:

- **Odd-even block merge sort** (`SortedSlices`, `MinPlus`, `OddEvenSort`, `TightBound`). The merge routines are loops
  over arrays; the phases act on all ranks' blocks. For a fixed threshold, let the prefix sums count the elements up to
  it in the leftmost r blocks. A phase acts on these sums by a minimum and an addition, which gives a bound on how far
  small elements have come after t phases (`MinPlus`), and from it the theorem that as many phases as ranks always sort.
  `TightBound` shows that one fewer do not, for any number of ranks from three on.
- **64-bit arithmetic on 32-bit words** (`Multiplication`, `Digits`, `Knuth`, `QDivRem`, `SignedArithmetic`). Long
  division by Knuth's Algorithm D in base 2^16 and multiplication by Karatsuba's three products, on digit arrays and
  wrapping words, against division and multiplication of integers.
- **Streaming SHA-256** (`Sha256Words`, `Sha256Standard`, `Sha256Constants`, `Sha256`, `Sha256Example`).
  `Sha256Standard` writes out FIPS 180-4, `Sha256Constants` says where its constants come from, and `Sha256Example`
  works out the digests of "abc"; `Sha256.Context` is the streaming implementation, whose invariant says what has been
  hashed so far.
- **The deadlock detector** (`WaitsFor`, `Hangman`). A theory of graphs with at most one edge out of every node, and
  the detector's objects and pointers above it.
- **The kernel heap** (`LinkedLists`, `SetSizes`, `PagerefPool`, `HeapPages`, `Kmalloc`). Free lists threaded through
  the blocks, page lists, and the pool of page references. `Heap.Valid` is the invariant that the heap's disabled self
  checks spell out, and more; `RunSections` keeps it for any number of callers whose critical sections alternate, also
  while some wait for a page of pagerefs.
- **Threads** (`Counting`, `WaitChannels`, `SharedBuffer`, `BufferCalls`, `Semaphores`, `ThreadLists`, `LinkedQueues`,
  `Interrupts`, `Scheduling`, `RoundRobin`, `Migration`). The lists are linked objects changed in place. Locks,
  condition variables, the bounded buffer, semaphores and context switches are transition systems whose atomic steps
  are the sections that a spinlock protects, so that every schedule of every number of threads is covered; what calls
  return, and in which order threads are served, is read off the schedules. Interrupt counts and load migration are
  objects with methods; what the other processors do is the order of the steps in `Machine.RunSteps`, and a given list
  of moves in `Migration`.

What the kernel parts assume of each other is stated, not imported: the heap takes pages from outside, the buffer's
list is a sequence whose linked form is `LinkedQueues`, and the wait channels of `SharedBuffer` and the lists of
`Scheduling` are sequences whose linked form is `ThreadLists`.

Three findings, all stated as theorems. `kmalloc` rounds a request up to whole pages in a 32-bit size, which wraps for
the last 4095 sizes: `Kmalloc.PagesCover` says exactly when the pages cover the request. The signed quotient is exact
but for -2^63 divided by -1 (`SignedArithmetic.QuotientIsExact`). A pageref whose page cannot be had stays marked as in
use though the allocation fails: `PagerefPool.FreePanics` loses a page of them this way, after which a free panics, and
`Kmalloc.Heap.FewReserved` says that it takes 256 pagerefs reserved at once. Besides, `linked_list_postpend` sets no
back link, so the queue is specified by its forward links alone, a back link being unset or right.

`dafny verify dfyconfig.toml` checks everything.

## Model

| member | source | states |
|---|---|---|
| `SortedSlices.MergeIsPermutation` | Parallel Computing/week-3-mpi-collective/MPI_Sort.c:50-107 | the merged pair has exactly the elements of the two slices, with multiplicity |
| `SortedSlices.MergeIsSorted` | Parallel Computing/week-3-mpi-collective/MPI_Sort.c:50-107 | merging two sorted slices gives a sorted sequence |
| `SortedSlices.SortedIsUnique` | Parallel Computing/week-3-mpi-collective/MPI_Sort.c:50-107 | a sorted sequence is determined by its elements |
| `SortedSlices.MergeCommutes` | Parallel Computing/week-3-mpi-collective/MPI_Sort.c:193-214 | both partners of an exchange compute the same merged pair, whichever slice they call their own |
| `SortedSlices.ExchangeSplits` | Parallel Computing/week-3-mpi-collective/MPI_Sort.c:195-203 | after one exchange of sorted slices of equal size both are sorted, every element on the left is at most every one on the right, and together they hold the elements of both |
| `SortedSlices.MergeSlicesKeepSmallerBetter` | Parallel Computing/week-3-mpi-collective/MPI_Sort.c:50-76 | the loop leaves in `myslice` the first mysize elements of the merged pair, never reading past either slice |
| `SortedSlices.MergeSlicesKeepBiggerBetter` | Parallel Computing/week-3-mpi-collective/MPI_Sort.c:79-107 | the backward loop leaves in `myslice` the last mysize elements of the merged pair of sorted slices of equal size |
| `OddEvenSort.PartnersMatch` | Parallel Computing/week-3-mpi-collective/MPI_Sort.c:193-214 | in every phase, a rank sends to a partner exactly if that partner sends to it, and the two keep opposite halves |
| `OddEvenSort.PhaseBlockIsSorted` | Parallel Computing/week-3-mpi-collective/MPI_Sort.c:193-214 | after a phase every block is sorted and has its old size |
| `OddEvenSort.PhaseIsCountStep` | Parallel Computing/week-3-mpi-collective/MPI_Sort.c:193-214 | for every threshold, one phase moves the elements up to it left exactly as a min/max exchange of the numbers of such elements |
| `MinPlus.ProgressStep` | Parallel Computing/week-3-mpi-collective/MPI_Sort.c:193-214 | the bound on how far small elements have come after t phases is carried from phase t to phase t+1 |
| `MinPlus.FullBefore` | Parallel Computing/week-3-mpi-collective/MPI_Sort.c:193-215 | once the bound has run for as many phases as there are ranks, the small elements fill the leftmost blocks |
| `OddEvenSort.RunMakesProgress` | Parallel Computing/week-3-mpi-collective/MPI_Sort.c:193-215 | after t phases, for every threshold, the numbers of small elements satisfy the progress bound for t |
| `OddEvenSort.PhaseIsPermutation` | Parallel Computing/week-3-mpi-collective/MPI_Sort.c:193-214 | a phase neither loses nor doubles an element over all ranks |
| `OddEvenSort.RunIsPermutation` | Parallel Computing/week-3-mpi-collective/MPI_Sort.c:193-217 | no number of phases loses or doubles an element |
| `OddEvenSort.OddEvenSortSorts` | Parallel Computing/week-3-mpi-collective/MPI_Sort.c:192-217 | for every number of ranks, every block size and every input, as many phases as ranks leave the gathered array sorted and a permutation of the input |
| `TightBound.FewerPhasesDoNotSuffice` | Parallel Computing/week-3-mpi-collective/MPI_Sort.c:193 | for every number of ranks from three on and every block size there is an input that one phase fewer leaves unsorted |
| `TightBound.OneFewer` | Parallel Computing/week-3-mpi-collective/MPI_Sort.c:193 | one phase fewer than ranks sorts every input if and only if there are at most two ranks |
| `OddEvenSort.RankPhase` | Parallel Computing/week-3-mpi-collective/MPI_Sort.c:194-214 | the branches of one rank, on its own array, compute the block the phase prescribes |
| `OddEvenSort.SortAcrossRanks` | Parallel Computing/week-3-mpi-collective/MPI_Sort.c:192-217 | the phase loop over the ranks' arrays ends with the gathered blocks sorted and the elements those at the start |
| `Digits.ValConcat` | OperatingSystems/OS161-Project1/src/common/gcc-millicode/qdivrem.c:99-122 | the value of digits written one after the other, in base 2^16 |
| `Digits.ValSplit` | OperatingSystems/OS161-Project1/src/common/gcc-millicode/qdivrem.c:112-122 | the four digits stored for a 64-bit number have that number as value |
| `Knuth.TrialNotTooSmall` | OperatingSystems/OS161-Project1/src/common/gcc-millicode/qdivrem.c:185-210 | in any base, the trial digit from three leading dividend digits and two divisor digits is never below the true digit |
| `Knuth.TrialAtMostOneTooLarge` | OperatingSystems/OS161-Project1/src/common/gcc-millicode/qdivrem.c:185-210 | with a normalised divisor, in any base, the trial digit is at most one above the true digit |
| `QDivRem.TrialDigit` | OperatingSystems/OS161-Project1/src/common/gcc-millicode/qdivrem.c:193-210 | D3 with its jump into the loop computes min(B-1, three leading digits / two leading digits), with no 32-bit overflow, and corrects at most twice |
| `QDivRem.BorrowStep` | OperatingSystems/OS161-Project1/src/common/gcc-millicode/qdivrem.c:217-221 | one step of D4: the wrapped 32-bit word and the borrow kept in `t` stand for the exact difference, the borrow being below B |
| `QDivRem.MultiplyAndSubtract` | OperatingSystems/OS161-Project1/src/common/gcc-millicode/qdivrem.c:217-223 | D4 subtracts qhat times the divisor exactly, up to one borrow of B^(n+1), and reports that borrow |
| `QDivRem.AddBack` | OperatingSystems/OS161-Project1/src/common/gcc-millicode/qdivrem.c:232-237 | D6 adds the divisor exactly, up to one carry of B^(n+1) |
| `QDivRem.TrialIsClose` | OperatingSystems/OS161-Project1/src/common/gcc-millicode/qdivrem.c:182-240 | on the code's own digit arrays, the trial digit is the true digit or one more |
| `QDivRem.RepairIsExact` | OperatingSystems/OS161-Project1/src/common/gcc-millicode/qdivrem.c:224-238 | after a borrow, one add-back gives the true digit and a remainder below the divisor |
| `QDivRem.QuotientDigit` | OperatingSystems/OS161-Project1/src/common/gcc-millicode/qdivrem.c:182-239 | D3 to D6 store the true quotient digit and leave the true partial remainder in place |
| `QDivRem.ProgramD` | OperatingSystems/OS161-Project1/src/common/gcc-millicode/qdivrem.c:179-240 | the digit loop divides the whole dividend: dividend = quotient digits times divisor + remainder, remainder below the divisor |
| `QDivRem.Shl` | OperatingSystems/OS161-Project1/src/common/gcc-millicode/qdivrem.c:270-279 | shl multiplies the digits in place by 2^sh, when nothing falls out at the left |
| `QDivRem.Unshift` | OperatingSystems/OS161-Project1/src/common/gcc-millicode/qdivrem.c:248-254 | the unshift loop divides the remainder digits in place by 2^d |
| `QDivRem.NormalisingShift` | OperatingSystems/OS161-Project1/src/common/gcc-millicode/qdivrem.c:169-171 | the shift found is the one that brings the leading divisor digit to at least B/2 and still below B |
| `QDivRem.Unnormalise` | OperatingSystems/OS161-Project1/src/common/gcc-millicode/qdivrem.c:167-175 | dividing shifted operands gives the same quotient, and the remainder shifted |
| `QDivRem.NormaliseOperands` | OperatingSystems/OS161-Project1/src/common/gcc-millicode/qdivrem.c:167-181 | D1 multiplies both operands by the same power of two and leaves the loop's precondition: leading divisor digit at least B/2, leading part below the divisor |
| `QDivRem.SkipLeadingZeros` | OperatingSystems/OS161-Project1/src/common/gcc-millicode/qdivrem.c:157-158 | the loop that moves the dividend pointer stops at its first non-zero digit, and m stays non-negative |
| `QDivRem.DivideByDigit` | OperatingSystems/OS161-Project1/src/common/gcc-millicode/qdivrem.c:136-148 | the unrolled one-digit path returns exact quotient and remainder |
| `QDivRem.DivideNormalised` | OperatingSystems/OS161-Project1/src/common/gcc-millicode/qdivrem.c:176-240 | on the shifted operands the quotient digits are those of ull / vll and the remainder digits those of ull % vll shifted |
| `QDivRem.ReadRemainder` | OperatingSystems/OS161-Project1/src/common/gcc-millicode/qdivrem.c:247-258 | the remainder read back is the last n digits divided by 2^d |
| `QDivRem.LongDivide` | OperatingSystems/OS161-Project1/src/common/gcc-millicode/qdivrem.c:152-262 | the path for a divisor of two or more digits returns ull / vll and ull % vll |
| `QDivRem.QDivRem` | OperatingSystems/OS161-Project1/src/common/gcc-millicode/qdivrem.c:67-263 | for every dividend and every non-zero divisor the result is ull / vll, and ull % vll if the caller asks for it |
| `SignedArithmetic.Karatsuba` | OperatingSystems/OS161-Project1/src/common/gcc-millicode/muldi3.c:166-241 | the three products, with a middle term that may be negative, add up to the whole product, for any word size |
| `SignedArithmetic.ChainSteps` | OperatingSystems/OS161-Project1/src/common/gcc-millicode/muldi3.c:214-235 | the wrapped two-word additions and subtractions, each with its hand-made carry, add up to the exact sum modulo 2^64 |
| `SignedArithmetic.Assemble` | OperatingSystems/OS161-Project1/src/common/gcc-millicode/muldi3.c:214-240 | prodh:prodl after all steps is high, mid and low put together modulo 2^64 |
| `SignedArithmetic.LMulQ` | OperatingSystems/OS161-Project1/src/common/gcc-millicode/muldi3.c:183-241 | for all 32-bit u and v the result is u times v exactly |
| `SignedArithmetic.MulMagnitudes` | OperatingSystems/OS161-Project1/src/common/gcc-millicode/muldi3.c:124-158 | the product of two unsigned 64-bit magnitudes modulo 2^64, across both branches |
| `SignedArithmetic.MulDi3` | OperatingSystems/OS161-Project1/src/common/gcc-millicode/muldi3.c:99-164 | for all signed a and b, including the most negative, a times b modulo 2^64 |
| `SignedArithmetic.TruncatingDivision` | OperatingSystems/OS161-Project1/src/common/gcc-millicode/divdi3.c:44-62 | the quotient and remainder specified are the one pair with a = q*b + r, the magnitude of r below that of b and the remainder's sign the dividend's |
| `SignedArithmetic.DivDi3` | OperatingSystems/OS161-Project1/src/common/gcc-millicode/divdi3.c:44-62 | returns the quotient rounded toward zero, as a 64-bit number |
| `SignedArithmetic.ModDi3` | OperatingSystems/OS161-Project1/src/common/gcc-millicode/moddi3.c:45-62 | returns the remainder with the dividend's sign and a magnitude below the divisor's |
| `SignedArithmetic.QuotientIsExact` | OperatingSystems/OS161-Project1/src/common/gcc-millicode/divdi3.c:44-62 | the returned quotient is the exact one if and only if it is not -2^63 divided by -1 |
| `SignedArithmetic.QuotientAndRemainderAgree` | OperatingSystems/OS161-Project1/src/common/gcc-millicode/moddi3.c:45-62 | a = (a/b)*b + a%b modulo 2^64, for all a and all b but 0 |
| `Sha256Words.F1IsCh` | OperatingSystems/OS161-Project1/src/common/libtest161/sha256.c:170 | F1 is the Ch of section 4.1.2 of FIPS 180-4 |
| `Sha256Words.F0IsMaj` | OperatingSystems/OS161-Project1/src/common/libtest161/sha256.c:169 | F0 is the Maj of section 4.1.2 of FIPS 180-4 |
| `Sha256Words.WordsAndBytes` | OperatingSystems/OS161-Project1/src/common/libtest161/sha256.c:64-82 | GET_UINT32_BE and PUT_UINT32_BE undo each other |
| `Sha256.P` | OperatingSystems/OS161-Project1/src/common/libtest161/sha256.c:178-183 | the macro updates two cells in place so that the cells, seen with the roles moved on by one, hold the standard's next working variables |
| `Sha256.R` | OperatingSystems/OS161-Project1/src/common/libtest161/sha256.c:172-176 | the macro extends W by the standard's next schedule word |
| `Sha256.FirstRounds` | OperatingSystems/OS161-Project1/src/common/libtest161/sha256.c:211-221 | sixteen rounds with rotating roles are the first sixteen rounds of section 6.2.2 |
| `Sha256.RoundsUnrolled` | OperatingSystems/OS161-Project1/src/common/libtest161/sha256.c:208-233 | the eight-way unrolled rounds with rotating roles compute the 64 rounds of section 6.2.2 |
| `Sha256.RoundsCompact` | OperatingSystems/OS161-Project1/src/common/libtest161/sha256.c:195-206 | the one-round-at-a-time form computes the same 64 rounds |
| `Sha256.Context.Starts` | OperatingSystems/OS161-Project1/src/common/libtest161/sha256.c:106-137 | sets up the standard's initial value for SHA-256 or SHA-224, nothing hashed and total zero |
| `Sha256.Context.Process` | OperatingSystems/OS161-Project1/src/common/libtest161/sha256.c:185-238 | replaces the state by the standard's compression of state and block |
| `Sha256.Context.AddToTotal` | OperatingSystems/OS161-Project1/src/common/libtest161/sha256.c:256-260 | the two-word total with its hand-made carry counts bytes modulo 2^64 |
| `Sha256.Context.Update` | OperatingSystems/OS161-Project1/src/common/libtest161/sha256.c:244-280 | keeps the invariant (state = fold over the whole blocks of everything hashed, buffer = the tail, total = length mod 2^64) and appends the input to what has been hashed |
| `Sha256.LengthWords` | OperatingSystems/OS161-Project1/src/common/libtest161/sha256.c:299-301 | high and low, rebuilt from the two counters, are the 64-bit bit length modulo 2^64 |
| `Sha256.PaddingIsStandard` | OperatingSystems/OS161-Project1/src/common/libtest161/sha256.c:306-310 | the padding chosen plus the eight length bytes is exactly the padding of section 5.1.1 |
| `Sha256.Context.Finish` | OperatingSystems/OS161-Project1/src/common/libtest161/sha256.c:293-322 | writes the digest of section 6.2.2 of everything hashed: 32 bytes, or 28 and nothing else for SHA-224 |
| `Sha256.HashChunks` | OperatingSystems/OS161-Project1/src/common/libtest161/sha256.c:244-322 | chunking independence: starts, any sequence of updates and finish give the digest of the concatenation |
| `Sha256.Hash` | OperatingSystems/OS161-Project1/src/common/libtest161/sha256.c:329-344 | the one-call interface gives the digest of its input |
| `Sha256Standard.AbsorbConcat` | OperatingSystems/OS161-Project1/src/common/libtest161/sha256.c:271-276 | compressing x followed by y, x whole blocks, is compressing x, then y |
| `Sha256Standard.AbsorbAppend` | OperatingSystems/OS161-Project1/src/common/libtest161/sha256.c:262-279 | hashing more depends on what came before only through the state and the tail |
| `Sha256Standard.PadFillsBlocks` | OperatingSystems/OS161-Project1/src/common/libtest161/sha256.c:306-310 | the padded message is a whole number of 64-byte blocks |
| `Sha256Standard.PadIs` | OperatingSystems/OS161-Project1/src/common/libtest161/sha256.c:306-320 | the padded message is the message, a one bit, zeros, and the bit length modulo 2^64 in eight bytes |
| `Sha256Standard.AbsorbOne` | OperatingSystems/OS161-Project1/src/common/libtest161/sha256.c:185-238 | one block is compressed once |
| `Sha256Constants.PrimesAre` | OperatingSystems/OS161-Project1/src/common/libtest161/sha256.c:140-158 | the list of primes holds the primes up to 311 and nothing else, in order, 64 in all |
| `Sha256Constants.RoundConstantsAre` | OperatingSystems/OS161-Project1/src/common/libtest161/sha256.c:140-158 | each entry of K is the first 32 bits of the fractional part of the cube root of the prime of its number (section 4.2.2) |
| `Sha256Constants.InitialValueIs` | OperatingSystems/OS161-Project1/src/common/libtest161/sha256.c:111-122 | the initial state for SHA-256 is the first 32 bits of the fractional parts of the square roots of the first eight primes (section 5.3.3) |
| `Sha256Constants.InitialValue224Is` | OperatingSystems/OS161-Project1/src/common/libtest161/sha256.c:123-134 | the initial state for SHA-224 is the second 32 bits of the fractional parts of the square roots of the ninth to the sixteenth prime |
| `Sha256Example.Abc256Digest` | OperatingSystems/OS161-Project1/src/common/libtest161/sha256.c:376-382 | the digest of "abc" under SHA-256 is the one in the test vectors, round by round |
| `Sha256Example.Abc224Digest` | OperatingSystems/OS161-Project1/src/common/libtest161/sha256.c:360-365 | the digest of "abc" under SHA-224 is the one in the test vectors, round by round |
| `Sha256Example.SelfTest` | OperatingSystems/OS161-Project1/src/common/libtest161/sha256.c:395-433 | the streaming implementation, asked for "abc", gives the sum that the self test expects |
| `WaitsFor.EdgeClosesCycle` | OperatingSystems/OS161-Project1/src/kern/thread/hangman.c:42-48 | adding an edge a to b to an acyclic graph, where a had none, makes a cycle if and only if b reaches a |
| `WaitsFor.RedirectToSink` | OperatingSystems/OS161-Project1/src/kern/thread/hangman.c:153-154 | redirecting every waiter of a lock to an actor that waits for nobody keeps the graph acyclic |
| `WaitsFor.WalkBounded` | OperatingSystems/OS161-Project1/src/kern/thread/hangman.c:57-66 | no walk through an acyclic waits-for graph is longer than the number of its edges |
| `Hangman.Detector.Check` | OperatingSystems/OS161-Project1/src/kern/thread/hangman.c:50-67 | the walk ends, and finds the target if and only if the lock's holder reaches it in the waits-for graph |
| `Hangman.Detector.ReportCycle` | OperatingSystems/OS161-Project1/src/kern/thread/hangman.c:85-92 | the report's walk ends at the target, every step following an edge of the graph |
| `Hangman.Detector.Wait` | OperatingSystems/OS161-Project1/src/kern/thread/hangman.c:109-129 | keeps the graph acyclic; panics with a deadlock if and only if the new wait would close a cycle, and otherwise adds just that wait |
| `Hangman.Detector.Acquire` | OperatingSystems/OS161-Project1/src/kern/thread/hangman.c:131-157 | keeps the graph acyclic; fails exactly if the actor is not waiting for the lock or it is held, and otherwise moves it from waiting to holding |
| `Hangman.Detector.Release` | OperatingSystems/OS161-Project1/src/kern/thread/hangman.c:159-182 | keeps the graph acyclic; fails exactly if the actor waits or is not the holder |
| `Hangman.Detector.SomeoneCanRun` | OperatingSystems/OS161-Project1/src/kern/thread/hangman.c:42-48 | from every actor the chain of waiting leads to one that is not held up |
| `Hangman.RunCalls` | OperatingSystems/OS161-Project1/src/kern/thread/hangman.c:109-182 | in any sequence of calls every answer is the one that waiting and holding call for, deadlock exactly if the wait would close a cycle, every call changes just what it should, and the graph stays acyclic |
| `LinkedLists.ListUnique` | OperatingSystems/OS161-Project1/src/kern/vm/kmalloc.c:347-348 | a head and links determine at most one list, so a list walk has one meaning |
| `LinkedLists.ListDistinct` | OperatingSystems/OS161-Project1/src/kern/vm/kmalloc.c:542-556 | a list that ends has no node twice: it is acyclic |
| `LinkedLists.ListRemove` | OperatingSystems/OS161-Project1/src/kern/vm/kmalloc.c:878-892 | redirecting the link to a node past it takes exactly that node off the list |
| `PagerefPool.Pool.Reserve` | OperatingSystems/OS161-Project1/src/kern/vm/kmalloc.c:267-282 | takes the first clear bit of all pages, or none exactly if all are set; every page's count stays right, and pages after a missing one have bits set only if that one has all |
| `PagerefPool.Pool.Settle` | OperatingSystems/OS161-Project1/src/kern/vm/kmalloc.c:220-253 | with the lock held again, the pageref's page is there exactly if it was meanwhile or could be had; if not, the allocation fails and the bit stays set |
| `PagerefPool.Pool.Alloc` | OperatingSystems/OS161-Project1/src/kern/vm/kmalloc.c:258-300 | the two in a row: takes the first clear bit, or fails exactly if all are set or the bit's page is missing and cannot be had; says which pages are there afterwards; the pool stays valid if and only if that page is there or no bit was clear |
| `PagerefPool.Pool.Free` | OperatingSystems/OS161-Project1/src/kern/vm/kmalloc.c:305-339 | clears the one bit of the pageref and keeps every page's count right; panics if and only if an earlier page is missing, so never in a valid pool |
| `PagerefPool.Pool.MissingIsFull` | OperatingSystems/OS161-Project1/src/kern/vm/kmalloc.c:305-322 | if a page is missing and a later pageref is in use, all bits of the missing page are set |
| `PagerefPool.FreePanics` | OperatingSystems/OS161-Project1/src/kern/vm/kmalloc.c:283-322 | the panic is reached: after 256 allocations whose page could not be had, the next pageref cannot be given back |
| `PagerefPool.Pool.PageIsThere` | OperatingSystems/OS161-Project1/src/kern/vm/kmalloc.c:283-290 | in a valid pool the page of every pageref in use is there |
| `HeapPages.PabParts` | OperatingSystems/OS161-Project1/src/kern/vm/kmalloc.c:158-160 | page address and block type packed in one word come out again |
| `HeapPages.SizesDouble` | OperatingSystems/OS161-Project1/src/kern/vm/kmalloc.c:131 | the block sizes start at 16 and each is twice the one before, so that the first that fits is the smallest |
| `HeapPages.BlocksDisjoint` | OperatingSystems/OS161-Project1/src/kern/vm/kmalloc.c:1049-1053 | two different blocks of a page do not overlap |
| `HeapPages.PopOk` | OperatingSystems/OS161-Project1/src/kern/vm/kmalloc.c:970-990 | taking the head off a page's free list leaves it well formed with one entry fewer |
| `HeapPages.PushOk` | OperatingSystems/OS161-Project1/src/kern/vm/kmalloc.c:1164-1186 | pushing a block that was not free leaves the free list well formed with one entry more |
| `HeapPages.FreeCount` | OperatingSystems/OS161-Project1/src/kern/vm/kmalloc.c:536-558 | a well-formed page has exactly nfree distinct free blocks, all in the page and aligned |
| `Kmalloc.Heap.constructor` | OperatingSystems/OS161-Project1/src/kern/vm/kmalloc.c:347-348 | the empty heap is well formed |
| `Kmalloc.Heap.ThreadPage` | OperatingSystems/OS161-Project1/src/kern/vm/kmalloc.c:1046-1056 | the loop threads all blocks of a fresh page into one free list, the last block first |
| `Kmalloc.Heap.RemoveFromSame` | OperatingSystems/OS161-Project1/src/kern/vm/kmalloc.c:878-884 | takes the pageref off its size's list, the others staying in order, and leaves the other lists alone |
| `Kmalloc.Heap.RemoveFromAll` | OperatingSystems/OS161-Project1/src/kern/vm/kmalloc.c:886-892 | takes the pageref off the list of all pages, the others staying in order |
| `Kmalloc.Heap.FromExistingPage` | OperatingSystems/OS161-Project1/src/kern/vm/kmalloc.c:958-1003 | the first critical section serves the request exactly if some page of that size has a free block, changes nothing if not, and keeps the heap well formed |
| `Kmalloc.Heap.ReservePageref` | OperatingSystems/OS161-Project1/src/kern/vm/kmalloc.c:1028-1034 | a pageref that is on no list is taken for the request, none exactly if none is left |
| `Kmalloc.Heap.SettlePageref` | OperatingSystems/OS161-Project1/src/kern/vm/kmalloc.c:220-253 | after the lock was dropped to ask for a page of pagerefs, whatever happened meanwhile: the heap is well formed, and the pageref is of use exactly if its page is there by now |
| `Kmalloc.Heap.AddPage` | OperatingSystems/OS161-Project1/src/kern/vm/kmalloc.c:1036-1062 | a fresh page, wholly free, goes on both lists with the pageref reserved for it; only words of that page are written |
| `Kmalloc.Heap.StartPage` | OperatingSystems/OS161-Project1/src/kern/vm/kmalloc.c:1028-1065 | the second critical section, up to where it may drop the lock: serves the request if the pageref's page is there, waits exactly if it is not, and gives up exactly if no pageref is left |
| `Kmalloc.Heap.FinishPage` | OperatingSystems/OS161-Project1/src/kern/vm/kmalloc.c:1028-1065 | what follows when the lock was dropped: the request is served exactly if the page of pagerefs is there or supplied; otherwise the pageref stays reserved |
| `Kmalloc.Heap.FromNewPage` | OperatingSystems/OS161-Project1/src/kern/vm/kmalloc.c:1028-1065 | the two in a row serve the request from the fresh page, a block of which was not out before, exactly if a pageref is left whose page is there or can be had; the heap stays well formed |
| `Kmalloc.Heap.TakeFrom` | OperatingSystems/OS161-Project1/src/kern/vm/kmalloc.c:970-990 | takes one free block: it was not out before, and now exactly it is out in addition; no word is written |
| `Kmalloc.Heap.LinkBlock` | OperatingSystems/OS161-Project1/src/kern/vm/kmalloc.c:1152-1180 | a freed block is overwritten, all its words but the first, which links it before the others; nothing else in memory is written |
| `Kmalloc.Heap.PushFree` | OperatingSystems/OS161-Project1/src/kern/vm/kmalloc.c:1157-1186 | exactly the freed block is no longer out, and its page has one more free block; only words of the freed block are written |
| `Kmalloc.Heap.DropPage` | OperatingSystems/OS161-Project1/src/kern/vm/kmalloc.c:1189-1196 | a wholly free page leaves both lists; its pageref goes back, or the pool panics exactly if a page of earlier pagerefs is missing; no block's being out changes |
| `Kmalloc.Heap.FewReserved` | OperatingSystems/OS161-Project1/src/kern/vm/kmalloc.c:305-322 | with fewer than 256 pagerefs reserved, no free panics in the pool |
| `Kmalloc.Heap.NoneReserved` | OperatingSystems/OS161-Project1/src/kern/vm/kmalloc.c:305-322 | with none reserved, the pool is valid |
| `Kmalloc.Heap.FindPage` | OperatingSystems/OS161-Project1/src/kern/vm/kmalloc.c:1120-1132 | finds the page an address lies on, or -1 exactly if there is none |
| `Kmalloc.Heap.SubpageKmalloc` | OperatingSystems/OS161-Project1/src/kern/vm/kmalloc.c:923-1066 | for one caller with nobody in between: keeps the heap well formed (every list, page, count and pageref); the block returned is of the smallest size that fits, was not out before, and is now; null if and only if no page of that size has a free block, and there is no new page or no pageref for it |
| `Kmalloc.RunSections` | OperatingSystems/OS161-Project1/src/kern/vm/kmalloc.c:923-1208 | the critical sections of any number of callers in any order, with callers waiting for pages of pagerefs and clients writing: the heap stays well formed; after every section what is out is what was and what callers got and have not freed, at different addresses and each at least as large as asked for; every section gives the result that the heap, as it was, called for, and writes no word of a block that stays out but for its own client; only a panic in the pool ends the run |
| `Kmalloc.OldPageSection` | OperatingSystems/OS161-Project1/src/kern/vm/kmalloc.c:958-1003 | in that run, the first section of an allocation gives a block if and only if a page of the fitting size has one free |
| `Kmalloc.NewPageSection` | OperatingSystems/OS161-Project1/src/kern/vm/kmalloc.c:1028-1066 | in that run, the second section gives nothing exactly if the page is not one that can be supplied or no pageref is left, and waits exactly if the first free pageref has no page |
| `Kmalloc.ResumeSection` | OperatingSystems/OS161-Project1/src/kern/vm/kmalloc.c:220-253 | in that run, a caller that waited gets its block if and only if the page of its pageref is there or supplied |
| `Kmalloc.FreeSection` | OperatingSystems/OS161-Project1/src/kern/vm/kmalloc.c:1074-1208 | in that run, a free takes exactly the freed block from what is out and writes no word of the others; it panics exactly if that was the last block of its page and a page of earlier pagerefs is missing |
| `Kmalloc.Heap.SubpageFree` | OperatingSystems/OS161-Project1/src/kern/vm/kmalloc.c:1074-1208 | keeps the heap well formed; the page goes back exactly when the block was the last one out on it; -1 exactly if the address is on no page; panics exactly on a misplaced address, or giving the pageref of the last block back while a page of earlier ones is missing; only words of the freed block are written, so none of a block still out |
| `Kmalloc.ReadsBack` | OperatingSystems/OS161-Project1/src/kern/vm/kmalloc.c:923-1208 | in any run of sections, what a caller writes into its block it reads back as long as it has the block and has not written there again |
| `Kmalloc.Heap.ClientWrite` | OperatingSystems/OS161-Project1/src/kern/vm/kmalloc.c:144-146 | whatever a client writes, anywhere in its block, is what memory then holds there, and nothing else changes: no free list, no other word, nothing about what is out |
| `Kmalloc.Heap.ListLengths` | OperatingSystems/OS161-Project1/src/kern/vm/kmalloc.c:588-604 | the lists by size hold together as many pagerefs as the list of all pages, and no more than there are |
| `Kmalloc.Heap.PagesApart` | OperatingSystems/OS161-Project1/src/kern/vm/kmalloc.c:588-604 | no address lies on two heap pages |
| `Kmalloc.Heap.LiveBlocksDisjoint` | OperatingSystems/OS161-Project1/src/kern/vm/kmalloc.c:923-1066 | any two different blocks out with clients are disjoint |
| `Kmalloc.Heap.LivePlusFree` | OperatingSystems/OS161-Project1/src/kern/vm/kmalloc.c:1188-1189 | on every page, blocks out plus free blocks is the number of blocks of the page |
| `Kmalloc.Heap.NothingLive` | OperatingSystems/OS161-Project1/src/kern/vm/kmalloc.c:1189-1190 | a page's free count reaches the number of its blocks if and only if none of its blocks is out |
| `Kmalloc.Heap.SubpageStats` | OperatingSystems/OS161-Project1/src/kern/vm/kmalloc.c:749-799 | size times (blocks less nfree) is the number of bytes out with clients on the page |
| `Kmalloc.Heap.GetUsed` | OperatingSystems/OS161-Project1/src/kern/vm/kmalloc.c:827-851 | the loop's sum is the bytes of all blocks out with clients, corrected by the coremap's count as the code does |
| `Kmalloc.BlockType` | OperatingSystems/OS161-Project1/src/kern/vm/kmalloc.c:901-907 | the block type is the first whose blocks hold the request |
| `Kmalloc.PagesCover` | OperatingSystems/OS161-Project1/src/kern/vm/kmalloc.c:1238-1240 | the pages asked for cover a large request if and only if rounding up does not wrap the 32-bit size |
| `Kmalloc.HugeRequestGetsNothing` | OperatingSystems/OS161-Project1/src/kern/vm/kmalloc.c:1238-1240 | a request of 2^32 - 1 bytes asks for no pages at all |
| `Kmalloc.Kernel.Kmalloc` | OperatingSystems/OS161-Project1/src/kern/vm/kmalloc.c:1217-1254 | keeps heap and large blocks well formed and apart; null for a large request exactly if no pages are supplied, and for a small one exactly if neither an old page nor a new one can serve it; the block returned is new; a subpage block is at least as large as the request, and the pages of a large one cover it if and only if it is at most 2^32 - 4096 bytes; no word of a block already out is written |
| `Kmalloc.Kernel.Kfree` | OperatingSystems/OS161-Project1/src/kern/vm/kmalloc.c:1259-1271 | exactly the block given is no longer out, large or small; a null pointer changes nothing; no panic while fewer than 256 pagerefs are reserved; no word of any other block, large or small, is written |
| `ThreadLists.ThreadList.constructor` | OperatingSystems/OS161-Project1/src/kern/thread/threadlist.c:60-72 | an empty list with its two bookends |
| `ThreadLists.ThreadList.IsEmpty` | OperatingSystems/OS161-Project1/src/kern/thread/threadlist.c:91-97 | true exactly if there is nothing on the list |
| `ThreadLists.ThreadList.InsertAfterNode` | OperatingSystems/OS161-Project1/src/kern/thread/threadlist.c:105-120 | puts the node after the given one and keeps the chain linked both ways |
| `ThreadLists.ThreadList.InsertBeforeNode` | OperatingSystems/OS161-Project1/src/kern/thread/threadlist.c:125-140 | puts the node before the given one and keeps the chain linked both ways |
| `ThreadLists.ThreadList.RemoveNode` | OperatingSystems/OS161-Project1/src/kern/thread/threadlist.c:145-157 | takes exactly that node out, cleared, and keeps the chain linked both ways |
| `ThreadLists.ThreadList.AddHead` | OperatingSystems/OS161-Project1/src/kern/thread/threadlist.c:162-170 | contents become the thread followed by the old contents |
| `ThreadLists.ThreadList.AddTail` | OperatingSystems/OS161-Project1/src/kern/thread/threadlist.c:172-180 | contents become the old contents followed by the thread |
| `ThreadLists.ThreadList.RemHead` | OperatingSystems/OS161-Project1/src/kern/thread/threadlist.c:182-198 | null exactly if the list is empty; otherwise the first thread, the rest staying in order |
| `ThreadLists.ThreadList.RemTail` | OperatingSystems/OS161-Project1/src/kern/thread/threadlist.c:200-216 | null exactly if the list is empty; otherwise the last thread, the rest staying in order |
| `ThreadLists.ThreadList.InsertAfter` | OperatingSystems/OS161-Project1/src/kern/thread/threadlist.c:218-224 | contents with the thread put after one that is on the list |
| `ThreadLists.ThreadList.InsertBefore` | OperatingSystems/OS161-Project1/src/kern/thread/threadlist.c:226-232 | contents with the thread put before one that is on the list |
| `ThreadLists.ThreadList.Remove` | OperatingSystems/OS161-Project1/src/kern/thread/threadlist.c:234-240 | contents without that thread |
| `ThreadLists.ThreadList.ForAll` | OperatingSystems/OS161-Project1/src/kern/include/threadlist.h:94-97 | the iteration macro meets every thread once, in order |
| `ThreadLists.ThreadList.ForAllReverse` | OperatingSystems/OS161-Project1/src/kern/include/threadlist.h:99-102 | the backward iteration meets the same threads in the reverse order |
| `ThreadLists.WakeAll` | OperatingSystems/OS161-Project1/src/kern/thread/thread.c:1080-1107 | wchan_wakeall empties the channel and wakes every thread on it, in the order in which they went to sleep |
| `LinkedQueues.LinkedList.Postpend` | OperatingSystems/OS161-Project1/src/kern/concurrent_list/linked_list.c:177-201 | walks to the tail and appends there: contents are the old ones followed by the item, its key one more than the last |
| `LinkedQueues.LinkedList.Prepend` | OperatingSystems/OS161-Project1/src/kern/concurrent_list/linked_list.c:36-63 | contents are the item followed by the old ones, its key one less than the first |
| `LinkedQueues.LinkedList.RemoveHead` | OperatingSystems/OS161-Project1/src/kern/concurrent_list/linked_list.c:131-158 | nothing exactly if the list is empty; otherwise the first item and its key, and no node still on the list is freed |
| `WaitChannels.QueueLeft` | OperatingSystems/OS161-Project1/src/kern/thread/thread.c:1042-1076 | taking the first thread off a wait channel and waking it keeps the channel exactly the threads asleep on it |
| `SharedBuffer.StepMoves` | OperatingSystems/OS161-Project1/src/kern/thread/synch.c:185-302 | a step moves only the thread that takes it and at most one sleeper, which it wakes |
| `SharedBuffer.KeepsExclusive` | OperatingSystems/OS161-Project1/src/kern/thread/synch.c:185-243 | at most one thread is between acquiring and releasing the lock, and is_busy and lock_thread say which |
| `SharedBuffer.KeepsQueued` | OperatingSystems/OS161-Project1/src/kern/thread/thread.c:1034-1076 | every sleeping thread is on exactly the wait channel it sleeps on |
| `SharedBuffer.KeepsSpins` | OperatingSystems/OS161-Project1/src/kern/thread/synch.c:289-308 | a condition variable's spinlock is held exactly by a thread on its way from cv_wait to sleep |
| `SharedBuffer.KeepsFifo` | OperatingSystems/OS161-Project1/src/kern/shared_buffer/shared_buffer.c:22-53 | the counter is within bounds and is the list's length but between the two updates, and who holds the lock knows what there is to do |
| `SharedBuffer.KeepsLock` | OperatingSystems/OS161-Project1/src/kern/thread/synch.c:185-237 | nobody sleeps on a free lock unless someone has been woken to take it |
| `SharedBuffer.KeepsCredit` | OperatingSystems/OS161-Project1/src/kern/shared_buffer/shared_buffer.c:22-53 | if threads of a side wait, those woken plus the signals still to come are at least what the buffer has for that side to do |
| `SharedBuffer.RunKeepsInv` | OperatingSystems/OS161-Project1/src/kern/shared_buffer/shared_buffer.c:22-53 | all of these hold after every schedule of any number of threads, each calling produce or consume as it likes |
| `SharedBuffer.BufferIsSafe` | OperatingSystems/OS161-Project1/src/kern/shared_buffer/shared_buffer.c:22-53 | in every run: mutual exclusion, 0 <= counter <= capacity, and counter = list length whenever the lock is free |
| `BufferCalls.CallsAreServed` | OperatingSystems/OS161-Project1/src/kern/shared_buffer/shared_buffer.c:22-53 | in every run: first in first out, the items put on the list being the arguments of the produce calls in the order of the puts; every call operates on the list once, and every consume that returns, returns the item it removed |
| `BufferCalls.SleepersInOrder` | OperatingSystems/OS161-Project1/src/kern/thread/synch.c:185-302 | a thread that goes to sleep, on the lock or on a condition variable, is the last of those asleep there, and one that is woken was the first |
| `BufferCalls.WokenInTurn` | OperatingSystems/OS161-Project1/src/kern/thread/synch.c:185-302 | in every run a sleeper with k before it is the one that the next wakeup but k wakes |
| `SharedBuffer.AssertionsHold` | OperatingSystems/OS161-Project1/src/kern/thread/synch.c:185-341 | in no run does an assertion of lock_acquire, lock_release, cv_wait or cv_signal about who holds what fail, nor does a consumer find the list empty |
| `SharedBuffer.HaltedIsRight` | OperatingSystems/OS161-Project1/src/kern/shared_buffer/shared_buffer.c:22-53 | if no call can take a step, the lock is free, and threads in calls sleep on their condition variables with nothing for them to do |
| `SharedBuffer.NoDeadlock` | OperatingSystems/OS161-Project1/src/kern/shared_buffer/shared_buffer.c:22-53 | in every run that comes to a halt, consumers sleep only on an empty buffer and producers only on a full one, so never both |
| `SharedBuffer.StepWorks` | OperatingSystems/OS161-Project1/src/kern/shared_buffer/shared_buffer.c:22-53 | every step of a call that has begun uses up some of a bounded amount of work, wakeups included |
| `SharedBuffer.CallsSettle` | OperatingSystems/OS161-Project1/src/kern/shared_buffer/shared_buffer.c:22-53 | from every reachable state, without new calls, every schedule comes to such a halt within a bounded number of steps |
| `Semaphores.StepKeepsInv` | OperatingSystems/OS161-Project1/src/kern/thread/synch.c:88-135 | every step keeps the count = initial + Vs returned - Ps returned, the Ps and Vs that have not returned, the sleepers on the channel, and woken threads at least the count if threads sleep |
| `Semaphores.CountIsConserved` | OperatingSystems/OS161-Project1/src/kern/thread/synch.c:88-135 | in every run, calls and returns being read off the schedule, the count is the initial one plus the Vs returned less the Ps returned; sleepers imply as many woken threads as the count; V panics only at a count of 2^32 - 1 |
| `Semaphores.HaltedIsExact` | OperatingSystems/OS161-Project1/src/kern/thread/synch.c:88-135 | when no call can move and none has panicked, every V called has returned, and exactly min(Ps called, initial + Vs called) Ps have |
| `Semaphores.SleepersInOrder` | OperatingSystems/OS161-Project1/src/kern/thread/synch.c:88-135 | a thread that goes to sleep is the last of the sleepers, and one that is woken was the first |
| `Semaphores.WokenInTurn` | OperatingSystems/OS161-Project1/src/kern/thread/synch.c:88-135 | in every run a sleeper with k before it is the one that the next wakeup but k wakes |
| `Semaphores.CallsSettle` | OperatingSystems/OS161-Project1/src/kern/thread/synch.c:88-135 | without new calls every schedule halts within a bounded number of steps |
| `Interrupts.Thread.constructor` | OperatingSystems/OS161-Project1/src/kern/thread/thread.c:151-153 | a new thread has its level high and one raise to show for it |
| `Interrupts.Cpu.constructor` | OperatingSystems/OS161-Project1/src/kern/thread/thread.c:169-206 | a new processor runs a first thread of its own, interrupts off, no spinlock taken, accounts balanced |
| `Interrupts.Cpu.OffWhenRaised` | OperatingSystems/OS161-Project1/src/kern/thread/spl.c:60-85 | interrupts are off if and only if a spinlock is held or awaited or the level is high |
| `Interrupts.Cpu.Splraise` | OperatingSystems/OS161-Project1/src/kern/thread/spl.c:86-105 | counts one raise; interrupts go off at the first |
| `Interrupts.Cpu.Spllower` | OperatingSystems/OS161-Project1/src/kern/thread/spl.c:107-124 | counts one lower; interrupts come back on exactly at the last |
| `Interrupts.Cpu.Splx` | OperatingSystems/OS161-Project1/src/kern/thread/spl.c:131-160 | sets the level and returns the old one, keeping the accounts, whatever spinlocks are held |
| `Interrupts.Cpu.Acquire` | OperatingSystems/OS161-Project1/src/kern/thread/spinlock.c:75-122 | panics exactly if this processor holds the lock; otherwise keeps the accounts, held or still spinning, with interrupts off |
| `Interrupts.Cpu.TestAndSet` | OperatingSystems/OS161-Project1/src/kern/thread/spinlock.c:93-117 | one round of the spin loop takes the lock exactly if it is free |
| `Interrupts.Cpu.Release` | OperatingSystems/OS161-Project1/src/kern/thread/spinlock.c:127-142 | gives the lock up and keeps the accounts, in any order of nesting |
| `Interrupts.Cpu.SwitchOut` | OperatingSystems/OS161-Project1/src/kern/thread/thread.c:580-606 | raises the level, keeps the old one on the stack, and asks for the run queue's lock, which may be another's: accounts balance while it is awaited |
| `Interrupts.Cpu.SwitchIn` | OperatingSystems/OS161-Project1/src/kern/thread/thread.c:678-746 | the thread switched out owes one release; the one switched in pays it and goes back to its own level, with no spinlock held |
| `Interrupts.Machine.constructor` | OperatingSystems/OS161-Project1/src/kern/thread/thread.c:169-206 | processors with a first thread each and free spinlocks: all accounts balance |
| `Interrupts.Machine.Acquire` | OperatingSystems/OS161-Project1/src/kern/thread/spinlock.c:75-122 | says exactly whether the lock is taken, awaited or already this processor's, and leaves all processors' accounts balanced |
| `Interrupts.Machine.TestAndSet` | OperatingSystems/OS161-Project1/src/kern/thread/spinlock.c:93-117 | a processor that waits takes the lock exactly if it is free by now; all accounts stay balanced |
| `Interrupts.Machine.Release` | OperatingSystems/OS161-Project1/src/kern/thread/spinlock.c:127-142 | gives up a spinlock, which is then free, and leaves all processors' accounts balanced |
| `Interrupts.Machine.Fork` | OperatingSystems/OS161-Project1/src/kern/thread/thread.c:547-552 | a forked thread joins owing exactly one release, and will start with its level low |
| `Interrupts.Machine.SwitchToNew` | OperatingSystems/OS161-Project1/src/kern/thread/thread.c:678-781 | a processor that switches to a thread just made runs it with interrupts on and the run queue free |
| `Interrupts.Machine.SwitchOut` | OperatingSystems/OS161-Project1/src/kern/thread/thread.c:580-606 | a thread enters thread_switch, contended run queue or not, all accounts staying balanced |
| `Interrupts.Machine.SwitchIn` | OperatingSystems/OS161-Project1/src/kern/thread/thread.c:678-785 | the processor goes on with a thread none runs, or its own: all accounts balance, the thread left behind owes one release, and interrupts are on exactly if the new thread's level is low |
| `Interrupts.Machine.RunSteps` | OperatingSystems/OS161-Project1/src/kern/thread/thread.c:580-785 | whatever the processors do in whatever order, contention and idling included: every step has just the effect it should on who runs what, who holds and awaits which lock, and the levels; accounts stay balanced and every thread off the processors owes exactly one run queue release; the run ends exactly if a processor asks for a spinlock of its own |
| `Scheduling.KeepsListed` | OperatingSystems/OS161-Project1/src/kern/thread/thread.c:463-785 | every step of switching, sleeping, waking, forking, exiting and migrating moves threads so that every list holds exactly the threads whose place it is |
| `Scheduling.KeepsHomes` | OperatingSystems/OS161-Project1/src/kern/thread/thread.c:578-785 | every step keeps threads on a processor's lists assigned to it, and its current thread where thread_switch put it |
| `Scheduling.KeepsStates` | OperatingSystems/OS161-Project1/src/kern/thread/thread.c:615-640 | every step keeps each thread's state the one of its place, but between being put there and having its state set |
| `Scheduling.StepKeepsInv` | OperatingSystems/OS161-Project1/src/kern/thread/thread.c:463-785 | the whole invariant is kept by every step, a switch between making a new thread and starting it included |
| `Scheduling.ThreadsInOnePlace` | OperatingSystems/OS161-Project1/src/kern/thread/thread.c:463-785 | in every reachable state a thread that has not been destroyed is in exactly one place, once: on one processor, or one run queue, wait channel, private list or zombie list |
| `Scheduling.StatesMatch` | OperatingSystems/OS161-Project1/src/kern/thread/thread.c:615-640 | in every reachable state a thread's state is the one that befits its place, outside the window in thread_switch |
| `Scheduling.QueuesAreLocal` | OperatingSystems/OS161-Project1/src/kern/thread/thread.c:463-495 | in every reachable state threads on a processor's run queue are assigned to it |
| `Scheduling.NoStackIsShared` | OperatingSystems/OS161-Project1/src/kern/thread/thread.c:578-746 | in every reachable state no two processors, idle or not, have the same current thread, and none a destroyed one |
| `Scheduling.ExorciseIsSafe` | OperatingSystems/OS161-Project1/src/kern/thread/thread.c:298-309 | what exorcise destroys is a zombie, and no processor is on its stack |
| `RoundRobin.StepObeys` | OperatingSystems/OS161-Project1/src/kern/thread/thread.c:463-785 | what each step does to every list, in order, and to what the processors run: switching, sleeping and waking append at the end and take from the front, migration takes from the end, and all else stays |
| `RoundRobin.StepAssigns` | OperatingSystems/OS161-Project1/src/kern/thread/thread.c:534 | a new thread is assigned to its parent's processor, a victim to the one it goes to, and no other assignment changes |
| `RoundRobin.MovesUp` | OperatingSystems/OS161-Project1/src/kern/thread/thread.c:463-785 | in every run a thread with k before it on a run queue, wait channel or other list in between has as many less before it as have been served since, unless it is migrated |
| `RoundRobin.PickedInTurn` | OperatingSystems/OS161-Project1/src/kern/thread/thread.c:655-679 | a thread with k before it on a run queue, unless it is migrated, is what the processor switches to the next time but k that it picks |
| `RoundRobin.YieldsToAll` | OperatingSystems/OS161-Project1/src/kern/thread/thread.c:615-679 | after a yield all that were ready run first, in their order |
| `RoundRobin.WokenInTurn` | OperatingSystems/OS161-Project1/src/kern/thread/thread.c:1042-1076 | a sleeper with k before it on its wait channel is the one that the next wakeup but k takes |
| `Migration.LackIsEnough` | OperatingSystems/OS161-Project1/src/kern/thread/thread.c:901-906 | what the other queues lack to a share is at least what this one has above it |
| `Migration.NoneTwice` | OperatingSystems/OS161-Project1/src/kern/thread/thread.c:880-983 | no thread is on two queues, or twice on one, or on a queue and among the victims |
| `Migration.MoveFits` | OperatingSystems/OS161-Project1/src/kern/thread/thread.c:880-983 | what a move of the others, read change by change, says of a thread (nowhere, on that queue, somewhere, unknown) fits the lists after it |
| `Migration.Scheduler.OthersRun` | OperatingSystems/OS161-Project1/src/kern/thread/thread.c:889-899 | between two critical sections the others make their next move, whatever it is, and every thread is still where the moves so far let it be |
| `Migration.Scheduler.Unnamed` | OperatingSystems/OS161-Project1/src/kern/thread/thread.c:880-983 | a thread that no move names stays what it was |
| `Migration.Scheduler.ReadyAgain` | OperatingSystems/OS161-Project1/src/kern/thread/thread.c:880-983 | a thread that was last named when it became ready, however often it was taken before, is ready |
| `Migration.Scheduler.GoneToRun` | OperatingSystems/OS161-Project1/src/kern/thread/thread.c:880-983 | a thread of another queue that was last named when its processor took it is not ready |
| `Migration.Scheduler.CountReady` | OperatingSystems/OS161-Project1/src/kern/thread/thread.c:889-899 | the count is what each queue holds when its turn comes, the others having moved once more at each; exact if they are quiet |
| `Migration.Scheduler.TakeVictims` | OperatingSystems/OS161-Project1/src/kern/thread/thread.c:906-913 | the last threads of the own queue become the victims, in order, and none is lost |
| `Migration.Scheduler.SendTo` | OperatingSystems/OS161-Project1/src/kern/thread/thread.c:920-965 | one queue gets the first victims, in order, until it has its share and never more; the current thread is passed over; the victim list is never empty while threads are to be sent |
| `Migration.Scheduler.SendAll` | OperatingSystems/OS161-Project1/src/kern/thread/thread.c:915-966 | whatever the others do, every thread is where it was and their moves, in order, let it be, and no queue is filled past the share; every queue has its turn, and has its share after it if there are still threads to send; if they are quiet, everything to be sent finds room |
| `Migration.Scheduler.Choose` | OperatingSystems/OS161-Project1/src/kern/thread/thread.c:906-913 | the others having moved, all beyond a share of the count become victims, and what stays and what goes is the whole own queue |
| `Migration.Scheduler.PutBack` | OperatingSystems/OS161-Project1/src/kern/thread/thread.c:973-979 | what is left goes back on the own queue in order |
| `Migration.Scheduler.SendAway` | OperatingSystems/OS161-Project1/src/kern/thread/thread.c:906-983 | taking, sending round and putting back lose no thread and bring none back by themselves; the first share of the own queue stays, and the current thread |
| `Migration.Scheduler.ConsiderMigration` | OperatingSystems/OS161-Project1/src/kern/thread/thread.c:880-983 | whatever the others do meanwhile: every thread is where it was and their moves, change by change, let it be, so that none is lost or comes by itself; each is on one queue, the one it is assigned to; if the own queue had a share when counted, just what it had above that is taken from its end, offered to all queues in turn, each filled to its share while there are threads to send, and only then is the rest put back; the first threads of the own queue, up to the share, stay in order, and a current thread on the queue; no other queue is filled past the share but by what moves bring; if the others are quiet, the ready threads are the same and exactly one share stays here, and the current thread if it was to go |

## Left out

- Kmalloc.Heap.SubpageKmalloc: is one caller's critical sections with nobody in between; that others come in between is stated by RunSections.
- Kmalloc.RunSections: callers free and write only blocks that are out, and only pages are supplied that are nobody's; memory is a map from addresses to words, so that words that overlap are not modelled.
- Kmalloc.Heap.SubpageFree: takes it that the block is not already free, as the code does (kmalloc.c:1159-1162).
- Kmalloc.Kernel.Kmalloc: alloc_kpages and free_kpages are not modelled; a supply of pages nobody has, or none, is a parameter.
- HeapPages.PabParts: the bitwise and, or and complement on page addresses are written as division and remainder by the page size.
- Sha256.Context.Finish: the bitwise or of fields that do not overlap is written as a sum; lengths are below 2^32, as a 32-bit size_t has them.
- QDivRem.QDivRem: a zero divisor, for which the code traps on purpose, is excluded.
- OddEvenSort.RankPhase: takes what the message exchange delivers as the partner's block at the start of the phase; the message passing runtime, the scatter and gather calls, and qsort on each block are not modelled, blocks start sorted.
- SortedSlices.MergeSlicesKeepBiggerBetter: asks for slices of equal size, since the code starts in both at mysize - 1 (MPI_Sort.c:84-85).
- Hangman.RunCalls: states the detector over its own calls; lock_release reports to it only after dropping the lock's spinlock (synch.c:232-236), so nothing is claimed about locks and detector together.
- Hangman.Detector.ReportCycle: the messages printed are the actors on the path.
- SharedBuffer.NoDeadlock: the list's own lock, never contended inside the buffer's lock, is not a separate lock, and calls to the deadlock detector are left out.
- Semaphores.CountIsConserved: wait channels and spinlocks are taken as atomic sections, and threads are not created or destroyed.
- Interrupts.Machine.RunSteps: a step of a processor is one of spl, spinlocks or thread_switch, or the making of a thread; the interrupts that machine-dependent code lets in while a processor idles (cpu_idle, thread.c:662-667) are not modelled, nor the boot before a current processor exists.
- Interrupts.Cpu.Splx: counts are natural numbers, without the wrap of an unsigned int.
- Scheduling.ThreadsInOnePlace: a thread's name, stack contents, address space and process are not modelled, nor are thread_shutdown and thread_panic.
- Migration.Scheduler.ConsiderMigration: the interrupt sent to an idle processor is not modelled; the moves of the others are made between its locks, each a list of threads that become ready on a queue or are taken off one by its processor.
- LinkedQueues.LinkedList.RemoveHead: a removed node whose successor's back link was never set is not freed, as in the code; nothing is claimed about leaks.
- `linked_list_insert`, `shared_buffer_create` and `shared_buffer_destroy`.
- `cv_broadcast` is not used by the buffer; its wait channel's part is `ThreadLists.WakeAll`.
- The guard bands, labels, statistics printing and self checks of the heap, which are compiled out or print.
- Floating-point programs, file systems, devices, program loading, menus and the unfinished synchronisation exercises.
- The remaining millicode (addition, shifts, comparison, bitwise operations), bitmaps, arrays and the older swap-based merges, which are easier.
