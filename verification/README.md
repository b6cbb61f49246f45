# Verification of the runtime's hard cores

This project models, in Dafny, the parts of the C runtime and of its tables that
are hardest to get right, and proves what they are for:

- **Reference counting and its cycle collector** (`Graphs`, `Snapshots`,
  `Counting`). A heap of counted objects with slots, a program that holds
  references, foreign code that holds others, and the runtime's retain, release,
  iterative destruction and trial deletion, all updating headers in place. One
  invariant, `Valid() && Settled()`, is established by the constructor and kept
  by every operation; it says that every count is exactly the references there
  are, that the candidate buffer and the indices in the headers agree, that the
  dying list is threaded through the count words, and that nothing allocated is
  out of the collector's sight. From it: releasing frees exactly what counting
  is defined to free, and a collection leaves exactly what is reachable.
- **The hash table behind Map, Set and dictionary objects** (`MapData`,
  `Probing`, `TableState`, `HashTable`). Columns with holes and an open-addressed
  index, against the ordered association list of ECMA-262 section 24.1; lookup
  tokens, cursors and the one-way widening of the key kind.
- **Promises, the microtask ring and the checkpoint** (`Jobs`, `Promises`).
  `Jobs` is the machine as values, with the theorems over every run; `Promises`
  is the runtime's own lists, chains and rings, each operation proved to be the
  machine's.
- **Case conversion** (`Bits`, `Utf16`, `CaseTables`, `CaseShape`,
  `CaseConvert`). The generators of the compressed tables, proved to lose
  nothing, and the converter over them, proved to answer as the code-point
  definition does on every path.
- **Text and arithmetic kernels** (`Utf8`, `Json`, `Growth`, `BigInts`): UTF-8
  both ways, JSON quoting, the growth policy of strings, powers and shifts of
  128-bit bigints.
- **The chained dictionary of the SOM collections** (`SomDictionary`), with the
  resize that splits its chains in place.

`Basics` holds what several of them share.

Where the code works in place so does the model: the methods of `Runtime`,
`Table`, `Loop`, `Ring`, `Dictionary`, `Text` and `DirectionModel` change fields
and arrays as the code does, and their postconditions name the new state and what
of it is fresh. `Loop.Run`, `Table.Perform` and `Dictionary.PutAll` are clients:
they make any sequence of calls, and what they ensure is what the sequence does.
`hide *` in a method keeps definitions out of its proof; the lemmas it calls open
the ones they need.

## Properties that do not hold as stated

- Widening a table to the erased key kind is meant to change no answer. It
  changes one: an object stored under one tag and asked for under another was
  found by identity before and is not found after, because the erased comparison
  asks the tags first. `MapData.WideningKeepsAnswers` gives the exact condition
  and `MapData.TwinForgotten` an instance.
- Final sigma skips every case-ignorable code point before it asks for a cased
  one. The Unicode Standard's table 3-17 lets a code point that is both be the
  cased one. `CaseTables.SigmaAgrees` gives the exact condition and
  `CaseTables.SigmaDiffers` an instance, U+0345. The converter is proved against
  the code's rule, which the code states as its own.
- The growth rule is meant to leave room for what there is. It is computed in 32
  bits, and past 2^32 - 2^20 units the sum wraps and the room is none. No string
  is that long, but two may be together: `Growth.NoRoom` gives such a length and
  `Growth.Extensive` the exact condition. The code refuses a room that is too
  long and not one that is too short, so such an append is neither refused nor
  given a block it fits; the model answers `Overrun` there, exactly then, and
  says nothing of what is written.
- The comment on `nts_gather_white` has the reclaim of zeroed candidates in
  `nts_collect_cycles`; it is at the end of `nts_collect_pass`. There a candidate
  that was set aside and is not dying would be destroyed: under the invariant no
  such candidate exists, so the model has only the other branch.

## Model

| member | source | states |
|---|---|---|
| Graphs.ReachLeast | runtime/c/nts_runtime.c:1989-2001 | reachability is the least closed set that holds its starts, so a closed set that holds the roots holds everything they reach |
| Graphs.ReachClosed | runtime/c/nts_runtime.c:2254-2265 | what is reached is closed under edges |
| Graphs.PathReaches | runtime/c/nts_runtime.c:2254-2265 | a chain of slots from a start leads only to what is reached |
| Graphs.ReachHasPath | runtime/c/nts_runtime.c:2254-2265 | and to everything that is reached there is such a chain: the closure is reachability by paths |
| Graphs.ReachSpares | runtime/c/nts_runtime.c:2391-2400 | emptying objects that are not reached changes nothing that is: freeing the unreachable cannot hurt the reachable |
| Graphs.OwedIff | runtime/c/nts_runtime.c:2245-2252 | a set owes an object a reference exactly when a member has a slot naming it |
| Graphs.PerishLeast | runtime/c/nts_runtime.c:1951-2011 | the set that counting is defined to reclaim is the least one closed under losing every reference |
| Graphs.PerishStep | runtime/c/nts_runtime.c:1951-2011 | that set is closed: whatever only it still names is in it |
| Snapshots.InTurnPerishes | runtime/c/nts_runtime.c:1967-2011 | an order in which every object falls only after all that named it stays inside the recursive definition |
| Snapshots.FallIsPerish | runtime/c/nts_runtime.c:1951-2011 | when in addition every survivor is still named, what fell is exactly the recursively defined set, in whatever order the iterative drain came to it |
| Counting.Runtime.constructor | runtime/c/nts_runtime.c:1369-1377 | an empty heap satisfies the invariant, inside a region or not |
| Counting.Runtime.New | runtime/c/nts_runtime.c:1369-1377 | a fresh object joins the heap with null slots, counted once, or immortal inside a region, and the invariant stands; kind, cyclicity, colour and flags are those of a new header |
| Counting.Runtime.Store | runtime/c/nts_runtime.c:1897-1904 | a slot write moves one reference into the slot and the old one to the program, and everything stays in the collector's sight |
| Counting.Runtime.Retain | runtime/c/nts_runtime.c:1397-1409 | one more reference held and nothing else, though the candidate is painted black: what it hid is still reached another way |
| Counting.Runtime.Release | runtime/c/nts_runtime.c:2150-2185 | one reference less; a dying object ignores it; foreign references can only be given up; and outside a drain and a pass the heap is exact: the old one less the recursively defined zero-count closure, from what names objects without the reference given up, or with a collection that came due exactly what is then reachable; a buffer below its bound stays below it, and the release that leaves references and would fill the buffer is exactly the one that collects |
| Counting.Runtime.ReleasedExactly | runtime/c/nts_runtime.c:2150-2243 | why: with no foreign references both sets are fixed by the state before the call, and with some they are bounded by it |
| Counting.Runtime.ReleaseCounted | runtime/c/nts_runtime.c:2187-2243 | the same out of line, from inside a drain or a pass as well, where what falls falls in turn and once and no collection runs; outside them its slow path collects exactly when the candidate it adds fills the buffer |
| Counting.Runtime.LastRelease | runtime/c/nts_runtime.c:2209-2243 | the count that reaches zero takes its object down, whether or not the buffer names it: it has left the heap or is dying, and the fall is exact; the buffer stays below its bound |
| Counting.Runtime.LastGone | runtime/c/nts_runtime.c:2209-2243 | nothing names an object whose one reference was given up |
| Counting.Runtime.DropOne | runtime/c/nts_runtime.c:2202-2208 | a decrement that leaves references keeps the invariant, making the object a candidate when its type can be cyclic |
| Counting.Runtime.DropAcyclic | runtime/c/nts_runtime.c:2162-2169 | for a type on no cycle the bare decrement keeps everything in sight |
| Counting.Runtime.DropCandidate | runtime/c/nts_runtime.c:2170-2182 | for an object already buffered, painting it purple again is enough |
| Counting.Runtime.BufferRoot | runtime/c/nts_runtime.c:2111-2129 | an object is flagged buffered exactly when the buffer has it, once, at the index its header keeps |
| Counting.Runtime.PossibleRoot | runtime/c/nts_runtime.c:2133-2139 | only cyclic types become purple, and a purple object is buffered |
| Counting.Runtime.UnbufferRoot | runtime/c/nts_runtime.c:1911-1945 | swap-remove: the last entry takes the place of the one that goes, and the indices agree again |
| Counting.Runtime.EnqueueDying | runtime/c/nts_runtime.c:1958-1969 | the dying list, linked through the count words, gets a new head; no snapshot of the living changes |
| Counting.Runtime.DequeueDying | runtime/c/nts_runtime.c:1971-1974 | the head comes off the list and what its slots own is the drain's to give up |
| Counting.Runtime.ReleaseContents | runtime/c/nts_runtime.c:1897-1904 | exactly the references the slots owned are given up, with all that follows |
| Counting.Runtime.Unlist | runtime/c/nts_runtime.c:1975-1984 | a dying candidate leaves the buffer, unless the collector is walking it |
| Counting.Runtime.EmptyOut | runtime/c/nts_runtime.c:1985-2006 | a dying object gives up its contents and then its memory, or stays as a shell while the buffer names it |
| Counting.Runtime.DrainOne | runtime/c/nts_runtime.c:1971-2007 | each turn empties one object more, so the drain ends, and re-entrant releases only add to its list |
| Counting.Runtime.DrainAll | runtime/c/nts_runtime.c:1970-2008 | the drain ends with an empty list and a consistent heap |
| Counting.Runtime.Destroy | runtime/c/nts_runtime.c:1958-2012 | marks, links and, unless an outer call owns the list, drains: everything that falls falls in turn; afterwards, outside a drain, a pass and a region, the buffer is below its bound whatever it was before, so no due collection is put off |
| Counting.Runtime.FreeString | runtime/c/nts_runtime.c:2211-2224 | a string's death takes its own block and nothing else |
| Counting.Runtime.Free | runtime/c/nts_runtime.c:1306-1367 | foreign contents go back, with any finite number of releases of foreign references in answer, and then the block leaves the heap |
| Counting.Runtime.ReleaseForeign | runtime/c/nts_runtime.c:1306-1340 | foreign references only become fewer, and whatever that sets off the invariant stands and the lists being walked are untouched |
| Counting.Runtime.Lend | runtime/c/nts_runtime.c:2399-2406 | a reference handed to foreign code changes nobody's count |
| Counting.Runtime.MaybeCollect | runtime/c/nts_runtime.c:2067-2077 | a collection runs exactly when the buffer holds both 10000 candidates and as many as the last one left objects, outside a drain, a pass and a region: then the buffer is empty and the heap exactly what is reachable; otherwise buffer and heap are untouched |
| Counting.Runtime.MarkGray | runtime/c/nts_runtime.c:2247-2265 | the gray set is closed, and every count is what comes from outside it |
| Counting.Runtime.MarkRoots | runtime/c/nts_runtime.c:2349-2383 | compaction in place keeps exactly the candidates that were marked from, with their indices, and sets aside exactly the shells |
| Counting.Runtime.UnreachedCount | runtime/c/nts_runtime.c:2349-2356 | an object the marking has not reached has a positive count, so the test on a candidate's count cannot misfire |
| Counting.Runtime.ScanBlack | runtime/c/nts_runtime.c:2269-2289 | what a held object reaches gets its counts back; nothing else changes, and the worklist is as it was |
| Counting.Runtime.Scan | runtime/c/nts_runtime.c:2291-2308 | no gray object is left behind a white one, even when a later root blackens white objects |
| Counting.Runtime.CountedIsLive | runtime/c/nts_runtime.c:2300-2304 | an object that still has a count under trial deletion is reachable from outside |
| Counting.Runtime.ScanComplete | runtime/c/nts_runtime.c:2293-2308 | after the scan no gray is left and white is exactly what nothing outside reaches |
| Counting.Runtime.ScanRoots | runtime/c/nts_runtime.c:2385-2387 | the same over all candidates: white is the marked set without the live |
| Counting.Runtime.WhiteIsUnheld | runtime/c/nts_runtime.c:2310-2313 | a white object is named by white objects only |
| Counting.Runtime.GatherWhite | runtime/c/nts_runtime.c:2325-2339 | every white object the root leads to is listed once and painted black |
| Counting.Runtime.GatherRoots | runtime/c/nts_runtime.c:2389-2402 | the dead list names each white object once and no other |
| Counting.Runtime.Trace | runtime/c/nts_runtime.c:2343-2402 | after the three walks the dead list is exactly the unreachable, the counts of the rest leave out what the dead own, and the buffer is empty |
| Counting.Runtime.DoomPhase | runtime/c/nts_runtime.c:2404-2427 | with all the dead marked dying before any is freed the heap is consistent again, though no edge out of the dead was put back |
| Counting.Runtime.Sweep | runtime/c/nts_runtime.c:2420-2479 | frees exactly the dead and the shells, and more only when foreign code lets go of more |
| Counting.Runtime.CollectPass | runtime/c/nts_runtime.c:2343-2479 | a pass leaves only what was reachable, frees nothing that was unless foreign code gave references up, of which there are then fewer, and answers truly whether it freed |
| Counting.Runtime.NothingLeft | runtime/c/nts_runtime.c:2453-2465 | with an empty buffer everything allocated is reachable |
| Counting.Runtime.CollectCycles | runtime/c/nts_runtime.c:2453-2497 | ends, with an empty buffer and the heap exactly what is reachable; without foreign references exactly what was reachable before, and still without them; inside a collection or a region it does nothing; the next bound is the size of the heap it leaves |
| MapData.KeyEqIsSameValueZero | runtime/c/nts_runtime.c:9088-9140 | the comparison of each kind is SameValueZero exactly but for one object under two tags in an erased table |
| MapData.KeyEqRelation | runtime/c/nts_runtime.c:9096-9140 | it is an equivalence |
| MapData.EqualKeysHashAlike | runtime/c/nts_runtime.c:9047-9086 | equal keys hash alike in every kind, whatever the primitive hashes are |
| MapData.NormalizeKeeps | runtime/c/nts_runtime.c:10882-10910 | storing -0 as +0 changes neither which key it is nor its hash |
| MapData.SetWrites | runtime/c/nts_runtime.c:10880-10946 | a present key keeps its place and its stored key, a new one goes last: as +0 when either zero was written, and as written otherwise |
| MapData.GetAfterSet | runtime/c/nts_runtime.c:10826-10986 | after a write the key reads as the value written and every other key as before, in every kind |
| MapData.GetAfterDelete | runtime/c/nts_runtime.c:11067-11094 | after a deletion the key reads as absent and every other as before |
| MapData.GetAfterClear | runtime/c/nts_runtime.c:11096-11130 | after a clear every key reads as absent, and every position is an empty one |
| MapData.StepsKeepZeros | runtime/c/nts_runtime.c:10880-10893 | whatever is done to a list that has no -0 among its keys, it has none after |
| MapData.WideningKeepsAnswers | runtime/c/nts_runtime.c:10552-10584 | widening loses no entry, and changes the answer for a key exactly when its object is stored under another tag |
| MapData.TwinForgotten | runtime/c/nts_runtime.c:10533-10584 | such an answer: an object found before a string is written, and added a second time after |
| MapData.FindsBySameValueZero | runtime/c/nts_runtime.c:10523-10536 | with no such object a table of any kind answers as ECMA-262 says, and an unfit key is rightly absent |
| MapData.WalkInOrder | runtime/c/nts_runtime.c:11132-11172 | a walk visits ascending positions, each at most once and live when visited |
| MapData.WalkReachesAll | runtime/c/nts_runtime.c:11132-11172 | a finished walk visited all that was live when it ended, what was appended meanwhile included |
| MapData.WalkMissesNothing | runtime/c/nts_runtime.c:11132-11172 | every position a step passes over was empty when it was passed, and after the last visit all the rest was |
| MapData.CursorWalk | runtime/c/nts_runtime.c:11096-11172 | all three, for any writes, deletions, clears and widenings between the steps |
| MapData.LiveNext | runtime/c/nts_runtime.c:11202-11226 | the live entries are the list in its order without the empty places, and the size counts them |
| Probing.PackRoundTrip | runtime/c/nts_runtime.c:8916-8927 | a packed word is read back exactly and is neither EMPTY nor DELETED |
| Probing.TagHome | runtime/c/nts_runtime.c:10513-10521 | setting the top bit of a hash moves no home slot |
| Probing.ProbeEmpty | runtime/c/nts_runtime.c:10774-10782 | the probe finds the first EMPTY slot of the chain, which there is |
| Probing.SlotsFor | runtime/c/nts_runtime.c:10688-10696 | the smallest power of two from 8 that is large enough, so the slots are at least twice the capacity |
| TableState.IssuedStays | runtime/c/nts_runtime.c:10988-11002 | nothing done to a table takes a token back |
| TableState.CurrentToken | runtime/c/nts_runtime.c:11017-11036 | a slot from an unchanged generation holds the key's entry, or is where it would go and the key is absent |
| HashTable.Table.constructor | runtime/c/nts_runtime.c:10503-10511 | an empty table is sound |
| HashTable.Table.FindSlot | runtime/c/nts_runtime.c:10599-10647 | the list's position of the key or -1, with the first free slot of its chain to insert at |
| HashTable.Table.InsertAt | runtime/c/nts_runtime.c:10925-10946 | a fresh key at the slot a lookup gave is the list with one pair more; no key twice, DELETED slots reused |
| HashTable.Table.Rehash | runtime/c/nts_runtime.c:10649-10760 | growth leaves every entry at its position, holes included, and the list as it was; room for 8, then for twice what is in use, under at least twice as many slots |
| HashTable.Table.Reindex | runtime/c/nts_runtime.c:10762-10784 | an index rebuilt from the kept hashes finds every entry again |
| HashTable.Table.Widen | runtime/c/nts_runtime.c:10566-10584 | the table becomes erased, and its list stays |
| HashTable.Table.Get | runtime/c/nts_runtime.c:10826-10851 | the list's answer for any key, promised to fit or not |
| HashTable.Table.Has | runtime/c/nts_runtime.c:10853-10866 | whether the list has the key |
| HashTable.Table.Set | runtime/c/nts_runtime.c:10912-10986 | the list's Set: a present key keeps its place, a new one goes last, an unfit one widens first; a new key is stored as +0 for either zero and as written otherwise; the columns move only when full |
| HashTable.Table.Delete | runtime/c/nts_runtime.c:11067-11094 | the list's Delete, and whether there was an entry |
| HashTable.Table.Clear | runtime/c/nts_runtime.c:11096-11130 | every entry a hole with used as it was, so cursors stay good |
| HashTable.Table.Next | runtime/c/nts_runtime.c:11132-11172 | the list's next live position, for any int32 |
| HashTable.Table.Always | runtime/c/nts_runtime.c:10880-10986 | no table holds the key -0, and its size is the number of its live entries |
| HashTable.Table.Copy | runtime/c/nts_runtime.c:11202-11226 | the live entries in order without holes, in a table and columns of its own |
| HashTable.Table.Perform | runtime/c/nts_runtime.c:10912-11130 | any sequence of writes, deletions and clears leaves the list that sequence leaves, widening included |
| HashTable.Table.CopyAndPerform | runtime/c/nts_runtime.c:11202-11226 | and done to a copy it leaves the table it was copied from alone |
| HashTable.Table.Entry | runtime/c/nts_runtime.c:11004-11015 | the token it answers is good for its key for good |
| HashTable.Table.EntryGet | runtime/c/nts_runtime.c:11017-11036 | equal to Get through any token taken earlier for the key, whatever came between |
| HashTable.Table.EntrySet | runtime/c/nts_runtime.c:11038-11065 | equal to Set in result and state, through any such token, the stored zero included |
| Jobs.NothingYet | runtime/c/nts_runtime.c:11498-11517 | the empty world satisfies the invariant |
| Jobs.MakingIs | runtime/c/nts_runtime.c:12041-12043 | a new promise is pending with no subscription, and nothing else differs |
| Jobs.ListeningIs | runtime/c/nts_runtime.c:12204-12223 | a listener is one subscription more, at the end; a settled promise queues it at once and a pending one does not, and nothing else differs |
| Jobs.GivingIs | runtime/c/nts_runtime.c:12063-12123 | a pending promise takes the settlement and queues one job for each subscription in order, and is remembered if rejected with none; a settled one changes nothing at all |
| Jobs.ReturningIs | runtime/c/nts_runtime.c:12606-12615 | a promise given a promise adds exactly one job, the first hop, and nothing else differs |
| Jobs.QueuingIs | runtime/c/nts_runtime.c:11498-11517 | a queued task is one job at the end, and nothing else differs |
| Jobs.TurnIs | runtime/c/nts_runtime.c:11688-11701 | a turn takes the oldest job, and no other; a plain task does nothing to any promise by itself |
| Jobs.JoiningWith | runtime/c/nts_runtime.c:12481-12542 | a new combinator knows its result, kind, count and sources in order, its subscription with source i is its element i, and no other combinator is touched |
| Jobs.ApplyKeeps | runtime/c/nts_runtime.c:11498-11701 | every event keeps the invariant, takes nothing back, and leaves every combinator subscribed to all its elements |
| Jobs.RunsKeep | runtime/c/nts_runtime.c:12063-12223 | over every run: a settled promise never changes, and subscriptions and jobs are only added |
| Jobs.RunKeeps | runtime/c/nts_runtime.c:11688-11701 | the oldest job can always run |
| Jobs.ReactionsOnceInOrder | runtime/c/nts_runtime.c:12063-12086 | every reaction of a settled promise is queued once and none of a pending one's; of two, the one that subscribed earlier is earlier |
| Jobs.AllSettled | runtime/c/nts_runtime.c:12414-12470 | at any time: a fulfilled all has value i of source i in slot i for every i, a rejected one the reason of the rejection delivered first |
| Jobs.AllAtRest | runtime/c/nts_runtime.c:12481-12538 | with the queue empty, all is fulfilled exactly when every source is and rejected exactly when one is |
| Jobs.RaceAtRest | runtime/c/nts_runtime.c:12540-12542 | with the queue empty, a race is as the source delivered first, or pending with all of them |
| Jobs.AdoptionAtRest | runtime/c/nts_runtime.c:12589-12615 | with the queue empty and the inner promise settled an adoption is over, by its second hop |
| Jobs.AdoptionHops | runtime/c/nts_runtime.c:12589-12615 | two hops in two turns: in every world a run reaches after the first hop, the second is not among the jobs queued before that one ran, and it is queued, once, exactly when the inner promise is settled |
| Jobs.AdoptionSettles | runtime/c/nts_runtime.c:12589-12615 | from the event: over every run after a promise was given a promise, with the queue empty and the inner settled the outer is settled, and as the inner is unless something else was on its way to the outer or came later |
| Jobs.ForwardCopies | runtime/c/nts_runtime.c:12397-12412 | the second hop gives the outer promise the inner's settlement, unless it has one |
| Jobs.ReportsUnhandled | runtime/c/nts_runtime.c:11618-11674 | the report names exactly the rejections nobody listens to that were not named before, and the list is empty after it |
| Jobs.UnheardOnce | runtime/c/nts_runtime.c:11657-11674 | going through the rejections in the order they came names each unhandled one once and nothing else |
| Promises.Ring.Grow | runtime/c/nts_runtime.c:11498-11511 | growth unrolls the ring and keeps its order |
| Promises.Ring.Push | runtime/c/nts_runtime.c:11498-11517 | one task more at the end, through growth and wrap |
| Promises.Ring.Shift | runtime/c/nts_runtime.c:11519-11527 | the oldest task leaves |
| Promises.Loop.constructor | runtime/c/nts_runtime.c:11498-11543 | empty queues are the empty world, and the invariant stands |
| Promises.Loop.Reverse | runtime/c/nts_runtime.c:12067-12076 | the prepended chain turned round in place, link by link |
| Promises.Loop.Schedule | runtime/c/nts_runtime.c:12063-12086 | the reactions go to the queue oldest first, and the chain is gone |
| Promises.Loop.Settle | runtime/c/nts_runtime.c:12088-12092 | the machine's Settle |
| Promises.Loop.Subscribe | runtime/c/nts_runtime.c:12204-12223 | the machine's Subscribe: never inline |
| Promises.Loop.Fulfill | runtime/c/nts_runtime.c:12117-12123 | the first settlement wins |
| Promises.Loop.Reject | runtime/c/nts_runtime.c:12180-12195 | the first settlement wins, and an unheard rejection is remembered |
| Promises.Loop.ForwardTo | runtime/c/nts_runtime.c:12397-12412 | the machine's Resolve with the source's settlement |
| Promises.Loop.Adopt | runtime/c/nts_runtime.c:12606-12615 | the machine's Adopt: one job, nothing subscribed yet |
| Promises.Loop.Combine | runtime/c/nts_runtime.c:12481-12542 | a combinator attached to every element in order before it returns; an empty all is fulfilled at once |
| Promises.Loop.RunElement | runtime/c/nts_runtime.c:12414-12470 | the machine's Deliver: the slot written, remaining counted down, the result settled by the last or by a rejection |
| Promises.Loop.Turn | runtime/c/nts_runtime.c:11688-11701 | the machine's RunJob, for any task |
| Promises.Loop.ReportUnhandled | runtime/c/nts_runtime.c:11657-11674 | the machine's Report, naming exactly the unhandled, in the order of their rejections and each once |
| Promises.Loop.CheckpointStep | runtime/c/nts_runtime.c:11676-11701 | the checkpoint's order: ticks, then one microtask at a time, ticks again, and the report when both queues are empty; it answers what it ran |
| Promises.Loop.QueueTick | runtime/c/nts_runtime.c:11539-11541 | a tick goes to the end of its own queue |
| Promises.Loop.Run | runtime/c/nts_runtime.c:11498-12223 | over any script of moves and checkpoint steps the loop's run is a legal run of the machine, and its objects are old ones or fresh |
| Bits.XorBack | compiler/unicode/build.rs:317-329 | exclusive or with a difference gives the other value back |
| Utf16.DecodeSplit | runtime/c/nts_unicode.c:200-221 | reading code points may be cut at any boundary |
| Utf16.EncodePoint | runtime/c/nts_unicode.c:243-255 | writing a code point read gives its units back, lone surrogates too |
| CaseShape.DirectionModel.Record | compiler/unicode/build.rs:87-110 | after any records each code point maps to its last one, in one of the two maps and never as an identity |
| CaseShape.ChooseSentinel | compiler/unicode/build.rs:353-370 | the least nonzero value no ordinary mapping of either direction uses, or none if all are used |
| CaseShape.ValueDecodes | compiler/unicode/build.rs:309-351 | a table value tells identity, exception and mapping apart and decodes to the recorded one |
| CaseShape.ShapeBlocks | compiler/unicode/build.rs:309-335 | sharing equal blocks loses nothing, and no block is there twice |
| CaseShape.ShapeSpans | compiler/unicode/build.rs:336-351 | the constant-difference spans above the BMP are sorted, disjoint and decode to exactly the recorded mappings |
| CaseShape.MergeRanges | compiler/unicode/build.rs:209-244 | the merged ranges have the same members and a gap between any two |
| CaseShape.PackExceptions | compiler/codegen/c/src/emit/unicode_tables.rs:305-371 | every exception's record finds its expansion in the shared pool |
| CaseShape.IdentityRanges | compiler/codegen/c/src/emit/unicode_tables.rs:149-175 | the run of an identity page is identity pages, on one side of one byte and of the surrogates |
| CaseShape.PackBlocks | compiler/codegen/c/src/emit/unicode_tables.rs:212-273 | the packed entries decode to the values of their page, with the stop flags the loops rely on |
| CaseShape.PackLatin1 | compiler/codegen/c/src/emit/unicode_tables.rs:65-147 | the one-byte table agrees with the model but for the three characters that leave one byte |
| CaseShape.Generate | compiler/codegen/c/src/emit/unicode_tables.rs:251-371 | the generated tables carry the model: nothing is lost between the data and what the converter reads |
| CaseTables.Lookup | runtime/c/nts_unicode.c:262-298 | the lookup answers the model's mapping for every code point, by index, exclusive or or search |
| CaseTables.InProperty | runtime/c/nts_unicode.c:300-315 | the binary search answers membership exactly |
| CaseTables.IsFinalSigma | runtime/c/nts_unicode.c:327-356 | the scans over units decide the rule over code points, in the original string |
| CaseTables.SigmaAgrees | runtime/c/nts_unicode.c:327-356 | the code's rule and table 3-17 agree exactly unless a skipped code point is cased |
| CaseTables.SigmaDiffers | runtime/c/nts_unicode.c:327-356 | a string on which they do not |
| CaseTables.ConvertedAt | runtime/c/nts_unicode.c:362-392 | when lowering, U+03A3 contributes U+03C2 exactly where a cased code point comes before and none behind it past case-ignorables, and U+03C3 everywhere else; any other code point contributes its expansion, its one mapping or itself; what a text converts to is these in order |
| CaseTables.FlipIs | runtime/c/nts_unicode.c:136-163 | the ASCII letters, and no other ASCII, map 32 further on or back |
| CaseConvert.FixedStep | runtime/c/nts_unicode.c:463-505 | text is unchanged exactly when each code point is: no gain can make up for a loss |
| CaseConvert.CountFrom | runtime/c/nts_unicode.c:467-505 | length, changedness and width of the conversion, without writing it |
| CaseConvert.WriteFrom | runtime/c/nts_unicode.c:508-555 | the rest of the conversion behind a prefix that stays |
| CaseConvert.Finish | runtime/c/nts_unicode.c:557-581 | finishing only the suffix gives the whole conversion |
| CaseConvert.FirstChange | runtime/c/nts_unicode.c:583-612 | nothing before the answer changes |
| CaseConvert.Route | runtime/c/nts_unicode.c:583-663 | the speculative write, where it read is where it writes until a mapping does not fit, gives the conversion |
| CaseConvert.IdentitySpan | runtime/c/nts_unicode.c:419-461 | a scanned span is exactly the text that passes |
| CaseConvert.AsciiState | runtime/c/nts_unicode.c:93-124 | overlapping lanes answer as a unit-by-unit scan does |
| CaseConvert.AsciiCase | runtime/c/nts_unicode.c:141-163 | overlapping blocks, the last written twice, flip each letter once |
| CaseConvert.UpperEscapes | runtime/c/nts_unicode.c:126-134 | finds exactly the characters whose uppercase leaves one byte |
| CaseConvert.Latin1FirstChange | runtime/c/nts_unicode.c:165-178 | the first byte its table changes |
| CaseConvert.TwoByteAscii | runtime/c/nts_unicode.c:180-198 | whether two-byte text is ASCII, and then whether a letter changes |
| CaseConvert.Convert | runtime/c/nts_unicode.c:703-763 | on every path what ConvertedAt says of the original's code points, in one byte a unit exactly when every unit is at most 255, the very input exactly when nothing changes, and a refusal exactly when changed text is over 2^31 - 2 units long |
| Utf8.ToWellFormed | runtime/c/nts_runtime.c:3759-3782 | writes the well-formed form |
| Utf8.WellFormedAt | runtime/c/nts_runtime.c:3739-3782 | unit by unit, exactly the lone surrogates are replaced |
| Utf8.WellFormedStays | runtime/c/nts_runtime.c:3739-3782 | a well-formed form is its own |
| Utf8.WriteUtf8 | runtime/c/nts_runtime.c:7045-7083 | writes the string's UTF-8, at most three bytes a unit, and refuses U+0000 for a C string only |
| Utf8.Decode8 | runtime/c/nts_runtime.c:6913-7038 | the byte-by-byte decoder answers as the maximal-prefix definition does, with no more units than bytes |
| Utf8.AcceptsExactly | runtime/c/nts_runtime.c:6957-7023 | what is accepted is the bytes of a scalar value: no overlong form, surrogate or value past U+10FFFF |
| Utf8.DecodesOne | runtime/c/nts_runtime.c:6957-7023 | the bytes of any scalar value are accepted, wherever they stand |
| Utf8.RoundTrip | runtime/c/nts_runtime.c:6913-7083 | decoding what was written for any string gives exactly its well-formed form |
| Json.RoundTrip | runtime/c/nts_runtime.c:5003-5040 | unescaping the quoted text of any string gives its units, lone surrogates included |
| Json.EscapeLetters | runtime/c/nts_runtime.c:5000-5033 | quote, backslash, backspace, tab, newline, form feed and return have the two-unit escapes JSON.stringify writes |
| Json.EscapeDigits | runtime/c/nts_runtime.c:5034-5040 | any other escaped unit is \u and its four hexadecimal digits, the highest first and in lower case |
| Json.WordExact | runtime/c/nts_runtime.c:4811-4826 | for every 64-bit word, each byte of the test is 0x80 where that byte is escaped and 0 where not: no sum carries out of a byte |
| Json.WordScan | runtime/c/nts_runtime.c:4876-4888 | the shift and the lowest set bit of the test are the first escaped unit from there on, if the word has one |
| Json.ScanNarrow | runtime/c/nts_runtime.c:4844-4945 | the scan with its overlapping window is the unit-by-unit scan |
| Json.ScanWide | runtime/c/nts_runtime.c:4947-4991 | candidates less paired leads are exactly the escapes |
| Json.QuotedLength | runtime/c/nts_runtime.c:5042-5056 | the exact length of what the writer writes, refused past the longest string |
| Json.Room | runtime/c/nts_runtime.c:5132-5150 | always enough, exact for long text, and refused exactly when the text does not fit |
| Json.Write | runtime/c/nts_runtime.c:5058-5130 | the quoted text behind what was there, even when the output is the source's own block |
| Json.JsonQuote | runtime/c/nts_runtime.c:5172-5178 | the quoted text of the string |
| Growth.Extensive | runtime/c/nts_runtime.c:3796-3828 | in 32-bit arithmetic the room is enough exactly up to 2^32 - 2^20, and past that it is none |
| Growth.Rule | runtime/c/nts_runtime.c:3796-3828 | the room in figures: 16, then the least power of two, from 2^20 units on the least whole number of 2^20, and none past the last that fits 32 bits |
| Growth.NoRoom | runtime/c/nts_runtime.c:3816-3818 | a length two strings may have together that gets no room |
| Growth.Monotone | runtime/c/nts_runtime.c:3796-3828 | a longer string has no less room, across floor, doubling and chunks, exactly unless only the longer one is past that length |
| Growth.Idempotent | runtime/c/nts_runtime.c:3796-3828 | the room of a room is itself, exactly up to that length |
| Growth.SameRoom | runtime/c/nts_runtime.c:3831-3833 | the room is recoverable from the length for as long as it suffices |
| Growth.AppendInPlace | runtime/c/nts_runtime.c:4543-4578 | stays inside the block and appends, also when both are the same string |
| Growth.AppendCopy | runtime/c/nts_runtime.c:3839-3882 | a fresh string of both texts; refused exactly when its room would be too long; and too short a block exactly when both together are past 2^32 - 2^20 units |
| Growth.AddString | runtime/c/nts_runtime.c:4505-4582 | a followed by b, but for those same two cases; in a's own block exactly when a was handed over, its count is one, its units are wide enough and its room suffices, so a string that is shared, immortal or kept is never written; otherwise not a unit of its block changes, and it is given back once if it was handed over |
| BigInts.NoSquare | runtime/c/nts_runtime.c:1725-1745 | 2^127 is no square |
| BigInts.SquareOut | runtime/c/nts_runtime.c:1725-1745 | an overflowing square that is still to be used takes the power out of range |
| BigInts.ProductOut | runtime/c/nts_runtime.c:1725-1745 | an overflowing product is not brought back by later squares |
| BigInts.Pow | runtime/c/nts_runtime.c:1725-1745 | the exact power, stopping exactly when that is outside the range, and refusing negative exponents |
| BigInts.UpChecks | runtime/c/nts_runtime.c:1681-1697 | shifting up and back recovers the value exactly when the product fits |
| BigInts.Saturates | runtime/c/nts_runtime.c:1699-1707 | past the width a shift down is the sign |
| BigInts.Shl | runtime/c/nts_runtime.c:1709-1715 | the exact product or the floor of the quotient, for every signed count |
| BigInts.Shr | runtime/c/nts_runtime.c:1717-1723 | the same the other way |
| SomDictionary.SplitIndex | benchmarks/common/awfy-som-collections.ts:455-489 | the tested bit sends a hash, negative ones too, where the doubled mask does |
| SomDictionary.HalvesLength | benchmarks/common/awfy-som-collections.ts:455-489 | a split loses no entry |
| SomDictionary.ShapedDouble | benchmarks/common/awfy-som-collections.ts:434-453 | doubling keeps the keys, the count, and every entry in its hash's bucket |
| SomDictionary.Dictionary.constructor | benchmarks/common/awfy-som-collections.ts:349-352 | a dictionary with a power-of-two bucket array and nothing in it |
| SomDictionary.Dictionary.At | benchmarks/common/awfy-som-collections.ts:370-381 | the last value put for the key, or none |
| SomDictionary.Dictionary.AtPut | benchmarks/common/awfy-som-collections.ts:396-415 | the map with the key's value replaced or added, resize included; twice the buckets exactly when there are more entries than buckets |
| SomDictionary.Dictionary.PutAll | benchmarks/common/awfy-som-collections.ts:396-415 | over any sequence of puts the dictionary is the map of each key to its last value |
| SomDictionary.Dictionary.InsertBucketEntry | benchmarks/common/awfy-som-collections.ts:417-432 | the same down an occupied chain |
| SomDictionary.Dictionary.SplitChain | benchmarks/common/awfy-som-collections.ts:458-480 | the chain relinked in place into two, each in its old order |
| SomDictionary.Dictionary.SplitBucket | benchmarks/common/awfy-som-collections.ts:455-489 | the halves go to i and i + old length, and no other bucket is written |
| SomDictionary.Dictionary.TransferEntries | benchmarks/common/awfy-som-collections.ts:440-453 | every chain moves and no bucket is overwritten |
| SomDictionary.Dictionary.Resize | benchmarks/common/awfy-som-collections.ts:434-438 | the same map in twice the buckets |
| SomDictionary.Dictionary.RemoveAll | benchmarks/common/awfy-som-collections.ts:491-494 | an empty map in as many buckets |
| SomDictionary.Dictionary.GetKeys | benchmarks/common/awfy-som-collections.ts:496-506 | each key exactly once |

## Left out

- Counting.Runtime.Store: the compiler's slot write is not a runtime function; the model's takes what it relies on as preconditions: the program reaches the object by another way than the reference it gives, and no cycle comes about through an object of a type declared acyclic.
- Counting.Runtime.Retain: the precondition is that the object is in the heap, which is what a reference the program can use gives; the counter of operations kept under a compile-time switch is not there.
- Counting.Runtime.New: an object's count of references is unbounded, so a count that grows to the immortal mark is not modelled; memory running out is not either.
- Counting.Runtime.ReleaseForeign: code outside the runtime is any finite number of releases of references it holds, chosen freely; that it may also allocate, store or retain is not modelled.
- Counting.Runtime.Release: a dying object is asked for first, where the code compares its count word with the immortal mark before it; the two agree since a link is never that mark.
- Counting.Runtime.Free: the blocks that hang off arrays, maps, buffers and boxes are not there, so the counts of allocations and reclaims are those of headers alone.
- Foreign holders and their families (GObject, Objective-C, COM handles), and the generated trace and release callbacks: an object's references are its slots.
- Regions: allocation inside one is immortal and a collection does nothing there; leaving one, which frees its objects at once, is not modelled.
- Allocation, free lists, memory layout, poison checks and the vector forms of the loops: the word-at-a-time or lane form is modelled with the same overlapping last step.
- HashTable.Table.Set: growth asks for at most 2^29 entries in use, so that the doubling of the slots stays within 32 bits; what the code does past that is not modelled.
- HashTable.Table.EntryGet: the generation does not wrap.
- HashTable.Table.Next: positions are unbounded integers rather than 32-bit ones.
- Tables with Objective-C keys, whose comparison is foreign, table extension, own-key order and the retains and releases of keys and values.
- Promises.Loop.CheckpointStep: one step, not the loop: what the program does in a callback comes as further events, so a checkpoint need not end; Promises.Loop.Run takes the steps of any number of them; nested checkpoints, the collection that a checkpoint may run and a host that owns the queue are not modelled.
- Promises.Loop.Adopt: the claim and the numbered pair of resolving functions are not modelled, nor joins across threads, delays, timers and payloads that are raw pointers.
- Growth.AddString: what an append writes past a block that is too short is not modelled; where that is so is stated exactly.
- CaseShape.Generate: the parsing of the Unicode data files, and the version and license checks; the order in which mappings are listed is a parameter.
- CaseConvert.Convert: the strings are sequences and an answer is a value that says whether it is the input; the retains of the input and the allocation of the output are not modelled.
- Utf8.WriteUtf8: the buffer is as long as the caller promises, three bytes a unit.
- BigInts.Pow: overflow and a negative exponent are answers; in the code they stop the program or throw.
- SomDictionary.Dictionary.BucketIdx: a mask by a power of two less one is written as a remainder.
- The identity dictionary, which differs in its comparison of keys alone, and the getValues and containsKey walks, which go as getKeys and at do.
- Vectors, and sortRange, whose swap the source does not implement.
- Splitting and joining, replacing, sorting, URI coding, bigint text and number formatting.
