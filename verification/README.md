# yans, verified in Dafny

yans is a network scanner written in C. This project models the self-contained algorithmic and
protocol cores of it and proves what they promise: the Punycode encoder, the reordering generator
and the iterators built on it, the Robin Hood hash tables, port and address sets with their
in-place merges and resumable iterators, the netstring and message codecs, FastCGI framing, CSV,
two in-place path cleaners, and the protocols of the resolver pool, the forking server, the
connection loop and the job scheduler.

`dafny verify dfyconfig.toml` checks everything. No file needs anything but Dafny 4.11.

## How the model is organised

Each file is one module.

| files | what they model |
|---|---|
| Arithmetic, Sequences, Wrappers, Powers | division lemmas, sequences without repetition, options, powers of two and the round-up trick |
| Punycode, PunycodeSamples | lib/net/punycode.c against the decoder of section 6.2 of RFC 3492; two labels worked out |
| Lcg, Reorder | lib/util/reorder.c and the number theory behind its period |
| RobinHood, Rehashing, IdTbl, ObjTbl, DedupTbl | the three hash tables over an arbitrary hash |
| Ranges, Compress, Ports, Rotation, PortR4 | lib/net/ports.c |
| Addresses, Ip, IpR4 | lib/net/ip.c |
| Dsts | lib/net/dsts.c on top of both |
| HostTokens, Dnstres | lib/net/dnstres.c |
| Netstring, Octal, Ycl | lib/util/netstring.c and the code generated by apps/yclgen/genycl.c |
| Fcgi, Csv, DotSegments, CleanPath | lib/net/fcgi.c, lib/util/csv.c, lib/net/url.c, lib/util/os.c |
| Sc2, IdSet, Reaplan, Kng | apps/sc2/main.c, lib/util/idset.c, lib/net/reaplan.c, apps/knegd/kng.c |

Code that changes things step by step is a method or a class over arrays and fields, proved against
functions on values. Programs with several threads or a signal handler (Dnstres, Sc2) are state
machines over their atomic steps, and the theorems are about every run. Fixed-width arithmetic is
explicit wherever it can wrap. System calls, allocation failures, clocks, callbacks and process ids
are parameters or nondeterministic steps.

Two conventions in the proofs: an invariant written `P(...) == true` is checked as a whole instead
of conjunct by conjunct, and a predicate wrapped in `forall k :: Open(k) ==> ...` is looked into
only where a proof asserts `Open(0)` (`OpenIn(layer, 0)` for predicates in the layers that Wrappers
names). Both only keep proofs small.

## Where the code does not do what one might expect

- A range of all 2^32 values never ends in reorder32_next (lib/util/reorder.c:106-108); the model
  says so in `Reorder32.Next` and `CycleEnds`, and `IpR4Blocks.WholeCycle` for the whole IPv4 space.
- Lookup of key UINT32_MAX in idtbl wraps to the empty marker (lib/util/idtbl.c:149), and removing it counts
  an entry as removed. `FindTableEntry` and `Remove` say exactly when, `RemoveMaxThenInsert` how a pair is
  lost by it; `SetTableValue` and `Insert` have the exact condition.
- compress_blocks wraps at the all-ones address (lib/net/ip.c:517-519); `CompressBlocks` gives the
  exact condition, `WrapExample` an input.
- A CSV row of one empty column reads back as none (lib/util/csv.c:69-71); `RowsThatDoNot`, and for
  streams `StreamRoundTrip`.
- A callback that fails and leaves a descriptor open makes the counts of connections disagree for good
  (lib/net/reaplan.c:270-273); `Reaplan.Run` says that nothing else does, `StrayMiscounts` is an example.
- The overflow test on netstring lengths misses some (lib/util/netstring.c:75); `TooLargeIsMissed` is one.
  `AcceptsExactly` says that nothing wrong is accepted for it.
- A queue entry that cannot be read ends the dispatch (apps/knegd/kng.c:1215-1218), so that slots can stay
  free with entries queued; `Reaped` says exactly when, `TruncatedEntryBlocks` is an example.
- Labels of more than 1024 code points can overflow the Punycode delta; `EncodeLabel` gives the exact
  condition, `LongerLabelCanOverflow` an input.
- The start of the range behind the last one is loaded and never used (lib/net/ports.c:355-357); the
  model does not load it.

## Model

| member | source | states |
|---|---|---|
| `Punycode.EncodeLabel` | lib/net/punycode.c:64-136 | for every label: decoding what is emitted after the ACE prefix with section 6.2 of RFC 3492 gives back the label if and only if every delta fits a 32-bit integer; when one does not and the label has fewer than 2048 code points, the encoder fails, and when it does not fail its output decodes to something else; what it emits for a label that fits is the label's one encoding |
| `Punycode.EncodingIsUnique` | lib/net/punycode.c:64-136 | a label has one encoding: the prefix, its basic code points and the deltas of the insertions that give it, whose order the label determines |
| `PunycodeSamples.Parameters` | lib/net/punycode.c:28-39 | the parameters are those of section 5 of RFC 3492 |
| `PunycodeSamples.Sensei` | lib/net/punycode.c:64-136 | sample (L) of section 7.1 of RFC 3492, with six insertions: its encoding, and what that decodes to |
| `PunycodeSamples.EncodeSensei` | lib/net/punycode.c:64-136 | the encoder emits that sample |
| `PunycodeSamples.EncodeBuecher` | lib/net/punycode_test.c:40-40 | the encoder emits xn--bcher-kva for the label of the repository's own test |
| `Punycode.ShortLabelsFit` | lib/net/punycode.c:86-134 | labels of up to 1024 code points below 0x200000 never overflow, so the encoder never fails on them |
| `Punycode.LongerLabelCanOverflow` | lib/net/punycode.c:86-134 | 1024 is the exact bound: a label of 1025 code points whose delta does not fit |
| `Punycode.ComputeBias` | lib/net/punycode.c:42-51 | the bias loop computes the adaptation function of section 6.1 of RFC 3492, which the decoder uses too |
| `Punycode.EmitDelta` | lib/net/punycode.c:111-126 | the digit loop emits the generalized variable-length integer of the delta |
| `Punycode.VarRoundTrip` | lib/net/punycode.c:111-126 | a variable-length integer decodes to its value at any weight, bias and position, followed by any input |
| `Punycode.LeastAtLeast` | lib/net/punycode.c:87-93 | the search finds the least code point not yet handled |
| `Punycode.EncodePass` | lib/net/punycode.c:99-131 | one pass keeps the encoder in step with the decoder, every occurrence of the code point being one insertion, or, once a delta has wrapped, lost for good; a failure means that a delta does not fit |
| `Punycode.EncodeRound` | lib/net/punycode.c:86-134 | one round of the main loop, jump and pass, does the same and always consumes a code point |
| `Punycode.DistanceIsDelta` | lib/net/punycode.c:94-132 | the running delta at an insertion is the one fixed by the order of insertions, a property of the label alone |
| `Punycode.LogDecodes` | lib/net/punycode.c:86-134 | decoding all deltas emitted so far leads the decoder through exactly the logged states |
| `Punycode.OnlyDistance` | lib/net/punycode.c:94-132 | the decoder reaches the label from no other delta than the true one: its insertions are ordered, so its output determines them |
| `Punycode.NeverDecodes` | lib/net/punycode.c:94-132 | once a delta that has wrapped is emitted, what follows can no longer make the output decode to the label |
| `Powers.RoundUpPow2` | lib/util/idtbl.c:64-73 | the shift-and-or sequence computes the least power of two not below its argument, 0 when that does not fit 32 bits |
| `Powers.CeilPow2IsLeast` | lib/util/deduptbl.c:101-110 | the result is a power of two, not below the argument, and no smaller power of two is |
| `Lcg.Leap` | lib/util/reorder.c:29-111 | 2^k steps of x -> 5x + 1 move x by an odd multiple of 2^k times 4x + 1 |
| `Lcg.IndexReaches` | lib/util/reorder.c:29-111 | every residue modulo 2^k is reached within 2^k steps from any start |
| `Lcg.IndexUnique` | lib/util/reorder.c:29-111 | no residue is reached twice within 2^k steps: the period is full |
| `Reorder.CalcMask` | lib/util/reorder.c:29-41 | the loop finds the least 2^k - 1 that covers the number of items |
| `Reorder.OrbitIsPermutation` | lib/util/reorder.c:63-111 | one period of the masked generator takes every residue exactly once |
| `Reorder.CycleIsPermutation` | lib/util/reorder.c:63-111 | the values kept by the rejection are each value of [first, last] exactly once |
| `Reorder.Reorder32.Init` | lib/util/reorder.c:43-61 | ordered bounds, the mask and a cycle at its start |
| `Reorder.Reorder32.AdvanceToAccepted` | lib/util/reorder.c:100-102 | the rejection loop terminates within the period and stops at the next value of the cycle |
| `Reorder.Reorder32.Next` | lib/util/reorder.c:63-111 | successive calls return the cycle in order, then 0, then the same cycle again; the counter wraps, so that the cycle of the full 2^32 range goes on |
| `Reorder.CycleEnds` | lib/util/reorder.c:86-111 | a call that ends the cycle ever comes if and only if last - first < 2^32 - 1 |
| `RobinHood.Chain` | lib/util/idtbl.c:136-164 | every slot from an entry's home up to it is occupied by an entry displaced at least as far as the probe count |
| `RobinHood.StopMeansAbsent` | lib/util/idtbl.c:156-158 | a probe that meets an empty slot or a less displaced entry has already passed the key's place, so the early stop misses nothing |
| `RobinHood.Find` | lib/util/objtbl.c:139-173 | a key is found exactly when it is stored, for any hash, even in a full table |
| `RobinHood.ExistingIsMet` | lib/util/idtbl.c:235-254 | an existing key is met before any displacement swap |
| `RobinHood.Put` | lib/util/idtbl.c:212-264 | insertion keeps the Robin Hood invariant and adds or replaces exactly one pair; it runs out of slots exactly when a new key meets a full table, and then one pair is lost |
| `RobinHood.RemoveAt` | lib/util/objtbl.c:197-222 | backward-shift deletion terminates, also in a full table, keeps the invariant and removes exactly one key; at an empty slot it changes nothing |
| `RobinHood.ShiftComesRound` | lib/util/idtbl.c:199-204 | in a full table the shift stops at the latest where it began |
| `Rehashing.Rehash` | lib/util/idtbl.c:285-291 | rehashing under a different hash loses no entry |
| `Rehashing.DoubledCap` | lib/util/idtbl.c:273-283 | a doubled capacity is again a power of two and rounding it up leaves it as it is |
| `IdTbl.IdTable.Init` | lib/util/idtbl.c:300-319 | an empty table if the capacity and its sixth fit 2^31 and memory is there, the error otherwise |
| `IdTbl.IdTable.FindTableEntry` | lib/util/idtbl.c:136-164 | agrees with the map for every key below UINT32_MAX; UINT32_MAX, which lookup does not reject, is found exactly when its probe meets an empty slot before a less displaced entry |
| `IdTbl.IdTable.Get` | lib/util/idtbl.c:166-179 | the value the map holds, or not-found; UINT32_MAX is found, with a null value, exactly when an empty slot is |
| `IdTbl.IdTable.Remove` | lib/util/idtbl.c:185-209 | removes exactly the key from the map; UINT32_MAX removes nothing, but the size drops, modulo 2^32, exactly when an empty slot is found |
| `IdTbl.IdTable.SetTableValue` | lib/util/idtbl.c:211-264 | invalid key and full table are reported; ENOSLOT occurs exactly when a new key meets a full table whose size is too low, and then one pair is lost; otherwise the map is updated |
| `IdTbl.IdTable.Grow` | lib/util/idtbl.c:266-298 | twice the capacity, a new hash seed, the same map and a right size; fails exactly without memory or above 2^31 slots |
| `IdTbl.IdTable.Insert` | lib/util/idtbl.c:321-332 | every outcome with its exact condition; while the size is right the table agrees with the updated map for any hash and ENOSLOT never occurs |
| `IdTbl.RemoveMaxThenInsert` | lib/util/idtbl.c:185-264 | three keys in four slots: removing UINT32_MAX and inserting two keys loses a pair if and only if UINT32_MAX is found |
| `IdTbl.ThreeInFour` | lib/util/idtbl.c:136-164 | such a table in which it is found |
| `ObjTbl.ObjTable.Init` | lib/util/objtbl.c:314-334 | an empty table if the capacity and its sixth fit 2^31 and memory is there, the error otherwise |
| `ObjTbl.ObjTable.Get` | lib/util/objtbl.c:139-195 | returns the stored object that compares equal, when equal objects hash equal |
| `ObjTbl.ObjTable.Remove` | lib/util/objtbl.c:197-222 | removes exactly the object that compares equal |
| `ObjTbl.ObjTable.Grow` | lib/util/objtbl.c:280-312 | twice the capacity, the same objects |
| `ObjTbl.ObjTable.Insert` | lib/util/objtbl.c:224-278 | an object replaces the one it compares equal to, and ENOSLOT never occurs |
| `ObjTbl.Foreach` | lib/util/objtbl.c:360-384 | calls the function on the stored objects in slot order up to the first result other than one, and visits all of them otherwise |
| `ObjTbl.ValuesAreContents` | lib/util/objtbl.c:360-384 | a complete iteration visits the values of the map, one per key |
| `DedupTbl.DedupTable.Create` | lib/util/deduptbl.c:112-158 | the rounded-up capacity always exceeds the entry limit |
| `DedupTbl.DedupTable.Contains` | lib/util/deduptbl.c:205-227 | agrees with the set of ids |
| `DedupTbl.DedupTable.Update` | lib/util/deduptbl.c:229-276 | OK exactly for ids not seen before, EEXIST otherwise, until the limit; never ENOSLOT |
| `Ranges.NormalFormUnique` | lib/net/ports.c:70-97 | sorted, disjoint, non-adjacent ranges are determined by what they cover |
| `Ranges.EnumAscends` | lib/net/ports.c:333-360 | enumerating a normal form lists exactly the covered points, strictly ascending |
| `Compress.CompressRanges` | lib/net/ports.c:70-90 | terminates although `next` is moved back over stale entries; the ranges counted as merged are the normal form, the union is kept, and the entries left behind cover nothing new |
| `Compress.AtTouches` | lib/net/ports.c:76-80 | joining, of a range not yet taken or of a stale copy, keeps the merge of what was taken |
| `Compress.AtSplits` | lib/net/ports.c:81-87 | what splits off is never stale, and moving the tail down keeps the layout |
| `Ports.SortInPlace` | lib/net/ports.c:92-94 | sorted, with the same ranges; stands for the library's qsort |
| `Ports.Normalize` | lib/net/ports.c:93-97 | the normal form comes first, and all entries together still cover the same ports, so they can be sorted and merged again |
| `Ports.PortRanges.Undirtify` | lib/net/ports.c:92-97 | the array begins with the one normal form of the set; the cursor stays |
| `Ports.PortRanges.Next` | lib/net/ports.c:333-360 | the ports of the set in ascending order, each once, then 0, and again from the start |
| `Rotation.NextLive` | lib/net/ports.c:486-490 | the next position, going round, whose range is not depleted; all those skipped are depleted; without one, all are |
| `Rotation.RotatingEmits` | lib/net/ports.c:498-511 | taking the next value of a live position emits a value not emitted before |
| `Rotation.RotatingEnds` | lib/net/ports.c:492-496 | once all positions are depleted every listed value has been emitted exactly once |
| `Rotation.FillMap` | lib/net/ports.c:411-416 | the map from positions to ranges is a permutation |
| `PortR4.PortR4Ranges.Reset` | lib/net/ports.c:406-424 | a new cycle for every range, the map restored, `mapindex` left where it was |
| `PortR4.PortR4Ranges.Next` | lib/net/ports.c:473-512 | a port of the set not yet returned in this cycle; or 0, and then the cycle has returned every port exactly once, from any `mapindex` |
| `PortR4.PortR4Ranges.WholeCycle` | lib/net/ports.c:473-512 | a cycle ends, exactly at the call after as many as there are ports, and by then every port has been returned exactly once |
| `Addresses.AddWords` | lib/net/ip.c:149-168 | the word-wise sum with carry is addition modulo 2^128, for negative numbers too |
| `Addresses.SuccessorWraps` | lib/net/ip.c:171-179 | the successor of an address is the next one, but for the all-ones address, whose successor is zero |
| `Ip.CompressBlocks` | lib/net/ip.c:500-538 | the union is always kept; the result is sorted, disjoint and non-adjacent if and only if no block that ends at its family's all-ones address precedes another of that family that does not start at zero |
| `Ip.WrapExample` | lib/net/ip.c:517-519 | two blocks that meet the wrapping `last + 1` and therefore stay overlapping |
| `Ip.IpBlocks.constructor` | lib/net/ip.c:540-586 | the blocks cover what was given; they are in normal form exactly under the condition of CompressBlocks |
| `Ip.IpBlocks.Next` | lib/net/ip.c:656-682 | every address of every block in order, then 0, and again from the start |
| `IpR4.IpR4Blocks.Reset` | lib/net/ip.c:710-743 | a new cycle for every block, the map restored |
| `IpR4.IpR4Blocks.Next` | lib/net/ip.c:816-873 | an address of the blocks not yet returned in this cycle; or 0, and then the cycle has returned every address exactly once; 0 never comes if one block is the whole IPv4 space, whose addresses start over |
| `IpR4.IpR4Blocks.WholeCycle` | lib/net/ip.c:816-873 | a cycle ends if and only if no block is the whole IPv4 space, exactly at the call after as many as there are addresses, and by then every address has been returned exactly once |
| `Dsts.DstsCtx.Add` | lib/net/dsts.c:73-93 | the targets of the new destination come after all others, in a running cycle too; its ports are the covered ones ascending, its addresses the covered ones |
| `Dsts.DstsCtx.NextDst` | lib/net/dsts.c:95-109 | moves to the next destination that has an address; those without one contribute nothing |
| `Dsts.DstsCtx.Next` | lib/net/dsts.c:111-159 | returns the first pending target and leaves the others pending; 0 exactly when none is, after which all targets are pending again; terminates by a lexicographic measure |
| `Dsts.RowsAt` | lib/net/dsts.c:111-159 | where in a destination's targets each pair of address and port stands, and how many there are |
| `Dsts.DstsCtx.Cycle` | lib/net/dsts.c:111-159 | a cycle is the concatenation over destinations of addresses times ports, address-major, and every later cycle is the same although the shared port arrays were sorted and merged in place |
| `HostTokens.RunsAreMaximal` | lib/net/dnstres.c:121-148 | the runs handed out are exactly the maximal stretches without delimiters |
| `HostTokens.Delimiters` | lib/net/dnstres.h:45-45 | the characters that separate hosts |
| `HostTokens.RunsAscend` | lib/net/dnstres.c:121-148 | they come in ascending order and do not overlap |
| `HostTokens.HostBuffer.Next` | lib/net/dnstres.c:121-148 | the next run, ended by a terminator in the buffer; what was handed out before and the unread text are untouched |
| `Dnstres.KeepsInv` | lib/net/dnstres.c:94-409 | every step of every thread keeps the pool's invariant |
| `Dnstres.RunKeepsInv` | lib/net/dnstres.c:94-409 | it holds in every state of every interleaving |
| `Dnstres.CountIsMembership` | lib/net/dnstres.c:104-114 | a request's reference count is its list membership plus the workers holding it, plus its caller before it is queued |
| `Dnstres.DoneAtMostOnce` | lib/net/dnstres.c:94-109 | on_done has run at most once, and only when no thread holds the request |
| `Dnstres.FreedIsLeftAlone` | lib/net/dnstres.c:94-114 | no step touches a request that has been freed |
| `Dnstres.HandedInOrder` | lib/net/dnstres.c:290-326 | the hosts of a request are handed out in order, each at most once, and all of them before on_done unless the pool was shut down or the request was never made |
| `Dnstres.TakeHandsOut` | lib/net/dnstres.c:290-326 | a worker gets the very run that is cut off and counted as handed out |
| `Dnstres.GivenIsHanded` | lib/net/dnstres.c:290-326 | in every run, what the workers were given of a request is exactly what was handed out, in that order |
| `Dnstres.EachRunIsGivenOnce` | lib/net/dnstres.c:375-409 | in every run, each host of a request is given to at most one worker, in the order of the string, and to exactly one before on_done unless the request was never made or the pool was shut down |
| `Dnstres.KeepsWakeful` | lib/net/dnstres.c:375-409 | no wakeup is lost: a sleeping worker implies an empty queue and an open pool, or a broadcast still to come |
| `Dnstres.KeepsMutex` | lib/net/dnstres.c:375-409 | only the owner of the pool mutex is inside the critical sections |
| `Dnstres.NoDeadlock` | lib/net/dnstres.c:375-409 | while a request waits and a worker lives, some thread can move |
| `Dnstres.OpenEnds` | lib/net/dnstres.c:375-409 | however the threads are scheduled, an open pool takes a bounded number of steps, new calls and spurious wakeups aside |
| `Dnstres.OpenRankFalls` | lib/net/dnstres.c:94-409 | each step of the open pool's own work brings it closer to having nothing to do |
| `Dnstres.OpenMoves` | lib/net/dnstres.c:375-409 | in an open pool with a live worker some thread can move unless the list is empty, every call has returned and every worker sleeps |
| `Dnstres.StuckIsDone` | lib/net/dnstres.c:94-409 | when it has no step left but new calls, spurious wakeups and its closing, on_done has run exactly once for every request, and every host of every queued request was handed out |
| `Dnstres.ShutdownMoves` | lib/net/dnstres.c:160-180 | once shutdown has begun some thread can move until every worker has been joined |
| `Dnstres.ShutdownEnds` | lib/net/dnstres.c:160-180 | however the threads are scheduled, a pool that is shut down takes a bounded number of steps, each new call adding six; with ShutdownMoves it is joined when none is left |
| `Dnstres.RankFalls` | lib/net/dnstres.c:94-409 | then every step but a new call, spurious wakeups included, brings that end closer |
| `Dnstres.AllDoneInTheEnd` | lib/net/dnstres.c:160-180 | after shutdown on_done has run exactly once for every request whose caller has returned |
| `Dnstres.AllDoneWhenIdle` | lib/net/dnstres.c:375-409 | in an idle pool on_done has run exactly once for every request |
| `Netstring.Parse` | lib/util/netstring.c:51-106 | the loop over bytes computes the state-by-state parser, with 64-bit wrap-around of lengths and offsets |
| `Netstring.SpaceInside` | lib/util/netstring.c:86-100 | what is accepted lies inside the source and ends with a comma, although the offset can wrap |
| `Netstring.AcceptsExactly` | lib/util/netstring.c:51-106 | a source of at most 2^64 / 10 bytes is accepted, with an offset and a length, if and only if it begins with white space or none, digits that spell the length (or none behind white space), a colon, that many bytes and a comma |
| `Netstring.TooLargeIsMissed` | lib/util/netstring.c:72-79 | a length that does not fit 64 bits and is not reported as too large |
| `Netstring.Append` | lib/util/netstring.c:136-171 | appends the decimal length, a colon, the data and a comma |
| `Netstring.Samples` | lib/util/netstring_test.c:49-58 | netstrings of the repository's own test |
| `Netstring.ParsesEncoded` | lib/util/netstring.c:51-106 | each netstring is recovered from its encoding followed by any bytes |
| `Netstring.PrefixIsIncomplete` | lib/util/netstring.c:51-106 | every strict prefix of an encoding is reported as incomplete |
| `Netstring.NextPairOfEncoded` | lib/util/netstring.c:239-272 | a pair is recovered from its encoding followed by any bytes |
| `Netstring.ItemsOfEncoded` | apps/yclgen/genycl.c:169-203 | a list of strings is recovered from the concatenation of their encodings |
| `Octal.L2S` | apps/yclgen/genycl.c:149-161 | fills the buffer from its end with octal digits under arithmetic shifts |
| `Octal.S2L` | apps/yclgen/genycl.c:136-147 | reads octal digits with 64-bit shifts, losing what is shifted out |
| `Octal.WritesOctal` | apps/yclgen/genycl.c:149-161 | sample numbers, a negative one too |
| `Octal.ReadsOctal` | apps/yclgen/genycl.c:136-147 | octal, and only as far as the digits go |
| `Octal.TextRoundTrip` | apps/yclgen/genycl.c:136-161 | every 64-bit two's-complement number survives, negative ones too, for any buffer of at least 22 characters |
| `Ycl.Create` | apps/yclgen/genycl.c:275-416 | writes exactly the fields that differ from their defaults, in schema order, inside one netstring |
| `Ycl.FindField` | apps/yclgen/genycl.c:473-531 | the cyclic search from the expected field finds the field a key names, if there is one |
| `Ycl.LoadItems` | apps/yclgen/genycl.c:169-203 | all strings of a value, or an error if it is anything else |
| `Ycl.LoadLongs` | apps/yclgen/genycl.c:212-243 | all numbers of a value, or an error |
| `Ycl.ParseMessage` | apps/yclgen/genycl.c:418-565 | unknown keys are skipped, a malformed array fails the message, reading stops at the first thing that is not a pair |
| `Ycl.RoundTrip` | apps/yclgen/genycl.c:275-565 | for every schema of distinct field names and every message, parsing what was created gives back the message |
| `Fcgi.FcgiCli.Shift` | lib/net/fcgi.c:111-129 | the record returned last is dropped; a whole record behind it is the next |
| `Fcgi.FcgiCli.Fill` | lib/net/fcgi.c:131-135 | reads until the buffer begins with a whole record or nothing more comes |
| `Fcgi.FcgiCli.ReadMsg` | lib/net/fcgi.c:100-159 | returns the next record of the whole stream with the request's id (any record before it is known), however the stream was cut into reads; the records skipped on the way have other ids; without one, all that has arrived was skipped |
| `Fcgi.ReadsFrame` | lib/net/fcgi.c:83-99 | a record written as in section 3.3 of the FastCGI specification, of any type, id, content below 65536 bytes and padding below 256, is read as that record, whatever follows, with its type, id and content |
| `Fcgi.CutFrame` | lib/net/fcgi.c:83-99 | a record cut short is not one yet |
| `Fcgi.FcgiCli.ReadParams` | lib/net/fcgi.c:161-201 | comes to exactly what the records, one after another, make of the request, and uses up all records unless it finishes or fails; when it finishes, the parameters are the contents of the request's records in stream order, whatever lies between them |
| `Fcgi.RequestIsTaken` | lib/net/fcgi.c:161-201 | a request as section 6.2 of the FastCGI specification has it sent, begin record, parameters and the empty record that ends them, with records of other requests between and any padding, comes to its parameters |
| `Fcgi.ReadsRequest` | lib/net/fcgi.c:161-201 | so a client that has received such a request reads its parameters, however the stream was cut |
| `Fcgi.PassedAndBuffered` | lib/net/fcgi.c:101-159 | the records passed and the bytes buffered are all the bytes read |
| `Fcgi.RecordsExtend` | lib/net/fcgi.c:83-99 | more bytes never change the records already there |
| `Csv.Encode` | lib/util/csv.c:54-101 | appends the row of section 2 of RFC 4180: fields quoted where needed, quotes doubled, CRLF at the end |
| `Csv.ReadRow` | lib/util/csv.c:206-248 | the loop computes the column-by-column reader |
| `Csv.ReadEscaped` | lib/util/csv.c:121-162 | a quote ends the column before a separator or the end of the line, and escapes anything else |
| `Csv.ReadUnescaped` | lib/util/csv.c:164-195 | a column up to a separator or the end of the line, in any of its three forms |
| `Csv.RowRoundTrip` | lib/util/csv.c:54-248 | every row but the two of RowsThatDoNot is read back from its encoding, whatever follows |
| `Csv.AnyEndingReads` | lib/util/csv.c:121-248 | the same for a row that ends with a carriage return, a line feed, both, or the input |
| `Csv.Postel` | lib/util/csv_test.c:141-142 | a quote that nothing ends is passed over and the column goes on |
| `Csv.Samples` | lib/util/csv_test.c:48-57 | rows of the repository's own test and their encodings |
| `Csv.RowsThatDoNot` | lib/util/csv.c:218-232 | the row of one empty column reads back as no columns, and the row of no columns leaves no trace |
| `Csv.StreamRoundTrip` | lib/util/csv.c:54-248 | a stream of encoded rows is read back row by row if and only if no row is one empty column and every row of no columns is followed only by such rows |
| `Csv.ReadsSeen` | lib/util/csv.c:206-248 | what is read from any stream of encoded rows: every row that leaves a trace, and then rows of no columns |
| `DotSegments.RemoveDotSegments` | lib/net/url.c:243-285 | equals the buffer algorithm of section 5.2.4 of RFC 3986, in the same memory, the write index never passing the read index |
| `DotSegments.RemoveResolves` | lib/net/url.c:243-285 | segment by segment: "." vanishes, ".." takes the segment before with it, either leaves an empty one at the end, and all others stay |
| `DotSegments.PathHasSegments` | lib/net/url.c:243-285 | every path that begins with a slash has such segments |
| `DotSegments.ResultHasNoDots` | lib/net/url.c:243-285 | no segment of the result is "." or ".." |
| `DotSegments.RemoveIsIdempotent` | lib/net/url.c:243-285 | removing dot segments twice is removing them once |
| `CleanPath.CleanInPlace` | lib/util/os.c:386-436 | equals the text of the stack folded over the path's components, in the same memory, the write index never passing the read index |
| `CleanPath.Pop` | lib/util/os.c:412-416 | going back to the slash, but not beyond the limit, takes back exactly the last component |
| `CleanPath.CleanDropsUp` | lib/util/os.c:386-436 | a name with ".." behind it leaves no trace, whatever the path before |
| `CleanPath.CleanUp` | lib/util/os_test.c:33-39 | ".." with nothing before it stays in a relative path and goes away at the root |
| `CleanPath.CleanIsIdempotent` | lib/util/os.c:386-436 | cleaning a cleaned path changes nothing |
| `Sc2.KeepsInv` | apps/sc2/main.c:208-436 | every step of the serve loop and of the signal handler keeps the slot invariant |
| `Sc2.ReapFinds` | apps/sc2/main.c:361-384 | the handler always finds the slot of the child it has waited for |
| `Sc2.KeepsRegister` | apps/sc2/main.c:278-291 | after a fork a free slot exists, and the child gets it |
| `Sc2.SlotsAreSafe` | apps/sc2/main.c:208-436 | in every run, with SIGCHLD at any unmasked point: neither slot assertion fails, `used` never exceeds the number of slots and equals the number of occupied ones at the head of the loop, and every child not waited for has exactly one slot |
| `Sc2.PassFrees` | apps/sc2/main.c:339-359 | in every run, with SIGCHLD at any point: a pass over the slots frees each one whose child was reaped before it; any other is as it was, or free because its child was reaped during the pass |
| `Sc2.PassLowersUsed` | apps/sc2/main.c:342-356 | `used` falls by the number of slots whose children were reaped before the pass, or by more |
| `Sc2.PassReopens` | apps/sc2/main.c:339-359 | when all children were reaped before, no slot is used after the pass and the server goes on to accept |
| `Sc2.PassMakesRoom` | apps/sc2/main.c:339-359 | one child reaped is enough for a server at capacity to accept again |
| `Sc2.PassGoesOn` | apps/sc2/main.c:339-359 | a pass can always take its next step, and every step, the handler's too, brings its end closer |
| `IdSet.IdSet.UseNext` | lib/util/idset.c:78-105 | the least free id, which is then in use; -1 exactly when none is free |
| `IdSet.IdSet.Clear` | lib/util/idset.c:107-128 | the id is free again; ids out of range are ignored |
| `Reaplan.Run` | lib/net/reaplan.c:458-532 | whatever the callbacks and the kernel do, after any number of connection rounds, event batches and expiries, in any order: active connections, ids in use and open descriptors (those whose slot was taken again included) agree if and only if no callback that was called has failed and left a descriptor open |
| `Reaplan.CountsAgree` | lib/net/reaplan.c:58-78 | active connections never exceed the ids in use, nor these the open slots or the limit; every descriptor left by a failed callback is still in its slot, was forgotten when the slot was taken again, or was closed and taken from the count of connections |
| `Reaplan.Reaplan.Close` | lib/net/reaplan.c:58-78 | frees the slot and its id and runs on_done; for a descriptor that is not a connection's the count is then too low |
| `Reaplan.Reaplan.HandleEvents` | lib/net/reaplan.c:405-456 | exactly the connections that were to be closed are, once each: the close queue drops none of them; the timer event clears the timer and the throttle |
| `Reaplan.Reaplan.Connect` | lib/net/reaplan.c:258-280 | a new connection takes the least unused id; a failed one leaves all connections as they were, but an open descriptor may stay in its slot; each connection established is counted once against on_done |
| `Reaplan.Reaplan.Setup` | lib/net/reaplan.c:249-303 | connections are made until a callback fails, all ids are in use or two more events might not fit; the event array never overflows and open connections are left alone; afterwards an open descriptor is a connection's, or was stray before, or was left by the callback that failed, which was called last |
| `Reaplan.Reaplan.Expire` | lib/net/reaplan.c:305-330 | closes the expired slots in order until nothing is active; if no callback has left a descriptor these are exactly all expired connections |
| `Reaplan.StrayMiscounts` | lib/net/reaplan.c:249-330 | a run in which a failing callback leaves a descriptor: once it has expired a connection is open that is not counted |
| `Kng.Scheduler.Start` | apps/knegd/kng.c:984-1002 | the new job comes first, with the pid, the id and the time of the process started, the timeout asked for or else the default, and no flag set; without a process there is none |
| `Kng.Scheduler.Request` | apps/knegd/kng.c:1109-1149 | started at once if there is a slot, as exactly that job; otherwise queued, if the entry can be written |
| `Kng.Scheduler.Dispatch` | apps/knegd/kng.c:1206-1245 | for any order in which the entries come: an entry taken leaves the queue for good, no job is started twice, at most n are started and the slots are not overbooked; the new jobs are, newest first, those of the entries taken that start, each with its own process and timeout; an entry that cannot be read ends the dispatch |
| `Kng.Scheduler.Reaped` | apps/knegd/kng.c:1247-1272 | exactly the reaped job leaves the list, the jobs of the dispatch come before the others, and the counter of running jobs stays the list's length; a slot is free with entries queued afterwards if and only if an unreadable entry, not the last, came before as many as there were slots could be started |
| `Kng.DispatchLeaves` | apps/knegd/kng.c:1206-1245 | a dispatch leaves entries with jobs still to start if and only if an unreadable entry, not the last, comes first |
| `Kng.TruncatedEntryBlocks` | apps/knegd/kng.c:421-465 | a truncated entry before a good one: nothing is started and the good one stays queued |
| `Kng.Scheduler.StartedAtMostOnce` | apps/knegd/kng.c:459-465 | no two jobs were ever started from one queue entry, whatever the order |
| `Kng.Scheduler.Drop` | apps/knegd/kng.c:912-940 | removes the first job with the pid, wherever in the list, and counts down only if there is one |
| `Kng.Scheduler.Stop` | apps/knegd/kng.c:894-902 | SIGTERM goes to the first job with the id, which is marked as stopped; without one nothing happens |
| `Kng.Scheduler.Tick` | apps/knegd/kng.c:791-828 | SIGKILL is sent exactly to the jobs an earlier tick has marked, to which SIGTERM has been sent |
| `Kng.RunsForItsTime` | apps/knegd/kng.c:791-828 | at whatever times the ticks come, a job that is neither stopped nor marked gets no signal before its timeout, SIGTERM at the first tick after it and SIGKILL at every later one |
| `Kng.StoppedIsKilled` | apps/knegd/kng.c:791-828 | a job that was stopped gets no signal at the next tick and SIGKILL at every later one |

## Left out

- Text parsing of addresses, ports and URLs (ip_addr, port_ranges_from_str, url_parse): the sets start from parsed ranges.
- IPv6 zone ids: all addresses have the same zone, so `diff_zones` never applies.
- qsort is the library's: `SortInPlace` is an insertion sort with the same comparison.
- PortRanges: adding ranges to a set in the middle of an iteration; sets are made from their ranges.
- Dsts: addresses that are neither IPv4 nor IPv6, which the iterator skips, cannot arise from parsed blocks.
- IdTbl.IdTable.SetTableValue: what later calls do to a table that has lost a pair; some slot may then no longer be empty or hold an entry at home, on which removal relies.
- IdTbl, ObjTbl: copying tables, statistics and sorting by distance, which would only add easy members; the hash functions themselves, since the proofs hold for any.
- DedupTbl: files and memory mapping; deduptbl_load.
- Punycode: UTF-8 decoding and splitting a host name into labels; labels are sequences of code points.
- Netstring: the terminators that parsing writes over the commas; nothing reads them but strcmp and s2l, whose end they mark.
- Ycl: alignment and offsets of arrays in the message buffer; arrays are sequences. Allocation failures.
- Ycl.Create: takes the size of the number buffer as a parameter; the generated code uses 48.
- Fcgi: the body (fcgi_cli_readbody has the shape of readparams) and the decoding of parameter pairs, whose four-byte lengths keep the marker bit (lib/net/fcgi.c:252).
- Dnstres: name resolution itself; creation of the pool. Steps under the mutex that no other thread can observe are merged into one.
- Dnstres: that the scheduler goes on taking steps; OpenEnds and ShutdownEnds bound how many there are to take.
- Sc2: timeouts and the child's side; fork is assumed never to return a pid still recorded in an occupied slot.
- Reaplan: TLS handshakes, event registration and teardown; events are for connections, since nothing else is registered.
- Kng: a job's type and name, its log file and the environment of its process; the id that the store gives a job comes with the process.
- Kng: the queue's directory layout, and the messages exchanged with the store; a queue entry has a unique number, and unlinking one that was taken is assumed to succeed.
- lib/vulnspec, lib/util/eds.c, lib/util/lines.c, HTTP handlers, command lines, logging and daemonizing.
