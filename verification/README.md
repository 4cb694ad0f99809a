# A model of the Meilhaus driver library

The user-space half of the driver library keeps its own state and does its own arithmetic before anything reaches the
kernel. This project models that part in Dafny and proves what it promises.

| file | what it models |
|---|---|
| `Defines.dfy`, `Sequences.dfy`, `Reals.dfy` | constants and machine integers, facts that several files use |
| `Memory.dfy` | the C heap as a map from live addresses to cells, ownership of data structures in it, strings |
| `DeviceTree.dfy`, `ConfigCopy.dfy`, `ConfigRelease.dfy` | device, subdevice and range trees; copying, joining and freeing them |
| `ConfigNumbering.dfy`, `ConfigLookup.dfy` | logical device numbers, the table for looking them up |
| `OpenRun.dfy` | `ME_Open` with an address, and runs of it |
| `ConfigMeaning.dfy` | what the results on configurations say of every field and of memory |
| `ContextList.dfy` | the list of driver contexts |
| `Triggers.dfy`, `StreamConfigs.dfy` | translation of triggers and channel lists |
| `ThreadList.dfy`, `ThreadProtocol.dfy` | the list of callback threads; who frees a record, over all interleavings |
| `Timers.dfy`, `RangeChoice.dfy` | ticks, times and frequencies; the choice of a range |
| `Demux.dfy`, `Adc.dfy`, `Pt100.dfy`, `Thermocouple.dfy` | sorting samples by channel, conversion of values, temperatures |
| `LockAll.dfy`, `LockReleases.dfy` | locking all drivers while other processes act; releasing and checking |
| `AddressFile.dfy`, `AddressList.dfy` | address files that include others; the list built from them |

A pointer is a number and memory an explicit map, so that reading or freeing a cell that is not live is a precondition
failure. `Owns(whole, layout, rest)` says that memory consists of exactly the cells of a layout, at different addresses,
and of the rest; a postcondition of this form states at once that nothing is shared, leaked or freed twice. Ghost
parameters give the shape of a data structure. C `double` is `real`. Other processes, the answers of the driver and the
files that can be opened are parameters, and the results hold for all of them.

Where code and comment, or code and evident intent, disagree, the model follows the code:

- The comment on the trigger table names the conversion types the other way round than the assignments
  (`library/meids_internal.c:385-386` against 638-661): a digital start becomes CONV_ANALOG.
- Edge and synchronisation channel are copied from the long to the simple struct on the way back
  (`library/meids_internal.c:738-739`).
- `ConfigJoin` drops the error of copying, and an entry of an unsupported access type ends the copying of its list
  (`library/meids_config.c:545-639`).
- `ShortcutResolve` compares the reference with the last slot of the table, which is not the dummy
  (`library/meids_config.c:938-964`).
- `ContextRemove` goes on with `head->next` instead of the next node (`library/meids_internal.c:107`).
- A failed `ME_LockAll` returns the code of the last release (`library/meids_local.c:550`).
- `meIOSingleTicksToTime` looks at the low half twice (`library/meids_global.c:1013`).
- The tolerance of the range choice is 0.0001, not the 0.1 % of the comment (`library/meids_local_calls.c:1111`).
- The callback mutex has default attributes (`library/meids_local_calls.c:94`), so that destroying threads from a
  callback blocks. Two kinds of threads leave their loop with it locked when they find their record off the list
  (`library/meids_local_calls.c:2447-2453`), for which it is enough that they were cancelled while they waited for the
  mutex. Whether the holder may lock it again is a parameter.
- A thread cancelled while it waits for the mutex reads its freed record after the callback
  (`library/meids_local_calls.c:2448-2465`), where the record of another thread may be by then.
- Between two entries of a thermocouple table the code uses the step behind the upper one, and outside the table it
  returns a voltage (`library/meids_global.c:1919-1943`).
- The table of `common/pt_100.h` falls once (175-176).

## Model

| member | source | states |
|---|---|---|
| `ConfigCopy.ConfigJoin` | library/meids_config.c:545-587 | The join is a deep copy in freshly allocated memory and in nothing but it: the new configuration owns its struct, its table, every entry, subdevice, range and string, and the memory from before is untouched. Its value is the two old values one after the other, each up to and including the first entry of an unsupported access type. No write goes outside a table. The codes of the two passes are dropped, so it always reports SUCCESS |
| `ConfigCopy.ConfigDuplicate` | library/meids_config.c:501-543 | The same for one configuration |
| `ConfigCopy.ConfigAppend` | library/meids_config.c:589-622 | A table with one more slot replaces the old one, which is freed, and a deep copy of the entry is appended; an unsupported access type is reported although the entry has been appended |
| `ConfigCopy.AppendDeviceList` | library/meids_config.c:624-639 | Copies entries up to the first refused one, each into the next free slot; SUCCESS exactly if all access types are supported |
| `ConfigCopy.CopyEntry` | library/meids_config.c:641-705 | One entry, deep-copied into the next slot; the value of the copy is the value of the source |
| `ConfigCopy.CopyDevice` | library/meids_config.c:641-705 | The struct is filled with copies of bus words, host name, strings and subdevices; nothing of the source is shared |
| `ConfigCopy.CopyDesc` | library/meids_config.c:707-748 | Name and description are copied into buffers of their own, or stay NULL |
| `ConfigCopy.CopySubdeviceList` | library/meids_config.c:770-812 | Every subdevice with its ranges, in order, each in memory of its own |
| `ConfigCopy.CopyRangeList` | library/meids_config.c:814-845 | Every range, in order, each in memory of its own |
| `ConfigCopy.StrDup` | library/meids_config.c:715-727 | A string copied into strlen + 1 characters: same text, terminator included, no write outside the buffer |
| `ConfigMeaning.JoinedFields` | library/meids_config.c:545-845 | What the joined list holds, field by field: the first n entries of the first list and the first m of the second one, n and m being all of them or up to the first refused one; each with equal information, bus words, texts, subdevices and ranges, by index |
| `ConfigMeaning.ConfigInMemory` | library/meids_config.c:545-622 | The struct of an owned configuration in memory holds the pointer to its table and the count, and the table the pointers to its entries |
| `ConfigMeaning.DeviceInMemory` | library/meids_config.c:641-748 | The struct of every entry in memory, its strings character by character with their terminators, and the table of its subdevices |
| `ConfigMeaning.SubdeviceInMemory` | library/meids_config.c:770-845 | The struct of every subdevice in memory, its table and every range |
| `Ownership.OwnsExactly` | library/meids_config.c:308-401 | Ownership, which all these results are stated with: the cells of the layout and the rest are at different addresses and make up all of memory |
| `ConfigRelease.ConfigClean` | library/meids_config.c:308-335 | Frees every struct, table and string of the configuration exactly once and nothing else: what is left is the rest of memory and an empty configuration |
| `ConfigRelease.CleanDevice` | library/meids_config.c:337-378 | Frees the strings, the subdevice table and all subdevices of one entry, and clears the pointers to them |
| `ConfigRelease.CleanSubdevice` | library/meids_config.c:380-401 | Frees the ranges and the range table of one subdevice |
| `ConfigNumbering.ConfigEnumerate` | library/meids_config.c:403-434 | The numbers are start, start + 1, ... in list order; nothing else changes |
| `ConfigNumbering.ConfigContinueEnumerate` | library/meids_config.c:464-499 | Entries numbered -1 get, in list order, the least numbers from start on that are in use nowhere in the list; every other entry and every other field is unchanged |
| `ConfigNumbering.FindNextIndex` | library/meids_config.c:280-306 | The least number from min on that no entry has, except that -1 is passed over as long as no entry has a number that is not negative |
| `ConfigNumbering.FindMaxIndex` | library/meids_config.c:237-257 | The greatest number in the list, -1 if there is none above |
| `ConfigNumbering.ConfigVerify` | library/meids_config.c:120-212 | Succeeds exactly if the numbers are pairwise distinct; the control fields are set as the entries say in either case |
| `Numbering.FilledIsUnique` | library/meids_config.c:464-499 | The description of the numbering (least unused numbers, in list order, others unchanged) determines the result |
| `Numbering.FilledIsDistinct` | library/meids_config.c:464-499 | The numbers afterwards are pairwise distinct exactly if the preset ones were |
| `Numbering.FilledIsBounded` | library/meids_config.c:280-306 | For a start that is not negative every new number is below start + number of entries |
| `Numbering.Pigeonhole` | library/meids_config.c:280-306 | m different values need at least m places: the search for a free number ends |
| `ConfigNumbering.NumberedVerifies` | library/meids_config.c:151-181 | ConfigVerify accepts what ConfigContinueEnumerate numbered exactly if the preset numbers were distinct |
| `ConfigMeaning.NumberedFields` | library/meids_config.c:403-499 | Numbering changes the number of an entry and no other field |
| `ConfigMeaning.VerifiedFields` | library/meids_config.c:196-209 | Verifying changes the control field only: used entries with a real device stay used, all others are blocked |
| `ConfigLookup.ConfigResolve` | library/meids_config.c:847-898 | The reference is the first entry with the number, or the dummy; INVALID_DEVICE exactly for negative numbers and those above all others, SUCCESS if that entry is there and plugged in, DEVICE_UNPLUGGED otherwise |
| `ConfigLookup.ShortcutBuild` | library/meids_config.c:900-936 | One slot for each number up to the greatest; a slot holds the last entry with its number, and the dummy exactly in a gap |
| `ConfigLookup.ShortcutResolve` | library/meids_config.c:938-964 | The slot of the number, or the last slot; its status compares the reference with the last slot. For a table without slots the memory in front of it is read, which is a parameter |
| `ConfigLookup.SlotAgreesWithResolve` | library/meids_config.c:900-936 | Table and linear search hand out the same entry exactly if no two entries share the number |
| `ConfigLookup.TableAgreesWithResolve` | library/meids_config.c:847-936 | For a configuration in memory with distinct numbers every slot holds what ConfigResolve finds |
| `ConfigLookup.ShortcutResolveIsPositional` | library/meids_config.c:938-964 | On a table with slots ShortcutResolve reports SUCCESS exactly for the numbers below the greatest one, gaps included; the last slot is a device |
| `ConfigLookup.NoSlotsExactly` | library/meids_config.c:900-917 | The table has no slots exactly if no entry has a number that is not negative |
| `ConfigLookup.FoundEntries` | library/meids_config.c:847-936 | The linear search hands out the entry at the first place with the number, a slot the one at the last place |
| `ConfigLookup.MissingNumber` | library/meids_config.c:847-936 | Both hand out the dummy if no entry has the number |
| `OpenRun.MeOpen` | library/meids_local.c:310-335 | Join, two clean-ups, two frees, taking over the table, numbering from 0 and appending the context: the global configuration is the concatenation, numbered in list order; everything else that was allocated is freed, once; the context is last on its list |
| `OpenRun.RunIsConcatenation` | library/meids_local.c:310-335 | Over any run of opens with supported access types the configuration is all opened configurations in open order, numbered 0 to n - 1 |
| `OpenRun.DeviceStays` | library/meids_local.c:310-335 | In such a run the k-th device, with its number, context and real device number, never changes once it is there |
| `OpenRun.DeviceSurvives` | library/meids_local.c:310-335 | In general a device keeps its place, unchanged, in the next open exactly if all entries before it have supported access types; otherwise it is dropped and its place is taken by a newly opened device, if any |
| `OpenRun.StepAppendsExactly` | library/meids_local.c:310-335 | One open appends the new configuration to the global one, renumbered, exactly if in both only the last entry may have an unsupported access type |
| `OpenRun.RunAppendsExactly` | library/meids_local.c:310-335 | After a run the global configuration is everything opened, in order and numbered from 0, exactly if this holds of all that was opened before the last open and of the last one |
| `OpenRun.KeptReaches` | library/meids_config.c:624-639 | Copying reaches entry k exactly if all entries before k are supported |
| `ConfigMeaning.OpenedFields` | library/meids_local.c:310-335 | The k-th entry after an open is the k-th copied one, with number k and nothing else changed |
| `ContextList.ContextListInit` | library/meids_internal.c:874-888 | A list of one (NULL, NULL) node, or INTERNAL without a pointer to put it in |
| `ContextList.ContextAppend` | library/meids_internal.c:25-79 | Append at the end: the end node takes the context and a new (NULL, NULL) node follows. A damaged list (end node with a context, or pointing to itself) is reported and left alone, with nothing leaked |
| `ContextList.ContextRemove` | library/meids_internal.c:81-117 | On any list, also one whose end node leads to itself: if it returns 0, the first match among the nodes it looks at took over its successor, which is freed, and what is left is the list without it, unless the successor was such an end node; otherwise nothing changed. It returns exactly if it meets an end or a match at the first node or the one behind it |
| `ContextList.ProperRemoval` | library/meids_internal.c:98-106 | On a proper list the removed context is the first occurrence, and the list stays proper |
| `ContextList.ProperEnds` | library/meids_internal.c:94-109 | On a proper list the call returns exactly if there are fewer than two contexts or the context is one of the first two |
| `ContextList.RemovalCases` | library/meids_internal.c:98-113 | When the call returns and which node it removes, for every list, by the number of contexts, damaged end nodes included |
| `ContextList.RemovalInMemory` | library/meids_internal.c:98-106 | In memory the node takes over what is behind it, which is freed, and nothing else changes |
| `ContextList.ListInMemory` | library/meids_internal.c:25-79 | In memory every node leads to the next one and carries its context, and the end node leads nowhere or, in a damaged list, to itself |
| `Triggers.ToSimple` | library/meids_internal.c:351-687 | Succeeds exactly for the 14 start combinations with scan ticks present exactly for timed scans, flags 0 and one of the 3 stop pairs with its count; then every output field is written, whatever was there; otherwise nothing is written and the error is the first that applies |
| `Triggers.CheckStart` | library/meids_internal.c:389-520 | The first if-chain accepts exactly the 14 combinations |
| `Triggers.CheckStop` | library/meids_internal.c:529-597 | The stop conditions and their errors |
| `Triggers.AssignType` | library/meids_internal.c:602-683 | The second if-chain, which has no else branch, covers every combination the first one accepts |
| `Triggers.ToUniversal` | library/meids_internal.c:689-797 | The start triple, ticks, stop pair, counts and levels are written back; edge and synchronisation channel are copied the other way |
| `Ticks.JoinSplit` | library/meids_internal.c:359-362 | Splitting 64-bit ticks into two signed halves and joining them gives the ticks back exactly if bit 31 is clear, and 2^32 less otherwise, modulo 2^64 |
| `Ticks.SplitJoin` | library/meids_internal.c:741-749 | Joining and splitting a pair gives it back exactly if the low half is not negative |
| `Triggers.StartRoundTrip` | library/meids_internal.c:602-737 | The start triple of accepted triggers comes back exactly if conversions are by timer |
| `Triggers.TicksRoundTrip` | library/meids_internal.c:741-749 | Each pair of ticks comes back exactly if its low half is not negative |
| `Triggers.StopRoundTrip` | library/meids_internal.c:751-795 | Stop pair, the count in use and both levels always come back; the other count is cleared |
| `Triggers.AcceptedAgain` | library/meids_internal.c:351-797 | What comes back over a struct with flags 0 is accepted again exactly if conversions are by timer or scans are not |
| `Triggers.StartTable` | library/meids_internal.c:389-520 | The 14 accepted start triples, one by one |
| `Triggers.ErrorTable` | library/meids_internal.c:389-597 | For every error code the exact condition under which it is reported, and SUCCESS exactly for accepted triggers |
| `Triggers.SimpleTable` | library/meids_internal.c:599-683 | The driver form of accepted triggers: CONV_ANALOG exactly if acquisition and conversion start are digital, CONV_DIGITAL exactly if they are analog, and so on for all seven types; edge, channel, levels, ticks and stop fields |
| `Triggers.LongTable` | library/meids_internal.c:689-797 | The interface form of every driver form, of unknown types too, and what is left as it was |
| `Ticks.TicksInNumbers` | library/meids_internal.c:359-362 | Joining keeps the sum of the halves modulo 2^64; splitting gives the signed 32-bit halves |
| `StreamConfigs.ToSimple` | library/meids_internal.c:799-848 | Accepts exactly if all references are allowed and equal and all entry flags are 0; else the list is untouched and the error belongs to the first bad entry |
| `StreamConfigs.ToUniversal` | library/meids_internal.c:850-872 | Channels and ranges, one reference for all, DIFFERENTIAL taken out of the flags |
| `StreamConfigs.ConfigRoundTrip` | library/meids_internal.c:799-872 | to_simple undoes to_universal: channels, ranges and flags including DIFFERENTIAL, for every list that is not empty |
| `StreamConfigs.ReferenceRoundTrip` | library/meids_internal.c:799-872 | The other way round an entry comes back exactly if its reference is one of the two general ones |
| `StreamConfigs.AcceptedInNumbers` | library/meids_internal.c:805-834 | Lists are accepted exactly if all entries have the same of the six references, and no flags |
| `StreamConfigs.SimpleInNumbers` | library/meids_internal.c:836-845 | Channels and ranges are kept; the differential bit is set exactly for the three differential references or if it was set before |
| `ThreadList.CreateThread` | library/meids_local_calls.c:2288-2340 | A record is pushed on the front of the list and the arguments are handed to the new thread; if the thread cannot be started, both are freed and memory is as before |
| `ThreadList.ThreadBegin` | library/meids_local_calls.c:2416-2418 | A new thread takes its arguments and frees them |
| `ThreadList.DestroyThread` | library/meids_local_calls.c:2356-2394 | The list keeps exactly the records that do not match, in order; matching records of other threads are unlinked and freed, that of the calling thread is unlinked, marked 1 and not freed |
| `ThreadList.ThreadEnd` | library/meids_local_calls.c:2464-2467 | A thread that finds cancel 1 frees its own record; one that was cancelled by another thread and still looks at its old address frees nothing, as long as no record that waits to be freed by its own thread has come to lie there |
| `ThreadList.LiveCancel` | library/meids_local_calls.c:2370-2387 | A read of cancel at the address of a live record finds 0 if the record is listed, and 1 if it was taken off by its own thread |
| `ThreadList.DestroyedRecords` | library/meids_local_calls.c:2367-2390 | Which records are kept, which are freed and which are left to their own thread, by their numbers |
| `ThreadList.ThreadsInMemory` | library/meids_local_calls.c:2288-2394 | In memory listed records lead to each other and read 0, records taken off the list by their own thread read 1, and new threads have their arguments |
| `ThreadProtocol.Perform` | library/meids_local_calls.c:2288-2394 | Every step of the protocol is what the code does to memory, except the end of a late thread that finds 1 at its old address; a callback that returns leaves the mutex locked exactly as the step says |
| `ThreadProtocol.CallbackReturns` | library/meids_local_calls.c:2447-2458 | The four loops behind the callback: the mutex is left locked exactly by interrupt and stream-start threads whose callback does not return 0 and that then find themselves cancelled |
| `ThreadProtocol.CancelIsSeen` | library/meids_local_calls.c:2447-2458 | They find this in memory exactly if their record is off the list, unless it has become another one that is listed |
| `ThreadProtocol.StepKeeps` | library/meids_local_calls.c:2288-2467 | Each step keeps: every record ever made is in exactly one place (list, hands of its own thread, freed), every thread has at most one record, every thread takes its arguments once; the one exception is the end of a late thread that finds 1 at its old address |
| `ThreadProtocol.EveryRecordInOnePlace` | library/meids_local_calls.c:2288-2467 | So over all interleavings in which no late read finds 1, late callbacks of cancelled threads included, no record is freed twice and none on the list is freed |
| `ThreadProtocol.OnePlaceInWords` | library/meids_local_calls.c:2288-2467 | One place: the list, the records off it and the freed ones in a row hold every number given so far once, and no other number |
| `ThreadProtocol.RecordsInOnePlaceExactly` | library/meids_local_calls.c:2288-2467 | Without that condition this holds over all interleavings exactly if the mutex cannot be locked again by its holder |
| `ThreadProtocol.LateReadsFindOneExactly` | library/meids_local_calls.c:2464-2465 | A late read can find 1 exactly if the mutex can be locked again by its holder |
| `ThreadProtocol.ReuseRuns` | library/meids_local_calls.c:2356-2465 | The run: a thread is cancelled while it waits for the mutex, its address is used again for a thread that destroys itself, and the first one calls back late |
| `ThreadProtocol.NothingLeaks` | library/meids_local_calls.c:2288-2467 | When all threads have ended and no late read has found 1, each record made has been freed once and no arguments are left |
| `ThreadProtocol.UnmatchedAreKept` | library/meids_local_calls.c:2367-2390 | A record stays exactly if it does not match; a negative device matches all |
| `ThreadProtocol.UnmatchedInOrder` | library/meids_local_calls.c:2367-2390 | Filtering respects concatenation: the order stays |
| `ThreadProtocol.NoOrphansWithoutRelock` | library/meids_local_calls.c:94-94 | With a mutex that its holder cannot lock again, which is what the default attributes ask for, no thread ever destroys its own record, and no late read finds 1 |
| `ThreadProtocol.SelfDestructionRuns` | library/meids_local_calls.c:2447-2465 | A thread can destroy itself in its callback exactly if the mutex may be locked again; the mutex is then left locked exactly by interrupt and stream-start threads whose callback does not return 0 |
| `ThreadProtocol.LateCallbackRuns` | library/meids_local_calls.c:2445-2453 | Whatever the mutex allows, a thread that is cancelled while it waits for it calls back, and leaves it locked in the same cases |
| `ThreadProtocol.NeverLeftLockedExactly` | library/meids_local_calls.c:2447-2458 | Over all runs, if the callbacks of threads of the given kinds may return anything and the other ones return 0: the mutex is never left locked exactly if neither interrupt nor stream-start threads are among the given kinds |
| `ThreadProtocol.LockedForever` | library/meids_local_calls.c:2447-2453 | After that nothing is created, destroyed or called back any more |
| `Timers.StreamTimeToTicks` | library/meids_local_calls.c:2097-2151 | Ticks and achieved time in each of the cases, and on errors; the cast to unsigned is always defined |
| `Timers.TimeIsClampedRounding` | library/meids_local_calls.c:2112-2135 | On a sane timer the cases are one clamped rounding, and the reported time is the time of the ticks |
| `Timers.TicksOf` | library/meids_local_calls.c:2112-2135 | The ticks are within the bounds of the timer |
| `Timers.TicksAreMonotone` | library/meids_local_calls.c:2112-2135 | A longer time never has fewer ticks |
| `Timers.TicksAreClose` | library/meids_local_calls.c:2112-2135 | Within the bounds the achieved time is off by at most half a tick |
| `Timers.TicksAreIdempotent` | library/meids_local_calls.c:2112-2135 | The achieved time has the same ticks |
| `Timers.StreamFrequencyToTicks` | library/meids_local_calls.c:2153-2207 | Ticks and achieved frequency in each of the cases, and on errors, for all bounds; the low half of a bound keeps its sign, and a cast or a division C leaves open or infinite is shown as such |
| `Timers.AlwaysDefined` | library/meids_local_calls.c:2176-2194 | Every frequency can be converted exactly if the bounds, taken in the order that makes the rate positive, are not among those with a negative upper one and a lower one that is positive, or at most -2 and not above it |
| `Timers.FrequencyAgreesWithTime` | library/meids_local_calls.c:2097-2207 | The frequency 1 / t has the same ticks as the time t, for every t > 0 and every timer on which the two conversions read the bounds alike |
| `Timers.FrequencyAgreesExactly` | library/meids_local_calls.c:2097-2207 | They agree at all times exactly for these timers: not usable, or with a positive rate and no bound with a negative low half and a high half of 0, or with a negative rate and two equal bounds that are not such |
| `Timers.SingleTicksToTime` | library/meids_global.c:988-1034 | The joined ticks over the ticks of one second; 0 for a negative low half, on an error, and if there are no ticks for a second |
| `Timers.OneSecond` | library/meids_global.c:1015-1018 | The ticks of one second are the rate, limited to the bounds, and survive splitting and joining |
| `Timers.TicksToTimeRoundTrip` | library/meids_global.c:1012-1025 | SingleTicksToTime gives back the achieved time exactly if the timer can count one second and the ticks have bit 31 clear |
| `Timers.TimeTicksInNumbers` | library/meids_local_calls.c:2112-2135 | The bound that time times rate exceeds, or the ticks t with t - 0.5 <= time times rate < t + 0.5 |
| `Timers.FrequencyTicksInNumbers` | library/meids_local_calls.c:2172-2199 | The same of rate over frequency; 0 gives the least number of ticks, a frequency below the least one the greatest number |
| `Timers.AchievedFrequency` | library/meids_local_calls.c:2172-2199 | The achieved frequency times the ticks is the rate, and times their time 1; without ticks it is infinite |
| `Timers.TimeBackInNumbers` | library/meids_global.c:1012-1025 | The time times the ticks of one second is the number of ticks |
| `RangeChoice.Calculate` | library/meids_local_calls.c:1109-1160 | The least index of a fitting range at the least distance among all ranges; NO_RANGE exactly if no fitting range is nearer than FLT_MAX; the early exit only hides later failures of the driver; a failure met before that is returned |
| `RangeChoice.BestIsUnique` | library/meids_local_calls.c:1127-1155 | That description has one answer, so the early exit and the full scan agree |
| `RangeChoice.ExactLimits` | library/meids_local_calls.c:1144-1153 | The limits of a listed range choose the first range with exactly these limits |
| `RangeChoice.ChosenRangeCovers` | library/meids_local_calls.c:1138-1139 | The chosen range is narrower than the asked one by no more than the tolerance allows |
| `RangeChoice.AnswerInNumbers` | library/meids_local_calls.c:1127-1157 | The answer in numbers: no range exactly if each is passed at one end by more than 0.0001 of its width, or its squared distance is not below FLT_MAX; otherwise the least index among the others with the least squared distance |
| `RangeChoice.QueryRangeByMinMax` | library/meids_local_calls.c:1162-1180 | Reversed limits are refused; the code and the limits are those of a second query of the chosen range, which may fail |
| `Demux.ExtractValues` | library/meids_global.c:1445-1498 | The first min(capacity, matches) samples at positions p with config[p mod n].channel equal to the channel, in order; the rest of the buffer is untouched; the loops end, and no index leaves the range of an int |
| `Demux.ChannelsPartition` | library/meids_global.c:1468-1488 | Extracting every configured channel once splits the buffer: the samples are a permutation of it, the counts add up to its length |
| `Demux.SampleIsKept` | library/meids_global.c:1475-1479 | Sample p is found in its channel at the number of samples of that channel before p |
| `Demux.WholeScans` | library/meids_global.c:1464-1488 | Each whole scan gives as many samples of a channel as it is listed |
| `Demux.SamplesAtPlaces` | library/meids_global.c:1464-1488 | The samples of a channel are those at its places, in order |
| `Demux.PlacesExactly` | library/meids_global.c:1464-1488 | The places are exactly the p with config[p mod n].channel equal to the channel, ascending |
| `Adc.PhysicalToDigital` | library/meids_global.c:1500-1556 | The rounded level, limited; the error codes of all branches, also where division or cast is left open by C |
| `Adc.DefinedExactly` | library/meids_global.c:1533-1533 | The cast is defined exactly for values in a range of about 2^32 steps, which contains [dMin, dMax] |
| `Adc.RefusedExactly` | library/meids_global.c:1533-1548 | Where the cast is defined a value is refused exactly from dMin - 1.5 steps downwards and from dMax + 0.5 steps upwards |
| `Adc.DigitalIsMonotone` | library/meids_global.c:1533-1548 | A greater value never gives a smaller integer |
| `Adc.DigitalToPhysical` | library/meids_global.c:1558-1760 | The voltage, and what each kind of module makes of it, thermocouples included; INVALID_MIN_MAX survives only if maximum and data are both 0 |
| `Adc.DigitalRoundTrip` | library/meids_global.c:1533-1595 | Every integer from 0 to iMaxData comes back |
| `Adc.PhysicalRoundTrip` | library/meids_global.c:1533-1595 | Every value in [dMin, dMax] comes back within half a step |
| `Adc.GainRoundTrip` | library/meids_global.c:1608-1631 | A module with a gain is the plain module with multiplied limits, and its values go back to the same integers |
| `Adc.TemperatureIsMonotone` | library/meids_global.c:1633-1650 | The temperature rises with the integer for every table |
| `Adc.VoltageInNumbers` | library/meids_global.c:1592-1598 | The voltage lies on the line through (0, dMin) and (iMaxData, dMax) |
| `Adc.ResistanceInNumbers` | library/meids_global.c:1600-1654 | voltage = resistance * factor * current for PT100 (40), PT500 (8) and PT1000 (4); without a current 0.0005 |
| `Adc.GainsInNumbers` | library/meids_global.c:1608-1631 | The gains 1, 1, 2 and 5, and 2 milliamperes for a volt |
| `Adc.LimitsInNumbers` | library/meids_global.c:1533-1548 | Values up to dMin give 0 and values from dMax on give iMaxData, where the cast is defined |
| `Pt100.CalcTemp` | library/meids_global.c:1855-1901 | The loop computes the inverse described by the first entry that is not below the resistance; no division by zero for any table |
| `Pt100.TempStaysInRange` | library/meids_global.c:1855-1901 | The result is between OFFSET and OFFSET + N - 1, for any table |
| `Pt100.TempIsMonotone` | library/meids_global.c:1868-1890 | A greater resistance never gives a lower temperature, for any table |
| `Pt100.TempOfCurve` | library/meids_global.c:1868-1895 | A temperature comes back from the resistance on the curve exactly if all entries before it are smaller than this resistance |
| `Pt100.TempInvertsCurve` | library/meids_global.c:1868-1895 | On an increasing table the function inverts the piecewise linear curve at every real temperature |
| `Pt100.DipIsLost` | common/pt_100.h:175-176 | Where the table falls no temperature of the falling segment comes back |
| `Pt100.CurveOfTemp` | library/meids_global.c:1868-1895 | The curve at the temperature of a resistance is the resistance, exactly if it is not below the first entry nor above all entries; for any table |
| `Pt100.TempInNumbers` | library/meids_global.c:1855-1901 | -200 degrees up to the first entry, one degree for every further entry, a line between two entries, and the last degree above all of them |
| `Thermocouple.CalcTcTemp` | library/meids_global.c:1903-1950 | The loop computes the temperature described by the first entry that is not below the voltage; outside the table the result is the nearest entry, a voltage |
| `Thermocouple.InterpolatesExactly` | library/meids_global.c:1928-1943 | Between two entries the result is the linear interpolation exactly if the step behind them has the height of their own one |
| `Thermocouple.EntryTemp` | library/meids_global.c:1928-1943 | An entry inside the table has its own temperature exactly if all entries before it are smaller, or the table falls to it in line |
| `Thermocouple.TempInNumbers` | library/meids_global.c:1903-1950 | The voltage over the gain in microvolts, and the temperature as an equation with the step behind the upper entry |
| `LockAll.LockAll` | library/meids_local.c:502-557 | Checking pass, locking pass and releases, with other processes acting before every call; a failed SET returns the code of the last release |
| `LockAll.CallOwners` | module/driver/memain_common.c:827-929 | A call, and what happens before it, changes ownership of its own driver only: an accepted SET takes it, an accepted RELEASE gives it up, neither without force against another of our contexts, a CHECK and a refused call change nothing |
| `LockAll.AllOrNone` | library/meids_local.c:502-557 | After a SET without refusal every context has its driver, unless it was forced and two contexts share one; after a refusal exactly those contexts hold a lock whose release was refused too |
| `LockAll.SurvivesReleases` | library/meids_local.c:541-552 | After a refused SET, forced or not, a context holds its driver exactly if it held it before the releases and the driver was in use |
| `LockAll.AllOrNoneExactly` | library/meids_local.c:502-557 | A SET that is not forced is all or none exactly if, before the call, no context or every context held a driver in use; for any behaviour of other processes |
| `LockAll.Survivors` | library/meids_local.c:541-552 | After a refused SET a context holds its driver exactly if it held it before the call and the driver was in use (operations under way, or locks below it that exclude the context) |
| `LockAll.PartlyLocked` | library/meids_local.c:541-552 | Neither all nor none: we hold the first driver, in use, and somebody else the second |
| `LockAll.AllOrNoneUndisturbed` | library/meids_local.c:502-557 | If no context holds a driver in use before the call, a SET that is not forced is all or none |
| `LockAll.RollbackReleases` | library/meids_local.c:541-552 | A context still holds its lock after the releases exactly if its own release was refused |
| `LockAll.RefusedReturnsSuccess` | library/meids_local.c:541-556 | A refused SET returns SUCCESS exactly if, before the call, the driver of the last context was idle and held by nobody or by a context of the list that can release it; whatever happens to the other drivers |
| `LockAll.AcceptedExactly` | library/meids_local.c:510-539 | If nobody acts meanwhile, a SET is accepted exactly if every context can lock its driver and no two share one |
| `LockAll.SuccessMeansLocked` | library/meids_local.c:502-557 | If nobody acts meanwhile, SUCCESS means that all drivers are locked exactly if this was possible or the driver of the last context was not going to be free |
| `LockAll.SuccessWithoutLock` | library/meids_local.c:550-550 | An instance: the first driver is in use, the second free, SET returns SUCCESS and nothing is locked |
| `LockAll.ForcedAcceptedExactly` | library/meids_local.c:510-539 | If nobody acts meanwhile, a forced SET is accepted exactly if no driver of the list has operations under way |
| `LockAll.ForcedSurvivors` | library/meids_local.c:510-552 | After a refused forced SET exactly those contexts hold their driver that were the last to take it before the refusal, or held it and nobody took it, and whose driver is in use; also if contexts share drivers |
| `LockAll.ForcedSurvivorsApart` | library/meids_local.c:510-552 | If no two contexts share a driver: those whose driver is in use and that held it before the call or come before every driver with operations under way |
| `LockAll.ForcedAllOrNoneExactly` | library/meids_local.c:502-557 | A forced SET is all or none exactly if it is accepted and no two contexts share a driver, or it is refused and these contexts are none or all |
| `LockAll.ForcedReturnsSuccess` | library/meids_local.c:541-556 | A refused forced SET returns SUCCESS exactly if the driver of the last context, with the owner the pass has left it, is idle and free or going to be freed; this is its state before the call if no two contexts share a driver |
| `LockAll.ForcedSuccessMeansLocked` | library/meids_local.c:502-557 | SUCCESS of a forced SET means that all drivers are locked exactly in the cases named |
| `LockAll.ForcedPartlyLocked` | library/meids_local.c:510-552 | Neither all nor none although we held nothing: the first driver is taken in spite of a lock below it, the second one is in use |
| `LockAll.ForcedMeanwhile` | library/meids_local.c:510-552 | Whatever other processes do, if no two contexts share a driver: a forced SET is accepted exactly if no driver has operations under way at its turn, and if refused it leaves their drivers to those contexts whose driver is in use at its turn and that held it before or had their turn before the refusal |
| `LockAll.ForcedAllOrNoneMeanwhile` | library/meids_local.c:502-557 | So it is all or none exactly if it is accepted, or these contexts are none or all |
| `LockAll.ForcedReturnsSuccessMeanwhile` | library/meids_local.c:541-556 | And when refused it returns SUCCESS exactly if, before the call, the driver of the last context was free or going to be freed; nobody may act on that driver |
| `LockAll.CheckChangesNoLock` | library/meids_local.c:510-527 | Checking locks and unlocks nothing |
| `LockReleases.ReleaseResult` | library/meids_local.c:502-557 | A RELEASE when nobody acts meanwhile: without force it is refused with LOCKED, changing nothing, if somebody else than its context has locked a driver or anything below it; else it goes up to the first driver with operations under way (USED), the drivers before it are free and all others unchanged. The same for a forced one without the check |
| `LockReleases.ReleasedDevices` | module/driver/memain_common.c:890-908 | Below the released drivers, without flags: devices without operations under way are unlocked, and their subdevices up to the first one in use |
| `LockReleases.ReleaseLeavesNone` | library/meids_local.c:502-557 | Whatever happens meanwhile: after an accepted RELEASE none of our contexts holds a driver of the list |
| `LockReleases.CheckResult` | library/meids_local.c:502-557 | A CHECK, or any code that is none of the three, changes nothing; LOCKED exactly if somebody else than the context has locked a driver or, without force, anything below it; other codes are never accepted |
| `LockReleases.NothingOpen` | library/meids_local.c:507-508 | Without a context: NOT_OPEN, and nothing changes |
| `LockReleases.SetKeepsRest` | library/meids_local.c:502-557 | A SET, accepted or not, changes owners of drivers on the list and nothing else |
| `LockReleases.SetTerms` | module/driver/memain_common.c:833-885 | What the SET results mean by a driver that can be locked, and by one that is held and in use |
| `AddressList.CreateInit` | library/meids_init.c:39-148 | The list built at a place through tail pointers is the flattened include tree with the first occurrence of each address; nothing leaks; a place that is not empty is refused |
| `AddressList.CleanInit` | library/meids_init.c:173-218 | The list from a place on is replaced by its first occurrences, and the old cells are freed |
| `AddressList.DestroyInit` | library/meids_init.c:150-171 | Frees the list from a place on, once, and leaves NULL |
| `AddressList.SearchInit` | library/meids_init.c:220-245 | The recursion computes Search |
| `AddressFile.SearchIsFirst` | library/meids_init.c:220-245 | Search is the place of the first match counted from 1, and 0 exactly if the address is empty or not listed |
| `AddressFile.NestedCleaning` | library/meids_init.c:101-108 | Cleaning up at every level of inclusion changes neither the kept addresses nor their flags |
| `AddressFile.CollectedIsFlattened` | library/meids_init.c:69-145 | The result is the de-duplicated flattened tree |
| `AddressFile.UnseenIsFirst` | library/meids_init.c:173-218 | Every kept entry is the first one with its address, flag included |
| `AddressFile.UnseenInOrder` | library/meids_init.c:173-218 | No address is kept twice and the first occurrences stay in order |
| `AddressFile.ResultOfFile` | library/meids_init.c:69-145 | An address is found in the result exactly if it is in the flattened tree, with the entry of its first occurrence there |
| `AddressFile.SectionOfFile` | library/meids_init.c:77-124 | A section of any file: the lines after local:, pci: and usb: carry 0x03, 0x01 and 0x02, the lines after detect: stand for the files they name, started without flags, and lines before the first head carry 0x00 |
| `AddressFile.CommentsAreSkipped` | library/meids_init.c:77-77 | Empty lines and comments change nothing, wherever they are |
| `AddressList.ListInMemory` | library/meids_init.c:39-148 | In memory the list leads from its head through every entry, with its address and flag, to NULL |

## Left out

- ThreadList.ThreadEnd: a cancelled thread looks at its old address after a late callback; if there is a record again, its field is read, and otherwise the value is a parameter that is not 1. It is 2 unless the memory was used for something other than a record.
- ThreadList.ThreadBegin: a thread that was cancelled before it began reads the address of its context from its freed record; what it finds there is not modelled.
- LockAll.AllOrNone: other processes that force a lock away from us. A forced SET with contexts that share a driver is decided for the case that nobody acts meanwhile.
- RangeChoice.Calculate: the float constant 0.0001f is taken as the decimal number.
- Thermocouple.CalcTcTemp: the tables and constants of the eight types are parameters.
- AddressList.CreateInit: reading the file; a file is the sequence of its commands, with what each would open as a file. The copy of an address is part of its list cell.
- Triggers.ToUniversal: the argument lists of scan and conversion start, which neither direction touches.
- Floating-point rounding, failing allocations, logging and execution times.
- Pointers below the device count that are NULL, which the copying and cleaning functions would pass over.
- ConfigDenumerate, ConfigMaxNumber, ConfigPrint, ShortcutClean: each is one easy loop.
- ME_Open without an address, ME_Close, ContextClean and the counter of meOpen and meClose: tear-down and plumbing.
- RPC, sockets, virtual devices and ConfigRead_Local: input and output. The ioctl wrappers only fill a struct.
