# Disque in Dafny

A model of the parts of Disque whose correctness is hardest to see from the code, with
machine-checked proofs of what they promise. Disque is a distributed job queue written
in C: nodes replicate jobs to each other over a network that loses, duplicates and
reorders messages, hand them to consumers, and garbage collect them once acknowledged;
every node keeps its jobs in hash tables and logs them to an append only file (AOF).

`dafny verify dfyconfig.toml` checks the whole project.

| files | what they model | main results |
|---|---|---|
| `Words`, `DictSpec`, `DictMap`, `DictLoad`, `Dict` | the incrementally rehashed hash table | every sequence of operations behaves as a finite map; a rehash ends within as many operations as the old table has buckets; never more entries than buckets |
| `ScanCursor`, `DictScan`, `DictScanRuns`, `DictShrink` | `dictScan` and its reverse binary cursor | a full scan emits every element that stays, with the exact condition on calls made mid-rehash; exactly which scans survive a shrink |
| `DictIter` | safe iteration | every entry present at the start is returned exactly once |
| `Lzf` | the LZF codec | round trip for any hash table contents and capacity; how much room is enough and when 104% is; a repeated byte takes 3 bytes for every 264 |
| `JobSpec`, `JobSteps`, `JobCopy`, `Protocol`, `JobTable`, `Server` | replication, acknowledges and garbage collection | safety over every run of the cluster; a node whose log always replays to its live jobs |
| `Rounds`, `Timing`, `Delivery`, `Election` | what the exchanges and the timer achieve | collection and replication complete exactly when the answers arrive; when a job is in its queue and when it is not; at most once and at least once delivery; one node keeps a queued job |
| `JobLog`, `JobLines`, `AofRewrite`, `AofReplay`, `AofLoad`, `AofEnd`, `AofCheck` | the AOF, its background rewrite, its loader and its checker | in every run with many jobs the log, and the rewritten file from its bytes on, replay to the live jobs; a log cut short loses only the last command; for every file how loading ends, and where the checker cuts it |
| `Decimal`, `Resp`, `RespErrors`, `JobCodec`, `Layout`, `ReplyBuffer` | wire formats and reply buffers | parsers invert printers, however the bytes are cut; exactly what is refused, and why; replies leave in order |
| `FailDetect` | failure detection | every FAIL flag has a quorum as its own cause; exactly what every event does to the flags |

Code that updates things in place is modelled by classes, arrays and loops (`Dict.Dict`,
`DictIter.Iterator`, `Server.Server`, `AofRewrite.Aof`, `Resp.Connection`,
`ReplyBuffer.Output`, `FailDetect.Node`, and the methods of `Lzf`, `AofLoad`, `AofEnd`, `AofCheck`,
`JobCodec`),
each proved equal to a function of its inputs or old state; the theorems are about those
functions. Clocks, random choices, what the network delivers, how much a `read` or
`write` takes, memory pressure and paused queues are parameters, so every theorem holds
for all of them.

Where the code and what is written about it disagree, the model follows the code:

- The comment on `dictScan` promises that every element present throughout a scan is
  returned. That is false when the table is being shrunk by more than half:
  `DictScan.SafetyIsExact` says exactly which cursors are safe: the bits the two masks
  differ in must be a run of ones from the low end. For every other cursor and every two
  sizes, `DictShrink.ShrinkScanMisses` gives a table and a whole scan of it, from cursor 0
  back to 0, that never emits an element present all the time. A cursor with none of these
  bits, and any cursor with tables a factor of two apart, are safe as special cases;
  without a shrink all calls are safe (`DictScanRuns.GrowingScanCovers`).
- `lzf.h` promises a result of less than 104% of the input. The bound that holds is one
  byte more for every 32 or part of them, and input without a repetition takes that much.
  So the promise holds of all inputs of a length if and only if
  `25 * ceil(length / 32) < length` (`Lzf.Compress`, `Lzf.WorstInput`).
- The comment on `addjobCommand` promises that under memory pressure a job, which its own
  node then keeps no copy of, is queued by a random other node. That node does so if and
  only if the job has a retry time: a job with RETRY 0 is answered for and replicated,
  but in no queue then or after any turns of the timer (`Timing.ElsewhereQueued`).
- `disque-check-aof` calls a file valid that the server refuses to load: the checker takes a
  command with no arguments (`AofCheck.EmptyCommand`). What the checker leaves of a file
  loads to its end if and only if no command in it is without arguments
  (`AofCheck.CheckedLoads`).

## Model

| member | source | states |
|---|---|---|
| `Words.Rev` | src/dict.c:755-763 | the halving swap loop reverses the 64 bits of a word |
| `Words.SourceClosed` | src/dict.c:755-763 | where every bit comes from after the swaps with block size s, in closed form |
| `Words.IncVal` | src/dict.c:912-915 | the increment by carry is plus one, and wraps from all ones to zero |
| `ScanCursor.ReverseIncReversed` | src/dict.c:908-915 | reverse, increment, reverse is an increment that carries from the highest bit down |
| `ScanCursor.BeforeIsReversedLess` | src/dict.c:765-848 | scan order is numerical order of the reversed words |
| `ScanCursor.ReverseIncSuccessor` | src/dict.c:908-915 | the new cursor is the successor in scan order: before it lies what lay before the old one and the old one itself; it wraps exactly from all ones |
| `ScanCursor.NextCursorShape` | src/dict.c:908-915 | setting the unmasked bits makes the increment act on the masked ones only, and leaves zeros above |
| `ScanCursor.Advance` | src/dict.c:849-918 | what the cursor has moved past lay before it already or is in the bucket of this call |
| `ScanCursor.CursorForward` | src/dict.c:849-918 | the cursor only moves forward in scan order, until it is zero again |
| `ScanCursor.LooksExactly` | src/dict.c:891-905 | which buckets of the larger table the do-while loop visits: those with the low bits of the cursor that are not numerically below it |
| `ScanCursor.SkipCondition` | src/dict.c:891-905 | the loop over the larger table skips no bucket still to be visited if and only if the cursor bits between the two masks are ones from the low end |
| `DictSpec.NextPowerIsPow2` | src/dict.c:945-955 | from a power of two on, the size chosen is a power of two |
| `DictSpec.NextPowerLeast` | src/dict.c:945-955 | a size that was doubled to reach the one asked for is less than twice that: half of it is too small |
| `DictSpec.WithoutValue` | src/dict.c:409-444 | unlinking an entry from a chain removes its key and no other |
| `DictSpec.PushLookup` | src/dict.c:346-369 | linking an entry makes its key found with its value and changes no other key |
| `DictMap.ExpandKeeps` | src/dict.c:204-234 | expanding keeps validity, every key's value and the size |
| `DictMap.ExpandIfNeededWorks` | src/dict.c:923-942 | after the growth check there is a table to insert into |
| `DictMap.MoveBucketKeeps` | src/dict.c:259-274 | moving a bucket between the tables changes no key's value, keeps counts exact and keys in one table only |
| `DictMap.RehashKeeps` | src/dict.c:245-288 | n rounds of rehashing keep the map, and the result says whether any rehashing is left |
| `DictMap.RehashAdvances` | src/dict.c:245-288 | n steps of rehashing go past at least n buckets of the old table, or end with it |
| `DictMap.AddIsMapAdd` | src/dict.c:322-369 | adding succeeds exactly for a new key and is then the map update |
| `DictMap.FindIsMapFind` | src/dict.c:489-508 | finding, with the rehash step it takes, is map lookup and leaves the map alone |
| `DictMap.ReplaceIsMapUpdate` | src/dict.c:375-394 | replacing always ends in the map update and tells whether the key was new |
| `DictMap.DeleteIsMapRemove` | src/dict.c:409-444 | deleting succeeds exactly for a present key and removes only it |
| `DictMap.StepRefines` | src/dict.c:192-508 | every operation, in every valid state, refines its map operation, result included |
| `DictMap.RunRefines` | src/dict.c:192-508 | for any hash function, every sequence of add, replace, delete, find, expand, resize and rehash gives the results of a finite map and ends representing it |
| `DictLoad.ExpandExact` | src/dict.c:204-234 | dictExpand makes a table exactly if none is being filled, the entries fit and the size changes; its size is the least power of two from 4 on that reaches the one asked for |
| `DictLoad.ResizeExact` | src/dict.c:192-201 | dictResize makes a table of the least such size for the entries there are, or for 4, exactly when resizing is on, no rehash is going on and the size changes |
| `DictLoad.GrowsWhenFull` | src/dict.c:923-942 | an insertion starts a rehash into a table of at least twice the entries if and only if there are as many entries as buckets and resizing is on, or six times as many |
| `DictLoad.LoadFactor` | src/dict.c:245-444 | in every run of add, replace, delete, find and rehash the table that is filled has at least as many buckets as the dictionary has entries when resizing is on, and a sixth of that when it may be off; while a rehash goes on the entries always fit the new table one to a bucket |
| `DictLoad.MoveEnds` | src/dict.c:245-311 | in every run of add, delete and find the new table takes the place of the old one within as many operations as the old one has buckets left |
| `Dict.Dict.constructor` | src/dict.c:168-188 | a new dictionary is valid and empty |
| `Dict.Dict.NextPowerOf` | src/dict.c:945-955 | the loop computes the size function |
| `Dict.Dict.Expand` | src/dict.c:204-234 | refused while rehashing, when too small or for the same size; otherwise installs the first table or starts a rehash; contents unchanged |
| `Dict.Dict.Resize` | src/dict.c:192-201 | refused when not allowed or rehashing; otherwise expands to the least sufficient size; contents unchanged |
| `Dict.Dict.SkipEmptyBuckets` | src/dict.c:254-258 | steps over empty buckets within the budget of visits |
| `Dict.Dict.MoveThisBucket` | src/dict.c:259-274 | relinks a whole chain, entry by entry, into the new table |
| `Dict.Dict.Rehash` | src/dict.c:245-288 | the in-place loops compute the specified state; contents unchanged |
| `Dict.Dict.KeyIndex` | src/dict.c:963-985 | -1 for a present key, otherwise the bucket in the table being filled |
| `Dict.Dict.Add` | src/dict.c:322-369 | contents become the map update exactly when the key was new |
| `Dict.Dict.Find` | src/dict.c:489-508 | returns what the contents map holds; contents unchanged |
| `Dict.Dict.Replace` | src/dict.c:375-394 | contents become the map update; true exactly for a new key |
| `Dict.Dict.Unlink` | src/dict.c:417-443 | removes the entry from the table it is in and counts it |
| `Dict.Dict.Delete` | src/dict.c:409-444 | contents lose exactly the key; true exactly when it was there |
| `Dict.Dict.ScanLarge` | src/dict.c:891-905 | the do-while loop emits the buckets of the specification |
| `Dict.Dict.Scan` | src/dict.c:849-918 | the entries handed to the callback and the cursor returned are those of the specification |
| `DictScan.RehashingEmits` | src/dict.c:871-906 | exactly which keys a call made mid-rehash emits |
| `DictScan.ScanCovers` | src/dict.c:849-918 | a safe call emits every present element it moves the cursor past |
| `DictScan.SafetyIsExact` | src/dict.c:891-905 | for tables of any two sizes, a cursor is safe for every dictionary content if and only if its bits between the masks are ones from the low end |
| `DictScan.FullScanCovers` | src/dict.c:765-918 | over any interleaving of calls and operations, a scan from 0 to 0 whose mid-rehash calls are safe emits every element present all the time |
| `DictScanRuns.GrowingScanCovers` | src/dict.c:765-918 | without a shrink the same holds with no condition on the calls |
| `DictScanRuns.SteadyScanExact` | src/dict.c:849-918 | over a dictionary that is not resized, a scan is back at 0 after exactly as many calls as there are buckets, and has then emitted every key present throughout exactly once, whatever else is added and deleted between the calls |
| `DictShrink.CursorReached` | src/dict.c:849-918 | every cursor with no bit above the mask is one a scan has, after as many calls as its reversed value says |
| `DictShrink.ShrinkScanEnds` | src/dict.c:871-917 | a table with one element is scanned up to any cursor, then shrunk to any smaller size and scanned on: it holds the element before and after, and the scan returns to 0 |
| `DictShrink.ShrinkScanMisses` | src/dict.c:871-917 | for every cursor and two sizes that fail the bit test there is an element that such a scan never emits |
| `DictShrink.ShrinkIsExact` | src/dict.c:871-917 | for every cursor a scan can have and every two sizes from 4, the smallest, on, such a scan emits whatever element the table holds if and only if the bits of the cursor between the two masks are ones from the low end |
| `DictIter.NextTakes` | src/dict.c:575-608 | dictNext takes exactly the entry it returns from what is ahead, and returns none only when nothing is ahead |
| `DictIter.PushAhead` | src/dict.c:346-369 | adding a key moves no other key past the iterator |
| `DictIter.DeleteAhead` | src/dict.c:409-444 | deleting an entry other than the saved next one takes only it from what is ahead |
| `DictIter.GrowAhead` | src/dict.c:923-942 | a table that starts growing under a safe iterator changes nothing of what is ahead |
| `DictIter.StepAhead` | src/dict.c:555-619 | what any event of a safe iteration does to what is ahead |
| `DictIter.IterationExact` | src/dict.c:555-619 | a finished safe iteration, with deletions of the entry just returned and any additions, started at any point of a rehash, returns every key present at the start exactly once and no other, except for keys added while they are not there |
| `DictIter.Iterator.constructor` | src/dict.c:555-573 | a new iterator stands before everything |
| `DictIter.Iterator.NextBucket` | src/dict.c:578-596 | moves to the next bucket, in the second table after the first during a rehash |
| `DictIter.Iterator.NextEntry` | src/dict.c:575-608 | computes the specified successor and keeps the iterator and the dictionary consistent |
| `Lzf.Decode` | src/lzf_d.c:55-149 | decoding is a function of the input and the capacity alone; a success has written something and fits |
| `Lzf.CopyBack` | src/lzf_d.c:119-143 | the overlapping byte-by-byte copy appends the periodic extension of the output |
| `Lzf.DecompressStep` | src/lzf_d.c:64-146 | one round follows the specification, with its three error cases |
| `Lzf.Decompress` | src/lzf_d.c:55-149 | the bytes written, the length and the error are those of the specification, for every input |
| `Lzf.DecodeExact` | src/lzf_d.c:55-149 | for every input and room: what the input stands for is decoded exactly if there is room for it and is TooBig if not, in whatever room; an input that stands for nothing is Invalid given room, and never decoded |
| `Lzf.CopyMatches` | src/lzf_d.c:133-143 | a back reference to where the input repeats extends the decoded prefix of the input |
| `Lzf.RunExtends` | src/lzf_c.c:262-273 | a literal run, after any encoding, is decoded to its bytes whatever follows |
| `Lzf.ReferenceExtends` | src/lzf_c.c:211-225 | a back reference, after any encoding, is decoded to the copy whatever follows |
| `Lzf.EncodesDecodes` | src/lzf_d.c:55-149 | an encoding decodes to what it encodes in any room that holds it |
| `Lzf.CloseRun` | src/lzf_c.c:173-174 | patching the header of the run in progress, or dropping it when empty, gives an encoding of the input read so far |
| `Lzf.MatchUnrolled` | src/lzf_c.c:179-202 | the unrolled comparisons stop at the first difference or match all |
| `Lzf.MatchLength` | src/lzf_c.c:168-209 | the two ranges are equal, within the limits, and the match is as long as it may be |
| `Lzf.Enter` | src/lzf_c.c:147-149 | returns what the slot of the position held and puts the position there |
| `Lzf.AddLiteral` | src/lzf_c.c:262-273 | a literal extends the run and closes a full one; at most 33 bytes are written for 32 |
| `Lzf.AddReference` | src/lzf_c.c:167-227 | fails exactly for lack of room; otherwise the reference stands for the match and is no longer than it |
| `Lzf.CompressRound` | src/lzf_c.c:145-274 | one round keeps the encoding and moves on; where three bytes repeat within reach it takes the reference, with the longest match allowed, and otherwise one literal; it says exactly what it writes, where it goes on, and what the hash table then holds, and succeeds when there is room for any input of this length |
| `Lzf.CompressTail` | src/lzf_c.c:276-291 | the last bytes fit the three kept free for them |
| `Lzf.Compress` | src/lzf_c.c:98-294 | with any hash table contents: a result fits the capacity, encodes the input and takes at most one byte more for every 32 or part of them, exactly that without a repetition; less than 104% whenever 25 * ceil(length / 32) is below the length; capacity for the most and 4 bytes always succeeds; one byte repeated takes at most 3 bytes for every 264 and 9 more, succeeds with that much room, and from length 13 on is shorter than the input even with one byte less room than it |
| `Lzf.RepeatingNext` | src/lzf_c.c:145-227 | in one byte repeated, every round after the first few takes a reference of 264 bytes, whatever the hash table held |
| `Lzf.WorstInput` | src/lzf.h:54-60 | for every length an input whose result is less than 104% of it if and only if 25 * ceil(length / 32) is below the length, that is above 100 and at 26 to 32, 51 to 64 and 76 to 96 |
| `Lzf.RoundTrip` | src/lzf.h:51-72 | compressing and decompressing gives the input back for every input, capacity, hash table and sufficient buffer |
| `JobCopy.TryGCKeeps` | src/ack.c:69-122 | a listed copy is collected here only when all other listed nodes have acknowledged |
| `JobCopy.GotAckKeeps` | src/ack.c:126-198 | the same for the collection that a GOTACK ends; confirmations stay within the listed nodes |
| `JobCopy.ReceiversExact` | src/cluster.c:1835-1846 | as many new receivers as asked for, or all candidates |
| `JobCopy.AchievedKeeps` | src/job.c:1044-1086 | answering the client keeps the invariant, and removes only a copy that is not listed |
| `JobCopy.SetAckKeeps` | src/cluster.c:1336-1383 | SETACK keeps the invariant, also before the replication is complete |
| `JobCopy.HandleKeeps` | src/cluster.c:1279-1480 | every job message keeps the invariant of the copy, its log included, and none but REPLJOB makes a live copy out of none or an acknowledged one |
| `JobCopy.ActKeeps` | src/job.c:462-535 | so does every timer and client command |
| `JobSteps.HandleSends` | src/cluster.c:1279-1480 | which kinds of packets a message may cause: GOTACK only without a live copy, SETACK only when acknowledged, GOTJOB only with a copy |
| `JobSteps.ActSends` | src/job.c:462-535 | the same for timers and commands |
| `Protocol.StepInv` | src/cluster.c:1279-1480 | every step of every node keeps the invariant of the cluster |
| `Protocol.ReachableInv` | src/cluster.c:1279-1480 | the invariant holds after every run with loss, duplication and reordering |
| `Protocol.ConfirmationsAreAcks` | src/ack.c:69-122 | in every run a listed acknowledged copy has confirmed within delivered, counts only nodes that sent it a GOTACK, and its size test is set equality |
| `Protocol.CollectsWhenAllAcked` | src/ack.c:69-198 | garbage collection removes such a copy only after every other delivered node has sent it a GOTACK |
| `Protocol.AckedUntilRemoved` | src/ack.c:40-54 | in every run a copy once acknowledged stays acknowledged until it is removed |
| `Protocol.EndedAreDelJobs` | src/ack.c:185-197 | the step that ends the collection of a listed copy sends a DELJOB to every node it then lists and to no other, and these are the pairs that are remembered as ended |
| `Protocol.EndDeletesAcked` | src/ack.c:185-197 | none of the DELJOBs that end a collection reaches a copy that is not acknowledged, on nodes that handled no REPLJOB after their first GOTACK |
| `Protocol.AnswerMeansReplicated` | src/job.c:1044-1086 | a blocked ADDJOB client gets its ID only when as many different nodes as asked for had the job, the origin counted only if it keeps a copy, or a SETACK of a node that held it acknowledged arrived |
| `Protocol.LogFollowsCopy` | src/job.c:924-1000 | in every run, replaying a node's log leaves the job exactly when its copy is active or queued and not expired, with its expire time |
| `JobTable.CtxTable` | src/job.c:268-319 | a step about one job that appends only lines about it and keeps its invariant keeps the whole table: replay of the one log equals the live jobs |
| `JobTable.MessageKeeps` | src/cluster.c:1279-1480 | every job message keeps the whole table |
| `JobTable.MessageCollects` | src/ack.c:126-198 | a message that collects a listed copy comes after the GOTACKs of all other nodes that may have the job |
| `JobTable.MessageAnswers` | src/cluster.c:1327-1383 | a message that answers a client is a SETACK or the last of as many confirmations from different nodes as asked for |
| `JobTable.ActionKeeps` | src/job.c:462-535 | every timer and command keeps the whole table |
| `Server.Server.constructor` | src/job.c:268-274 | an empty, valid node |
| `Server.Server.BroadcastMessage` | src/cluster.c:1919-1938 | the loop sends to every node of the set but this one |
| `Server.Server.ChooseReceivers` | src/cluster.c:1835-1846 | the loop over the reachable nodes computes the set of receivers |
| `Server.Server.ProcessPacket` | src/cluster.c:1279-1480 | every job message keeps the node valid: the log replays to exactly the active and queued unexpired jobs, and counted confirmations are those received; a listed copy is collected only after the GOTACKs of all other nodes that may have it; a client is answered only by a SETACK or with as many holders as asked for; an acknowledged copy stays so or goes; other jobs untouched |
| `Server.Server.ProcessJob` | src/job.c:462-535 | the node stays valid; an expired job goes, and another listed one only when all other nodes that may have it have acknowledged; other jobs untouched |
| `Server.Server.AckJobCommand` | src/ack.c:218-252 | the node stays valid; a job that stays is acknowledged, a listed one goes only when all other nodes have acknowledged; tells whether it was known and not acknowledged |
| `Server.Server.UnblockClient` | src/job.c:1007-1019 | the node stays valid and nobody waits for the job any more: it is gone if it was still waiting, else unchanged in state |
| `Server.Server.AddJobCommand` | src/job.c:1231-1374 | the node stays valid; a new job kept here is logged exactly if its client need not wait, and is then in its queue if and only if it has no delay, and otherwise due when the delay is over; with more copies to wait for it waits; other jobs untouched |
| `Server.Server.MoreReceivers` | src/job.c:1098-1113 | one more receiver for a waiting job, unless all candidates are; every node listed is sent the job with what is left of its life and a second more; the node stays valid |
| `Server.Server.FastAckCommand` | src/ack.c:270-291 | the job is gone here and DELJOB sent to every other node that may have it, or to every node when the job is not known; the node stays valid |
| `Server.Server.DeleteJobCommand` | src/job.c:1480-1494 | the job is gone; the node stays valid |
| `Server.Server.FetchJob` | src/queue.c:217-226 | a queued job leaves its queue, and the caller is told whether it was there; the node stays valid |
| `Server.Server.EnqueueCommand` | src/queue.c:854-868 | the job is queued if and only if it has a time to be queued at and is not a delivered at most once job; log and expire time unchanged; the node stays valid |
| `Server.Server.DequeueCommand` | src/queue.c:887-901 | the job is in no queue; the node stays valid |
| `Server.TooLateAt` | src/queue.c:1103-1108 | the job may no longer be put off exactly when more than half of its life is over |
| `Server.Server.WorkingOn` | src/queue.c:1093-1123 | an unknown job and one with more than half of its life over are refused, and nothing changes; otherwise the job is in no queue and its next time is put off by its retry time; the node stays valid |
| `Rounds.AsksMissing` | src/ack.c:69-122 | tryJobGC sends SETACK to exactly the listed nodes not confirmed, and is done exactly when there are none |
| `Rounds.SetAckAnswered` | src/cluster.c:1336-1383 | a node asked with SETACK has no live copy afterwards, and sends a GOTACK unless it knows more holders than the sender |
| `Rounds.AcksExact` | src/ack.c:126-198 | a collection ends exactly when every missing node's GOTACK has arrived, in any order and with repetition, and then tells every listed node to delete the job |
| `Rounds.CollectedEverywhere` | src/ack.c:69-198 | after a round of SETACK, GOTACK and DELJOB no listed node has the job |
| `Rounds.AckJobAsks` | src/ack.c:218-252 | ACKJOB of a job here acknowledges it and asks every other listed node; with no other node the job is gone |
| `Rounds.TimerAsks` | src/job.c:527-534 | every turn of the timer asks the nodes still missing again |
| `Rounds.SetAckTakesOver` | src/cluster.c:1336-1383 | a node that knows of more holders than the one that asks it asks them all itself |
| `Rounds.AckedEverywhere` | src/ack.c:69-252 | from the ACKJOB of a client on, when the messages arrive in any order and any number of times, no node that may have had the job has it |
| `Rounds.GotJobsExact` | src/cluster.c:1327-1335 | the waiting client is answered, once, exactly when enough different nodes have sent GOTJOB |
| `Rounds.ReplJobAccepted` | src/cluster.c:1279-1320 | a REPLJOB is refused, or leaves a copy with exactly the numbers of the message, live and logged when it is new, or with more nodes listed, and is confirmed unless told not to |
| `Rounds.AddJobSent` | src/job.c:1231-1374 | ADDJOB chooses as many receivers as asked for, or all candidates, and sends each the numbers of the job, to live one second longer there |
| `Rounds.AddJobWaits` | src/job.c:1231-1374 | a synchronous ADDJOB sends the job, its numbers included, to as many nodes as asked for, or all candidates, and waits unlogged, in no queue, due when its delay or retry time is over |
| `Rounds.AddJobAtOnce` | src/job.c:1329-1355 | with one copy or ASYNC the client is answered and the job logged at once; it is in its queue if and only if it has no delay, and otherwise active and due when the delay is over |
| `Rounds.AddJobAnswered` | src/job.c:1044-1086 | and is answered exactly when enough other nodes confirm; the job is then live and logged, and in its queue if and only if it has no delay |
| `Rounds.ReplicatedEverywhere` | src/cluster.c:1279-1335 | after a round of REPLJOB and GOTJOB, in any order and with repetition, every receiver has a live, logged copy that lists all of them, with the replication, delay and retry time of the job, and expires at its own clock a second later than asked for; and the client is answered |
| `Rounds.MoreReceiversSent` | src/job.c:1098-1113 | one more receiver for a waiting job, and every listed node is sent it with what is left of its life |
| `Timing.EarlyTurns` | src/job.c:462-534 | before it is due a copy stays where it is through any number of turns of the timer, and half a second ahead every other listed node is told once |
| `Timing.DueTurn` | src/job.c:488-525 | with the first turn at which it is due a copy is in its queue if and only if its queue is not paused, or it may be delivered once and was not |
| `Timing.QueuedTurn` | src/job.c:515-525 | a queued job that is due again stays queued, a retry time longer |
| `Timing.ExpiredTurn` | src/job.c:462-478 | an expired job is gone with the next turn, logged so if it was live, and its waiting client and receivers are told |
| `Timing.QueuedIsTold` | src/queue.c:148-193 | a job put in its queue is told to every other listed node, unless it is queued for the first time; from then on always |
| `Timing.DelayedJob` | src/job.c:1231-1374 | a job added with a delay is in no queue at any turn before the delay is over, and is in its queue with the first one from then on, at most once jobs included |
| `Timing.RetriedJob` | src/job.c:462-525 | a job handed to a consumer is in no queue until its retry time is over, and is in its queue again with the first turn from then on |
| `Timing.WorkingTold` | src/queue.c:1093-1123 | WORKING takes the job out of its queue, puts off its next time and tells every other listed node |
| `Timing.WorkingHeard` | src/cluster.c:1420-1465 | which does the same with its copy |
| `Timing.WorkingLasts` | src/queue.c:1093-1123 | after WORKING no turn of the timer queues the job for its retry time |
| `Timing.QueuedHeard` | src/cluster.c:1420-1465 | QUEUED takes a copy out of its queue exactly if the sender is preferred, and puts off its next time; an acknowledged copy answers SETACK |
| `Timing.WillQueueHeard` | src/cluster.c:1466-1479 | WILLQUEUE makes a live copy list the sender; a queued one answers QUEUED to all it lists, an acknowledged one SETACK |
| `Timing.EnqueueHeard` | src/cluster.c:1398-1419 | ENQUEUE puts an active copy in its queue, or makes it due after the delay, unless the queue is paused or the copy has no time to be queued at |
| `Timing.ElsewhereWaits` | src/job.c:1231-1374 | ADDJOB on a node that keeps no copy sends the job to other nodes only, and waits |
| `Timing.ElsewhereAtOnce` | src/job.c:1355-1374 | with ASYNC such a node answers, sends the job out, tells one receiver to queue it, and keeps and logs nothing |
| `Timing.ElsewhereAnswered` | src/job.c:1044-1086 | the last confirmation answers the client, removes the job here and tells one node to queue it |
| `Timing.ElsewhereQueued` | src/cluster.c:1398-1419 | that node has the job in its queue if and only if the job has a retry time and no delay; a job with RETRY 0 is in no queue then and after any turns of the timer |
| `Timing.FastAckTold` | src/ack.c:270-291 | FASTACK removes the job and sends DELJOB to all other nodes that may have it, or to all nodes when it is not known |
| `Timing.TimeoutTold` | src/job.c:1007-1019 | a job whose client stopped waiting is gone here, and every receiver is told to delete it |
| `Timing.UnknownAcked` | src/ack.c:218-252 | an ACKJOB of a job not known here is kept for the life in its ID and every other node is asked, unless the node is alone or leaving or the job may be delivered once |
| `Timing.UnknownTurn` | src/ack.c:69-122 | a turn of the timer drops such an acknowledge exactly when there is no other node, and otherwise asks every node that has not answered |
| `Timing.UnknownAnswered` | src/ack.c:126-198 | and it is dropped when a node that knows the job answers, or when all nodes have |
| `Delivery.EnqueueTame` | src/queue.c:148-193 | queueing leaves a job without retry time nothing to be queued at, and one with a retry time a time |
| `Delivery.StepTame` | src/job.c:462-535 | no message, timer or command but ADDJOB makes a job without retry time deliverable again |
| `Delivery.AtMostOnce` | src/queue.c:155-178 | in every run a job added with RETRY 0 is handed to a consumer at most once in the whole cluster |
| `Delivery.DueIsQueued` | src/job.c:488-525 | a turn of the timer at which a live copy is due has it in its queue, due again a retry time later |
| `Delivery.AtLeastOnce` | src/job.c:462-525 | in every run the deliveries at a node are at least the turns of the timer at which its live copy with a retry time is due and a consumer follows before the copy is dequeued, acknowledged or removed; such a copy always has a time at which it is due |
| `Election.BeatsIsTotalOrder` | src/job.c:168-180 | for every job the XOR comparison is a strict total order on distinct node names |
| `Election.CompareNodeIDsByJob` | src/job.c:168-180 | the sign of the comparison is that order |
| `Election.DeliverOne` | src/cluster.c:1420-1443 | a QUEUED message dequeues the job exactly when its sender beats the receiver |
| `Election.OneKeepsIt` | src/cluster.c:1420-1443 | when all nodes have the job queued and hear each other's QUEUED, in any order and with repetition, exactly the greatest keeps it queued |
| `JobLog.ReplayLoaded` | src/job.c:969-1000 | replay of a whole log treats each job by its own commands |
| `JobLog.RunAssembles` | src/job.c:924-964 | in every such run a node's table and log are made up of its part in the history of every job |
| `JobLog.ReplayIsLiveJobs` | src/job.c:924-1000 | in every run of a cluster with many jobs whose steps interleave, one log per node, the log of every node replays at any time to exactly its active and queued unexpired jobs, with their expire times |
| `JobLines.OneLine` | src/job.c:924-1000 | a step logs at most one line, unless it acknowledges a copy that waits for its replication |
| `JobLines.MidwayLines` | src/cluster.c:1336-1373 | that step logs at most two, and after the first of them the copy is the one whose replication is achieved |
| `JobLines.StageReplays` | src/job.c:924-1000 | in every run of a cluster with many jobs, a log that ends after any of the lines of a step replays to exactly the jobs that were live when that line was written |
| `AofRewrite.AppendedConcat` | src/aof.c:161-205 | filling the last block and adding new ones appends exactly the bytes |
| `AofRewrite.SentConserves` | src/aof.c:132-158 | partial writes lose and reorder nothing between the blocks and the pipe |
| `AofRewrite.SentDrains` | src/aof.c:132-158 | writes that all take something, as many as there are bytes, send everything |
| `AofRewrite.StepConserves` | src/aof.c:730-894 | every event keeps: the child's diff, the pipe and the blocks together are the bytes fed since the fork |
| `AofRewrite.CanFinish` | src/aof.c:796-864 | a child that reads can always ask, be agreed with and finish, and then has all that was in the pipe |
| `AofRewrite.RewriteIsExact` | src/aof.c:1047-1153 | for every interleaving of feeds, partial writes, reads and the stop handshake, a finished rewrite leaves the snapshot followed by every byte fed since the fork, in order |
| `AofRewrite.Aof.constructor` | src/aof.c:497-516 | nothing logged, no rewrite, valid |
| `AofRewrite.Aof.StartRewrite` | src/aof.c:956-1007 | refused while a rewrite is going on; otherwise a rewrite of this snapshot to which nothing was fed; the log is unchanged |
| `AofRewrite.Aof.RewriteBufferAppend` | src/aof.c:161-205 | the loop computes the specified blocks |
| `AofRewrite.Aof.WriteDiffData` | src/aof.c:132-158 | the loop of writes is the specified event; pipe and blocks together hold the same bytes, and the pipe only grows at its end |
| `AofRewrite.Aof.Append` | src/aof.c:497-516 | the log grows by the bytes exactly when the AOF is on, and so does what was fed since the fork while a rewrite is going on; nothing fed is lost or out of order |
| `AofRewrite.Aof.Flush` | src/aof.c:311-470 | the log is unchanged, and all in the file |
| `AofRewrite.Aof.ChildPipeReadable` | src/aof.c:873-894 | nothing more is sent, and diff, pipe and blocks are still everything fed since the fork |
| `AofRewrite.Aof.ReadDiffFromParent` | src/aof.c:730-740 | the loop of reads is the specified event; diff and pipe together are unchanged |
| `AofRewrite.Aof.FinishChild` | src/aof.c:828-840 | the file of the child followed by the blocks is the snapshot followed by every byte fed since the fork |
| `AofRewrite.Aof.RewriteBufferWrite` | src/aof.c:210-230 | appends the concatenation of the blocks |
| `AofRewrite.Aof.RewriteDone` | src/aof.c:1047-1189 | a success leaves the file equal to the snapshot followed by every byte fed since the fork, while the old log was the log of the fork followed by the same bytes; a waiting AOF is switched on; a failure leaves the old log |
| `AofReplay.RewriteJobs` | src/aof.c:774-791 | the snapshot loads exactly the active and queued jobs, in any order |
| `AofReplay.RewriteReplays` | src/aof.c:753-864 | logging on after a snapshot replays as logging on after the old log |
| `AofReplay.LineExecuted` | src/job.c:924-1000 | the bytes of a LOADJOB or DELJOB line are executed as the command they stand for, whatever nodes are known at loading |
| `AofReplay.RewrittenFile` | src/aof.c:753-864 | a finished rewrite leaves the bytes of the snapshot lines followed by those of the lines since |
| `AofReplay.RewrittenFileReplays` | src/aof.c:562-1153 | in every run of a cluster with many jobs: after a rewrite forked in mid-run, further logging and a crash between any two lines or in the middle of one, the loader executes from the bytes of the file commands that leave exactly the jobs the node had live when its last complete line was written |
| `AofReplay.LogLoads` | src/aof.c:562-707 | a printed log, its lines carrying the serialized jobs of the moment, followed by any part of one more line, is loaded and decoded as exactly the commands of its lines |
| `AofLoad.ReadCommandPrinted` | src/aof.c:602-638 | a printed command in the file is read back, wherever it is |
| `AofLoad.CommandCutShort` | src/aof.c:602-638 | any proper part of a command at the end of the file is recognised as cut short |
| `AofLoad.LoadsCompleteCommands` | src/aof.c:562-707 | the loader executes exactly the complete commands, and the offset it truncates at is their total length |
| `AofLoad.LoadArgs` | src/aof.c:613-638 | the loop over the arguments follows the specification |
| `AofEnd.ReadCommandExact` | src/aof.c:602-638 | at every place of every file one round of loading finds a command exactly if one is there, a cut one exactly if the file ends before it does, and bad bytes exactly if they are no command whatever follows |
| `AofEnd.LoadExact` | src/aof.c:588-705 | for every file: the commands executed are whole commands from its start, and loading ends at the end of the file, CutShort or BadFormat exactly in these cases |
| `AofEnd.LoadFile` | src/aof.c:562-707 | the loading loop does so |
| `AofEnd.RefusedAfter` | src/aof.c:588-705 | after a log, bytes that are no command: exactly the commands of the log are executed, and loading fails at the end of them |
| `AofEnd.NoStar` | src/aof.c:608-608 | a byte that is not a star is no command |
| `AofEnd.NoCount` | src/aof.c:610-611 | nor is a count of 0 |
| `AofEnd.NoDollar` | src/aof.c:617-623 | nor is a command with a byte that is not a dollar where an argument should start |
| `AofEnd.NegativeLength` | src/aof.c:623-626 | nor is an argument with a negative length |
| `AofEnd.StartsAgain` | src/aof.c:660-705 | for every file: the server starts unless bytes are no command, or the last one is cut and that is not allowed; the file it goes on with loads to the same commands, to its end |
| `AofCheck.ReadLong` | src/disque-check-aof.c:56-68 | a header line is found exactly if one is there: the mark, a number with nothing after it, and the end of the line |
| `AofCheck.ReadString` | src/disque-check-aof.c:81-99 | an argument is found exactly if one is there: a header line, as many bytes as it says, and the end of a line |
| `AofCheck.ReadBody` | src/disque-check-aof.c:115-137 | the argument loop with its MULTI and EXEC count follows the specification |
| `AofCheck.CheckCommandExact` | src/disque-check-aof.c:112-143 | a command is taken exactly if one is there, and is neither a MULTI inside a transaction nor an EXEC outside one |
| `AofCheck.CheckExact` | src/disque-check-aof.c:105-147 | for every file: the checker cuts at the last offset that commands go up to with no transaction open |
| `AofCheck.CheckFile` | src/disque-check-aof.c:105-147 | its loop returns that offset |
| `AofCheck.CheckedLoads` | src/disque-check-aof.c:105-147 | for every file: what is left after the cut loads to its end if and only if no command in it is without arguments |
| `AofCheck.EmptyCommand` | src/disque-check-aof.c:105-147 | a file with only such a command is valid for the checker and refused by the loader |
| `AofCheck.CheckedLog` | src/disque-check-aof.c:105-147 | of a log and any part of a further command the checker keeps the commands up to the last one that leaves no transaction open |
| `AofCheck.CheckerAgreesWithLoader` | src/disque-check-aof.c:105-147 | so the checker and the loader agree on where a log that was cut ends if and only if its complete commands leave no transaction open |
| `Decimal.ReadPrinted` | src/util.c:264-382 | a printed number is read back |
| `Decimal.ReadIntExact` | src/util.c:264-382 | the texts read as integers are exactly those printed for the integers of 64 bits |
| `Decimal.StringToInt` | src/util.c:321-382 | the digit loop with its overflow tests follows the specification |
| `Resp.PrintCommand` | src/aof.c:472-495 | appends the protocol form of the command |
| `Resp.FindCrExact` | src/networking.c:935-942 | the end of a line is found exactly at the first carriage return with no zero byte before it |
| `Resp.ProcessFollows` | src/networking.c:925-1061 | one call, at any point of a command, completes it with exactly its arguments or keeps what it needs to go on |
| `Resp.DrainOnTrack` | src/networking.c:1063-1105 | processing the buffer executes every complete command and waits inside the next |
| `Resp.ExecutesWhatWasPrinted` | src/networking.c:925-1161 | for every list of commands within the limits and every way to cut its bytes into reads, a session that is not refused executes exactly the list and ends empty |
| `Resp.AskedFits` | src/networking.c:1107-1127 | a read of at most the length asked for never makes the buffer too big |
| `Resp.ReadsExecuteAll` | src/networking.c:1107-1161 | so with such reads the session is never refused and executes the list |
| `RespErrors.ParseExact` | src/networking.c:971-1055 | for every buffer: the arguments that are there are taken, and then parsing is complete, waits or fails exactly as what comes next says |
| `RespErrors.CountRefused` | src/networking.c:930-957 | a request is refused for its count exactly when the line holds no number or one above 1048576, or no line has come in 64 KB |
| `RespErrors.ArgumentRefused` | src/networking.c:971-1013 | and for an argument when after some of its arguments comes a line without a dollar, or one with no length or one below 0 or above 512 MB |
| `RespErrors.RefusedFor` | src/networking.c:925-1061 | whatever is refused is refused for one of these, or for an argument whose line has not come in 64 KB |
| `RespErrors.RefusedAfter` | src/networking.c:1063-1105 | a refused request ends the session after exactly the requests before it |
| `Resp.Connection.constructor` | src/networking.c:925-1061 | an empty connection |
| `Resp.Connection.ReadHeader` | src/networking.c:973-1022 | reads a header, keeps it for later, or fails; the large argument buffer included |
| `Resp.Connection.ReadArgument` | src/networking.c:1024-1050 | takes an argument, by reference when it fills the buffer |
| `Resp.Connection.ReadCount` | src/networking.c:930-969 | reads the number of arguments, or waits, or fails |
| `Resp.Connection.ProcessMultibulkBuffer` | src/networking.c:925-1061 | the in-place parser computes the specification |
| `JobCodec.ReadLittle` | src/job.c:665-858 | a little endian number is read back |
| `JobCodec.DecodeEncoded` | src/job.c:665-858 | a serialized job is read back wherever it is in a buffer, less the nodes the receiver does not know, and the next one starts after it |
| `JobCodec.RestoredMeans` | src/job.c:690-812 | storage keeps times and state; a message gives etime = max(etime, now) + 1, state active and no delivered flag; both reset gc_retry; all other fields are kept |
| `JobCodec.OnlyKnownExact` | src/job.c:844-849 | of the nodes written exactly the known ones are kept, in order, and all of them when all are known |
| `JobCodec.DecodeExact` | src/job.c:764-858 | for every buffer: a job is read exactly if one of the right shape is there; it ends where its length says, and its nodes are those written that are known, each once |
| `JobCodec.DecodeAllExact` | src/job.c:764-858 | a buffer is parsed to its end exactly if there are only such jobs in it |
| `JobCodec.DecodeAllEncoded` | src/job.c:764-858 | any list of jobs glued together is parsed back one at a time, each less the nodes the receiver does not know |
| `JobCodec.SerializeJob` | src/job.c:665-739 | appends the specified bytes |
| `JobCodec.DeserializeJob` | src/job.c:764-858 | the pointer walk follows the specification |
| `JobCodec.ReadNodeNames` | src/job.c:836-850 | the loop keeps the known names, each once |
| `ReplyBuffer.AddReplyOk` | src/networking.c:165-262 | a reply is appended to what is pending, whichever buffer it goes to |
| `ReplyBuffer.DeferOk` | src/networking.c:372-379 | a deferred length opens a hole at the end |
| `ReplyBuffer.SetLengthOk` | src/networking.c:382-406 | setting it fills exactly its hole, whether or not it is glued to the next chunk |
| `ReplyBuffer.SetLengthJoins` | src/networking.c:382-406 | and goes into one chunk with the chunk after it, when there is one |
| `ReplyBuffer.SendOk` | src/networking.c:729-803 | a write of any length takes a prefix of what is pending |
| `ReplyBuffer.SendProgress` | src/networking.c:729-803 | a write that takes something leaves fewer bytes or chunks to send |
| `ReplyBuffer.RepliesInOrder` | src/networking.c:165-803 | for every interleaving of replies, deferred lengths and short writes, written then pending bytes are the replies in order, and reply_bytes is the length of the list |
| `ReplyBuffer.Output.constructor` | src/networking.c:165-180 | an empty output |
| `ReplyBuffer.Output.AddToBuffer` | src/networking.c:165-180 | takes the reply exactly when the list is empty and it fits |
| `ReplyBuffer.Output.AddStringToList` | src/networking.c:238-262 | appends to the last chunk or adds one, and counts the bytes |
| `ReplyBuffer.Output.Add` | src/networking.c:319-323 | what is pending grows by exactly the reply |
| `ReplyBuffer.Output.AddDeferred` | src/networking.c:372-379 | what is pending grows by a hole |
| `ReplyBuffer.Output.SetDeferred` | src/networking.c:382-406 | the hole is filled |
| `ReplyBuffer.Output.WriteOnce` | src/networking.c:734-780 | what is sent is taken from the front of what is pending |
| `ReplyBuffer.Output.WriteToClient` | src/networking.c:729-803 | after any number of short writes, sent then pending bytes are unchanged; writes that all take something, as many as there are bytes and chunks, send everything |
| `FailDetect.AddReportKeeps` | src/cluster.c:550-573 | the sender's report is new and the others are kept; one report for each sender |
| `FailDetect.CleanupKeeps` | src/cluster.c:580-594 | exactly the reports not too old are left |
| `FailDetect.DelReportExact` | src/cluster.c:607-625 | without a report of the sender nothing changes; otherwise exactly the recent reports of others are left |
| `FailDetect.MarksOnQuorum` | src/cluster.c:812-836 | FAIL is set exactly when the node suspects the target and, with itself, more than half the cluster does in reports not expired; PFAIL is then cleared, and exactly the expired reports are gone |
| `FailDetect.StepInv` | src/cluster.c:933-1000 | every event keeps the invariant of the cluster, in which every set flag has a sound cause |
| `FailDetect.FailTurnsOn` | src/cluster.c:812-850 | in every run, whenever a node sets FAIL it finds such a quorum in that step, or handles a FAIL of a node that found one |
| `FailDetect.FailIsFounded` | src/cluster.c:812-850 | in every run PFAIL and FAIL are never both set, and every set FAIL flag has its own cause: a verdict of this node or of the sender of the FAIL message it received, which suspected the target with recent reports of at least half the cluster size, from distinct other nodes that suspected it too |
| `FailDetect.EventsAreExact` | src/cluster.c:933-1272 | in every run, exactly what each event does to the flags and reports of its node and what it sends: an unanswered ping, an answer, a gossip entry, a FAIL message |
| `FailDetect.FailStays` | src/cluster.c:1226-1245 | in every run FAIL stays set until the target answers |
| `FailDetect.FailSpreads` | src/cluster.c:1262-1272 | in every run whoever handles a FAIL message has FAIL set and PFAIL clear, and keeps it so until the target answers |
| `FailDetect.VerdictIsSent` | src/cluster.c:812-836 | in every run the FAIL of every quorum found is there for every other node to receive, and sets FAIL there |
| `FailDetect.Node.constructor` | src/cluster.c:550-573 | no flag, no report, valid |
| `FailDetect.Node.AddFailureReport` | src/cluster.c:550-573 | the sender is among the reporters afterwards, no report is doubled, and the caller is told whether it is new |
| `FailDetect.Node.CleanupFailureReports` | src/cluster.c:580-594 | the deleting loop leaves exactly the reports that are not too old |
| `FailDetect.Node.DelFailureReport` | src/cluster.c:607-625 | no report of the sender is left, and the caller is told whether there was one |
| `FailDetect.Node.MarkAsFailingIfNeeded` | src/cluster.c:812-836 | decides if and only if the target is suspected and, with this node, more than half the cluster accuses it in reports not expired; FAIL and PFAIL are set accordingly |
| `FailDetect.Node.ProcessGossip` | src/cluster.c:933-975 | the sender has a report afterwards exactly if the entry is flagged; decides if and only if the sender completes a quorum on a suspected target |
| `FailDetect.Node.PingTimedOut` | src/cluster.c:2263-2270 | PFAIL is set unless PFAIL or FAIL is, and the caller is told whether that is news |
| `FailDetect.Node.PongReceived` | src/cluster.c:1226-1245 | a suspected node is not suspected any more, and a failing one not failing |
| `FailDetect.Node.FailReceived` | src/cluster.c:1262-1272 | FAIL is set and PFAIL clear |

## Left out

- Federation (NEEDJOBS, YOURJOBS), GETJOB and its blocked clients, queue order, pausing and NACK counters: a queue is modelled as the state of its jobs, and a delivery as the step that fetches one.
- `Server.Server` handles one job ID per call; the loops of the commands over several IDs only repeat it.
- MAXLEN, eviction and the timing of `processJobs` and of GC retries: the timer step may be taken at any moment.
- Copies that do not list their own node, and acknowledges of unknown jobs: they take part in every run, but the theorems on the end of a collection are about listed copies, since the size test is no set test for the others.
- Which receivers are told not to reply is an arbitrary set, and a dummy acknowledge that receives a GOTACK before any GC attempt is taken to have confirmed nobody.
- Restarts of a node inside a run of the cluster: the log theorems say what a restart would load.
- Server.Server.ProcessPacket: an ENQUEUE about a job that still waits here, which `Protocol.StepReady` shows never to arrive: only the node that added a job sends one.
- Delivery.AtMostOnce: with a clock beyond its first half second, and without federation and restarts, which may move or forget an at most once job.
- Protocol.EndDeletesAcked: about nodes that handled no REPLJOB after their first GOTACK, because a late REPLJOB makes a new copy.
- `DictScan.FullScanCovers` needs tables of at most 2^64 buckets, as does the word-sized cursor.
- DictLoad.LoadFactor: runs without dictExpand, dictResize and iterators, because a table asked for may be small and an iterator stops the rehash.
- Dictionary sizes near LONG_MAX, unsafe iterators with their fingerprint, random keys, and pointers to entries: iteration remembers keys.
- Lzf.Compress: an input of one byte, for which the first hash reads beyond the input; the other configurations of lzf_c.c.
- JobCodec.DecodeExact: the model checks every length before it reads, where the code trusts some of them; big endian hosts; wrap-around of the 32-bit expire time.
- The inline protocol, clients that are blocked, paused or about to be closed, and output buffer limits.
- AofEnd.StartsAgain: commands that are not known to the server, which also stop it, and errors of truncating the file.
- Write and fsync errors of the AOF, and AOF loading of MULTI/EXEC blocks; `strtol` on leading blanks, a plus and numbers out of range; a header line with a zero byte; a negative argument length, which the code does not check, is taken as malformed.
- FAIL flags read from the node configuration file, handshakes, node addition and removal, and the failure state of the cluster itself.
- The format of job IDs: an ID is an opaque value that is new when ADDJOB creates it.
- Sockets, event loops, command tables, configuration, the command line client and diagnostics.
