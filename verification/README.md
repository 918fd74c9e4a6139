# HyperDisk: models and proofs

This project models the parts of HyperDisk that hold state, loops and byte formats, and proves what
they guarantee over all inputs and all runs.

- **Checksums** (`Words`, `Crc32c`, `CrcCancel`). CRC32C in its bit-by-bit and its table form. The
  register step is linear and injective over 32-bit vectors; from this follow the equality of the two
  forms and the detection of all damage confined to four adjacent bytes, checksum bytes included.
  `Crc32c.CheckValue` ties polynomial, start value and final inversion to the published check value.
  Where the checksum stands in front of its last word, exactly two changes of both cancel.
- **Write-ahead log** (`WalEntry`, `WalLog`, `WalManager`). Entry printer, validator and parser, the
  segment reader, and the manager with its sequence fence and rollover. A torn tail, a crash in the
  middle of a write and a damaged byte each cost exactly the entries they touch and those behind them
  in the same segment.
- **boot.meta** (`BootMeta`). Save and load of the checksummed record.
- **W-TinyLFU cache** (`CountMinSketch`, `TinyLfuSpec`, `TinyLfuRuns`, `TinyLfuCounts`,
  `TinyLfuCache`). The count-min
  sketch for every hash function, the queues and the entry map, the eviction loop, and whole runs,
  which turn out to be those of a FIFO.
- **Reconnect state machine** (`NetMachine`, `NetTiming`, `NetRuns`, `NetworkStateMachine`,
  `Rounds`). Six states,
  timers, backoff and server rotation as steps in time.
- **L3 block cache** (`L3Cache`), **DHCP options** (`DhcpOptions`), **boot I/O trace** (`BootTrace`),
  **boot replay ring and file** (`ReplayRing`), **0x7B recovery** (`Recovery7b`).

Classes are updated in place as in the source; each method is proved against a function on values, and
the run theorems are about those functions. `dafny verify dfyconfig.toml` checks everything.

Conventions: clock readings, results of connection attempts, results of opening and writing files and
flags set by other threads are parameters. Each public method is one atomic step. Machine words that are
only stored and compared are bit vectors; sizes and counts are numbers, with 32-bit wrap-around written
out where the source computes in 32 bits. Where a proof does not need the body of a function it says so
with `hide`.

## Model

| member | source | states |
|---|---|---|
| Crc32c.TableFormIsBitwise | client/common/hd_frame_codec.cpp:8-27 | from every register and on every byte string the table form and the bit-by-bit form end in the same register |
| Crc32c.BitwiseCrc | client/blackbox/blackbox_recorder.cpp:12-21 | the nested bit loops return the checksum of the data |
| Crc32c.TableCrc.EnsureInit | client/overlay_mgr/wal_enhanced.cpp:15-25 | the table is filled once; entry i holds eight register steps of i |
| Crc32c.TableCrc.Compute | client/overlay_mgr/wal_enhanced.cpp:27-34 | one lookup per byte returns the same checksum as the bit loops |
| Crc32c.WindowDetected | client/boot_agent/boot_meta.cpp:14-18 | equal-length messages that differ only inside four adjacent bytes have different checksums |
| Crc32c.ChecksumMatches | client/overlay_mgr/wal_enhanced.cpp:122-131 | a stored word is the message's checksum exactly when feeding it after the message leaves the residue |
| Crc32c.DamageDetected | client/overlay_mgr/wal_enhanced.cpp:122-131 | a message with its checksum, damaged inside four adjacent bytes anywhere including across the boundary, no longer matches |
| CrcCancel.CrcOfWord | client/overlay_mgr/wal_enhanced.cpp:55-58 | two last words change the checksum of a message by thirty-two register steps of their difference, whatever stands before them |
| CrcCancel.PassesExactly | client/overlay_mgr/wal_enhanced.cpp:98-120 | if a stored checksum and the word behind it change only within four adjacent bytes, the changes cancel exactly for two pairs: checksum xor 0x80310000 with word xor 0xD6CB, and 0xAE000000 with 0x2E0C1 |
| WalEntry.Build | client/overlay_mgr/wal_enhanced.cpp:36-72 | the buffer filled field by field is exactly the layout: header, header checksum over header and length, length, payload, footer checksum over all before it, zero padding to 8 bytes |
| WalEntry.PrintedLayout | client/overlay_mgr/wal_enhanced.cpp:36-72 | every printed entry byte by byte: the offsets of all fields, both checksums over the bytes before them, and fewer than eight zero bytes up to a multiple of eight |
| WalEntry.PrintedIsAccepted | client/overlay_mgr/wal_enhanced.cpp:74-163 | whatever follows an entry and whatever its padding holds, it validates and parses back with every field unchanged |
| WalEntry.AcceptedIsPrinted | client/overlay_mgr/wal_enhanced.cpp:74-134 | whatever validates begins with the printed form of some entry, up to the version number, which the validator skips, exactly if the declared length does not wrap the 32-bit size sum |
| WalEntry.WrappedIsAccepted | client/overlay_mgr/wal_enhanced.cpp:74-134 | so not everything accepted was printed: for every version and low word of the id, length 0xFFFFFFF4 and a high word that is the checksum of the first ten bytes validate, whatever follows, and no entry begins there |
| WalEntry.CutIsRejected | client/overlay_mgr/wal_enhanced.cpp:77-110 | an entry cut anywhere before its footer ends is rejected as too short or truncated |
| WalEntry.DamageIsRejected | client/overlay_mgr/wal_enhanced.cpp:83-131 | damage inside four adjacent bytes is rejected, whatever follows the entry, unless header checksum and length are changed by one of the two pairs that cancel |
| WalEntry.HeaderPasses | client/overlay_mgr/wal_enhanced.cpp:98-120 | damage to the length inside four adjacent bytes passes the header checksum exactly if it is one of the two pairs |
| WalEntry.CancelledDamage | client/overlay_mgr/wal_enhanced.cpp:104-131 | damage by such a pair passes the header checksum, and is accepted exactly if a footer checksum matches where the declared length, summed in 32 bits, puts it |
| WalEntry.CancellingIsAccepted | client/overlay_mgr/wal_enhanced.cpp:36-134 | so four-byte damage can go unseen: every entry turns into an accepted one if a longer payload that starts with its payload and footer follows and the lengths differ by one of the two words |
| WalEntry.UnseenDamage | client/overlay_mgr/wal_enhanced.cpp:36-134 | for every id an empty entry is such a case |
| WalEntry.OneByteIsRejected | client/overlay_mgr/wal_enhanced.cpp:83-131 | any one changed byte of the unpadded entry is rejected |
| WalLog.ReadEntries | client/overlay_mgr/wal_enhanced.cpp:224-240 | the offset loop terminates and returns the entries up to the first that does not validate, for data in which no accepted length wraps |
| WalLog.ScanIntact | client/overlay_mgr/wal_enhanced.cpp:224-240 | intact entries are returned in order with all fields, and reading goes on behind them |
| WalLog.TornTail | client/overlay_mgr/wal_enhanced.cpp:36-241 | a log cut at any byte k returns exactly the entries whose unpadded bytes lie within k, and reading stays inside the data |
| WalLog.CrashWhileWriting | client/overlay_mgr/wal_enhanced.cpp:198-241 | a crash at any byte of one more write costs nothing written before it, and keeps the new entry exactly if its unpadded bytes are there |
| WalLog.DamagedEntry | client/overlay_mgr/wal_enhanced.cpp:215-241 | four-byte damage to entry i, other than by one of the two pairs, leaves exactly the entries before it |
| WalLog.DamagedByte | client/overlay_mgr/wal_enhanced.cpp:215-241 | every single changed byte of a log: in the unpadded part of an entry exactly the entries before it remain, in padding all entries remain |
| WalManager.SequenceFence.Next | client/overlay_mgr/wal_enhanced.h:62-72 | returns the counter and advances it by one, in 64 bits |
| WalManager.SequenceFence.Reset | client/overlay_mgr/wal_enhanced.h:67-67 | sets the next id |
| WalManager.Segment.WriteEntry | client/overlay_mgr/wal_enhanced.cpp:198-213 | writing at the file position appends the printed entry, exactly when the segment is open, unsealed and the write goes through; counters follow the file |
| WalManager.Segment.ReadAllEntries | client/overlay_mgr/wal_enhanced.cpp:215-241 | seeking and reading gives back exactly the entries written and leaves the position at the end |
| WalManager.Segment.Seal | client/overlay_mgr/wal_enhanced.cpp:247-252 | seals the segment |
| WalManager.Manager.Open | client/overlay_mgr/wal_enhanced.cpp:269-280 | ids start after the checkpoint, with one empty active segment; segments rolled over before are empty |
| WalManager.Manager.WriteEntry | client/overlay_mgr/wal_enhanced.cpp:292-304 | takes the next id in any case, returns it or 0, stores the entry exactly if the write goes through, and rolls over when full |
| WalManager.Manager.RollOverIfNeeded | client/overlay_mgr/wal_enhanced.cpp:397-403 | rolls over exactly when the active segment has reached 64 MiB or 500000 entries |
| WalManager.Manager.TriggerSegmentRollover | client/overlay_mgr/wal_enhanced.cpp:386-395 | seals the active segment, if there is one, behind the older ones and starts an empty one, also before opening |
| WalManager.Manager.CollectEntriesForReplay | client/overlay_mgr/wal_enhanced.cpp:344-360 | after any calls, also before opening, returns exactly the acknowledged entries in order, and changes nothing but file positions |
| WalManager.RunInv | client/overlay_mgr/wal_enhanced.cpp:292-403 | over every run: segments hold exactly the acknowledged entries in order, every attempt takes the id after the previous one, no segment exceeds 500000 entries, the active one is not full |
| WalManager.ActiveWithinLimits | client/overlay_mgr/wal_enhanced.cpp:243-245 | after every run the active file is below 64 MiB and holds fewer than 500000 entries |
| WalManager.ClosedJustFull | client/overlay_mgr/wal_enhanced.cpp:397-403 | in every run without explicit rollovers each closed segment has reached 64 MiB or 500000 entries, and without its last entry it had not |
| WalManager.WriteOutcome | client/overlay_mgr/wal_enhanced.cpp:292-304 | after every run one more write is acknowledged exactly if it goes through and the active file is open, and records the payload passed |
| WalManager.NewSegment | client/overlay_mgr/wal_enhanced.cpp:386-403 | after every run a rollover closes exactly the active segment, and the new one takes writes exactly if its file opens |
| WalManager.ThroughIsAcknowledged | client/overlay_mgr/wal_enhanced.cpp:292-403 | in every run in which all files open, the acknowledged payloads are exactly those of the writes that go through, in order |
| WalManager.ReplayIsAcknowledged | client/overlay_mgr/wal_enhanced.cpp:344-360 | after every run, scanning the bytes of all segment files in order gives exactly the records of the acknowledged entries |
| WalManager.IdsIncrease | client/overlay_mgr/wal_enhanced.h:62-72 | over every run that starts at a checkpoint f with f plus the writes below 2^64, the i-th attempt has id f + 1 + i |
| WalManager.CrashKeepsPrefix | client/overlay_mgr/wal_enhanced.cpp:198-403 | a crash after any run that tears the active file at byte k: the replay gives exactly the acknowledged entries up to the last whose unpadded bytes lie within k, all sealed segments included |
| WalManager.DamagedSegment | client/overlay_mgr/wal_enhanced.cpp:215-360 | one changed byte in any segment file after any run costs exactly the entries of that segment from the damaged one on, or none if the byte is padding; all other segments are replayed whole |
| BootMeta.Cache.Load | client/boot_agent/boot_meta.cpp:47-70 | succeeds exactly for a file with a whole record, right magic number and checksum; otherwise the defaults are in place and the cache is not valid |
| BootMeta.AcceptedRecord | client/boot_agent/boot_meta.cpp:47-70 | bytes load exactly if there are 310, they begin with the magic number and end with the checksum of the first 306 |
| BootMeta.DefaultFields | client/boot_agent/boot_meta.cpp:37-45 | the defaults: magic number, version, block size 4096, server 10.10.200.10 and port 9527 at their offsets, zero elsewhere |
| BootMeta.Cache.Save | client/boot_agent/boot_meta.cpp:72-82 | stamps magic number, version and checksum in memory in any case, and writes that record if the file opens |
| BootMeta.SavedLoads | client/boot_agent/boot_meta.cpp:47-82 | a saved file loads, with magic number and version stamped and all other fields unchanged |
| BootMeta.DamagedIsRejected | client/boot_agent/boot_meta.cpp:27-70 | a saved file damaged inside four adjacent bytes anywhere does not load |
| CountMinSketch.NewSketch | client/smart_cache/w_tinylfu.cpp:9-25 | the repository's hash stays within the width, so its sketch is one the theorems cover |
| CountMinSketch.HashValues | client/smart_cache/w_tinylfu.cpp:15-25 | the seeds of the first rows and a value of the hash, which fix its constants and steps |
| CountMinSketch.Sketch.Add | client/smart_cache/w_tinylfu.cpp:27-32 | every cell counts, modulo 2^32, the uses of all keys that hash to it |
| CountMinSketch.Sketch.Estimate | client/smart_cache/w_tinylfu.cpp:34-41 | the smallest of the key's cells |
| CountMinSketch.EstimateIsLeast | client/smart_cache/w_tinylfu.cpp:34-41 | the estimate is at most each of the key's cells and equal to one of them |
| CountMinSketch.Sketch.Reset | client/smart_cache/w_tinylfu.cpp:43-47 | forgets all uses |
| CountMinSketch.CellsSum | client/smart_cache/w_tinylfu.cpp:27-32 | below 2^32 uses, every row of 32-bit cells adds up to everything that was added |
| CountMinSketch.TableRowSum | client/smart_cache/w_tinylfu.cpp:49-63 | every row of the stored table adds up to the accesses since the last reset |
| CountMinSketch.EstimateBounds | client/smart_cache/w_tinylfu.cpp:27-41 | below 2^32 uses, the estimate lies between the key's true count and the total |
| CountMinSketch.FilterEstimate | client/smart_cache/w_tinylfu.cpp:49-67 | between resets every estimate is at least the true count, at most the accesses since the reset, and below UINT32_MAX |
| CountMinSketch.TinyLfu.Access | client/smart_cache/w_tinylfu.cpp:56-63 | remembers the access, and forgets everything when the threshold is reached |
| CountMinSketch.RememberingIsSuffix | client/smart_cache/w_tinylfu.cpp:56-63 | after any accesses exactly those since the last multiple of the threshold are remembered, each once and in order |
| TinyLfuSpec.ArgLeast | client/smart_cache/w_tinylfu.cpp:261-274 | the probation victim is the first of the least used among the oldest sixteen |
| TinyLfuCounts.VictimOrder | client/smart_cache/w_tinylfu.cpp:253-282 | the victim is the oldest window key, else the first least used of the sixteen oldest probation keys, else the oldest protected key |
| TinyLfuSpec.EvictedInv | client/smart_cache/w_tinylfu.cpp:253-295 | evicting from any valid non-empty cache removes exactly one entry and keeps the invariant |
| TinyLfuSpec.Shrunk | client/smart_cache/w_tinylfu.cpp:110-112 | evicting until there is room ends with fewer entries than the capacity or none, only drops keys and keeps the invariant |
| TinyLfuSpec.PutInv | client/smart_cache/w_tinylfu.cpp:98-132 | from any valid state Put keeps the invariant and holds the key; a resident key leaves the count alone, a new one leaves at most capacity entries (one for capacity 0) |
| TinyLfuSpec.GetInv | client/smart_cache/w_tinylfu.cpp:134-172 | Get with promotion and demotion keeps the invariant and the resident keys |
| TinyLfuCounts.ProbationHit | client/smart_cache/w_tinylfu.cpp:153-169 | a probation hit becomes the newest protected key; exactly if protected was full its oldest key becomes the newest probation key; nothing else moves |
| TinyLfuCounts.OtherHit | client/smart_cache/w_tinylfu.cpp:134-172 | any other lookup moves nothing |
| TinyLfuSpec.RemoveInv | client/smart_cache/w_tinylfu.cpp:179-208 | Remove takes out exactly that key and keeps the invariant |
| TinyLfuSpec.ClearInv | client/smart_cache/w_tinylfu.cpp:210-220 | Clear keeps the invariant |
| TinyLfuRuns.Run | client/smart_cache/w_tinylfu.cpp:98-295 | in every run from the constructor, with absent data and failed allocations included, queues are duplicate-free, disjoint and hold exactly the entries by tag, sizes add up, Protected is within its capacity, and the count within the cache's |
| TinyLfuRuns.DataIsLegal | client/smart_cache/w_tinylfu.cpp:98-108 | runs whose Puts all bring data of the given size are always allowed |
| TinyLfuRuns.RunIsFifo | client/smart_cache/w_tinylfu.cpp:114-260 | every run keeps Probation and Protected empty and refines a FIFO of resident keys: each victim is the earliest inserted, whatever hits occurred |
| TinyLfuCounts.TrimmedIsSuffix | client/smart_cache/w_tinylfu.cpp:110-112 | making room leaves the latest capacity - 1 keys |
| TinyLfuCounts.RunCounts | client/smart_cache/w_tinylfu.cpp:98-172 | over every run hits, misses and insertions are those of the queue of resident keys, and the filter remembers exactly the Puts and the hits |
| TinyLfuCounts.OverwrittenBytes | client/smart_cache/w_tinylfu.cpp:104-106 | overwriting a resident block replaces its first bytes by the new ones, as many as there are, and keeps the rest |
| TinyLfuRuns.ResidentIsLatest | client/smart_cache/w_tinylfu.cpp:98-169 | if all Puts of a key have one size, its resident block, if it holds data, holds that of the latest of them, and it holds data if each of them brought some and found memory |
| TinyLfuRuns.Conservation | client/smart_cache/w_tinylfu.cpp:98-295 | inserts equal resident plus evicted plus removed plus cleared entries |
| TinyLfuCache.WTinyLfuCache.constructor | client/smart_cache/w_tinylfu.cpp:74-92 | an empty valid cache; each share of the capacity is at least one, and shares that leave a remainder add up to the capacity |
| TinyLfuCache.ShareOf | client/smart_cache/w_tinylfu.cpp:80-82 | a share that does not wrap is that many hundredths of the capacity, rounded down |
| TinyLfuCache.WTinyLfuCache.EvictOne | client/smart_cache/w_tinylfu.cpp:253-295 | finds a victim exactly when the cache is not empty, in the order window, probation, protected; for probation this is what the scan found |
| TinyLfuCache.WTinyLfuCache.LeastUsed | client/smart_cache/w_tinylfu.cpp:262-274 | the scan for an estimate below UINT32_MAX, with its early stop at zero, always finds one, and it is the first least used key: the filter's reset keeps every estimate below UINT32_MAX |
| TinyLfuCache.WTinyLfuCache.MakeRoom | client/smart_cache/w_tinylfu.cpp:110-112 | the eviction loop terminates with room for one entry or an empty cache |
| TinyLfuCache.WTinyLfuCache.Put | client/smart_cache/w_tinylfu.cpp:98-132 | overwrites as much as fits of a resident block, or makes room and inserts at the end of the window, with a copy of the data if there is memory for it |
| TinyLfuCache.WTinyLfuCache.Get | client/smart_cache/w_tinylfu.cpp:134-172 | reports hit and size, copies the block exactly if the buffer is large enough, and promotes a probation hit |
| TinyLfuCache.WTinyLfuCache.Promote | client/smart_cache/w_tinylfu.cpp:153-169 | the demotion loop moves at most the oldest protected key back to probation |
| TinyLfuCache.WTinyLfuCache.Remove | client/smart_cache/w_tinylfu.cpp:179-208 | erases the key from the queue its tag names and from the map |
| TinyLfuCache.WTinyLfuCache.Clear | client/smart_cache/w_tinylfu.cpp:210-220 | empties queues and map, keeps the statistics |
| NetMachine.PrimaryIndex | client/disk_runtime/network_state_machine.cpp:21-29 | the first primary server, or 0 if there is none |
| NetMachine.StepInv | client/disk_runtime/network_state_machine.cpp:18-229 | every call keeps the callback walk, the index range and the retry bound, and completes a recovery exactly when a heartbeat arrives in Recovering |
| NetMachine.RunInv | client/disk_runtime/network_state_machine.cpp:18-229 | every run's state changes chain along the fixed graph to the current state, Recovering is entered only right after a successful attempt, and recovery-complete fires once per heartbeat that ends a recovery |
| NetRuns.StaysConnected | client/disk_runtime/network_state_machine.cpp:42-197 | a machine started with servers stays connected as long as at every Tick a heartbeat or I/O was heard within the timeout |
| NetRuns.LeavesConnected | client/disk_runtime/network_state_machine.cpp:147-160 | the first Tick that comes later starts detecting |
| NetRuns.HeartbeatConnects | client/disk_runtime/network_state_machine.cpp:63-78 | I/O is allowed after a heartbeat exactly if the machine was neither disconnected nor offline, and it is then connected with counters reset |
| NetRuns.TimeoutsDisconnect | client/disk_runtime/network_state_machine.cpp:80-89 | two reported timeouts end I/O from every state, one alone does not |
| NetRuns.ErrorThenSilence | client/disk_runtime/network_state_machine.cpp:97-165 | after an I/O error a connected machine is disconnected by the first Tick after the timeout, or connected again by a heartbeat |
| NetRuns.Recovers | client/disk_runtime/network_state_machine.cpp:166-175 | after every run that ends in reconnecting, a due attempt that succeeds leads to recovering, and a heartbeat then allows I/O again |
| NetRuns.WayBack | client/disk_runtime/network_state_machine.cpp:63-217 | from disconnected: a Tick, a successful attempt after the least backoff and a heartbeat lead to connected, with exactly the callbacks of that way |
| NetRuns.WaitsForBackoff | client/disk_runtime/network_state_machine.cpp:166-168 | before the backoff has passed a Tick does nothing |
| NetRuns.RecoveryWaits | client/disk_runtime/network_state_machine.cpp:190-196 | without a heartbeat recovering lasts through every run until the recovery timeout, and the next Tick disconnects |
| NetRuns.StaysStopped | client/disk_runtime/network_state_machine.cpp:57-61 | a stopped machine stays offline and reports nothing in every run without a start |
| NetRuns.SelectsPrimary | client/disk_runtime/network_state_machine.cpp:18-30 | the selected server is the first primary one, or the first |
| NetRuns.PendingIsOutstanding | client/disk_runtime/network_state_machine.cpp:91-106 | over every run of fewer than 2^32 calls the pending count is the number of errors not made up for by successes |
| NetTiming.CutOff | client/disk_runtime/network_state_machine.cpp:80-211 | a running machine that hears nothing after t0 refuses I/O at every time later than t0 + 2 (timeout + d), the timeout taken to the end of its last millisecond, if the last Tick is never more than d old |
| NetTiming.BackoffIsPower | client/disk_runtime/network_state_machine.cpp:231-241 | after j failures the wait is min 2^j, at most max |
| NetMachine.SmallDoubles | client/disk_runtime/network_state_machine.cpp:231-241 | with backoffs up to 2^31 ms no number of doublings leaves 32 bits |
| NetTiming.EpisodeRun | client/disk_runtime/network_state_machine.cpp:166-241 | with two or more servers, the k-th failing attempt goes to server (start + k / M) mod n, attempts at one server after its j-th failure are at least the j-th backoff apart, and the machine stays in Reconnecting |
| NetTiming.AloneRun | client/disk_runtime/network_state_machine.cpp:166-221 | with one server, exactly the M-th failure takes the machine offline |
| NetworkStateMachine.StateMachine.SetServers | client/disk_runtime/network_state_machine.cpp:18-30 | selects the first primary server, or the first |
| NetworkStateMachine.StateMachine.TransitionTo | client/disk_runtime/network_state_machine.cpp:199-211 | a change to another state restarts its timers and is reported; a change to the same state does nothing |
| NetworkStateMachine.StateMachine.Start | client/disk_runtime/network_state_machine.cpp:42-55 | Connected with servers, Offline without; like every handler it keeps the callback walk, the index range and the retry bound |
| NetworkStateMachine.StateMachine.Stop | client/disk_runtime/network_state_machine.cpp:57-61 | goes Offline and stops ticking |
| NetworkStateMachine.StateMachine.OnHeartbeatSuccess | client/disk_runtime/network_state_machine.cpp:63-78 | back to Connected from Detecting, Reconnecting and Recovering, with recovery reported only from the last |
| NetworkStateMachine.StateMachine.OnHeartbeatTimeout | client/disk_runtime/network_state_machine.cpp:80-89 | one step from Connected or Detecting towards Disconnected |
| NetworkStateMachine.StateMachine.OnIoSuccess | client/disk_runtime/network_state_machine.cpp:91-95 | counts down pending I/O and counts as a heartbeat |
| NetworkStateMachine.StateMachine.OnIoError | client/disk_runtime/network_state_machine.cpp:97-106 | counts up pending I/O and starts detecting |
| NetworkStateMachine.StateMachine.Tick | client/disk_runtime/network_state_machine.cpp:147-197 | acts on the expired timer of the current state |
| NetworkStateMachine.StateMachine.TryServer | client/disk_runtime/network_state_machine.cpp:169-189 | one attempt: recover, back off, switch server or go offline |
| NetworkStateMachine.StateMachine.TryNextServer | client/disk_runtime/network_state_machine.cpp:219-229 | the next index round the list, exactly if there are two servers |
| NetworkStateMachine.StateMachine.ComputeBackoff | client/disk_runtime/network_state_machine.cpp:231-241 | the doubling loop, for every configuration whose doublings stay in 32 bits |
| L3Cache.KeptIsLongest | server/cache_engine/l3_ssd_cache.cpp:76-89 | eviction leaves exactly the longest most-recently-used prefix whose total is within the watermark |
| L3Cache.RunInv | server/cache_engine/l3_ssd_cache.cpp:18-89 | after every run blocks lie in order of last use, keys are distinct and the total is within the watermark |
| L3Cache.ResidentIsLatest | server/cache_engine/l3_ssd_cache.cpp:18-89 | after every run each resident block holds the data of the latest insertion of its key that took effect |
| L3Cache.InvalidateRemoves | server/cache_engine/l3_ssd_cache.cpp:60-74 | after every run invalidating a key leaves exactly the blocks of all other keys, in order |
| L3Cache.InsertTakesEffect | server/cache_engine/l3_ssd_cache.cpp:38-89 | after every run inserting an absent key puts its block in front of a prefix of the others if it fits the watermark, and empties the cache if it does not; a cached key is left alone |
| L3Cache.LookupReorders | server/cache_engine/l3_ssd_cache.cpp:18-36 | after every run a hit moves its block to the front and a miss changes nothing |
| L3Cache.L3SsdCache.Lookup | server/cache_engine/l3_ssd_cache.cpp:18-36 | a hit returns the block and moves its node to the front; list, node map and blocks stay in step |
| L3Cache.L3SsdCache.Insert | server/cache_engine/l3_ssd_cache.cpp:38-58 | a new block goes to the front and the tail is evicted to the watermark; a cached key is left alone |
| L3Cache.L3SsdCache.EvictIfNeeded | server/cache_engine/l3_ssd_cache.cpp:76-89 | the loop ends within the watermark with the bytes accounted for |
| L3Cache.L3SsdCache.Invalidate | server/cache_engine/l3_ssd_cache.cpp:60-74 | takes out exactly that block from all three structures |
| DhcpOptions.ParseOptions | client/boot_agent/dhcp_client.cpp:222-239 | the loop terminates and returns what the step-by-step reading of the bytes gives |
| DhcpOptions.ParseInvertsEncoding | client/boot_agent/dhcp_client.cpp:222-239 | for codes 1 to 254, any padding and an end marker with any bytes behind it, exactly the encoded options come back (sections 2, 3.1 and 3.2 of RFC 2132) |
| DhcpOptions.CutInput | client/boot_agent/dhcp_client.cpp:222-239 | input cut at any byte yields exactly the options that fit whole |
| BootTrace.BootIoTrace.RecordEvent | client/common/hd_boot_trace.cpp:18-22 | the event joins the history; the last 65536 events are in their slots, also after the 32-bit counter has wrapped |
| BootTrace.BootIoTrace.GetEvents | client/common/hd_boot_trace.cpp:39-50 | returns min(events recorded modulo 2^32, max) events, each the newest in the slot that the wrapped subtraction finds |
| BootTrace.BootIoTrace.Reset | client/common/hd_boot_trace.cpp:52-55 | starts a new history |
| BootTrace.LastEvents | client/common/hd_boot_trace.cpp:39-50 | whenever min(events recorded modulo 2^32, max) is at most 65536: that many last events in order |
| BootTrace.Overrun | client/common/hd_boot_trace.cpp:39-50 | beyond 65536 the reader does not get the last events, so the bound is exact |
| ReplayRing.EntryRoundTrip | tools/replay_recorder/replay_recorder.h:29-37 | the 33-byte layout loses nothing |
| ReplayRing.EntryLayout | tools/replay_recorder/replay_recorder.h:29-37 | the offset of each field in the 33 bytes |
| ReplayRing.ReplayRingBuffer.Write | tools/replay_recorder/replay_recorder.cpp:79-109 | while active, write i lands in slot i modulo the number of slots, on any capacity, and stays for one round |
| ReplayRing.ReplayRingBuffer.GetAllEntries | tools/replay_recorder/replay_recorder.cpp:120-145 | the last min(writes, capacity / 33) entries, oldest first |
| ReplayRing.ReplayRingBuffer.FlushToFile | tools/replay_recorder/replay_recorder.cpp:147-197 | recording stops, and if there is anything to write and the file opens, header, entries and footer of exactly those entries are written |
| ReplayRing.FileLayout | tools/replay_recorder/replay_recorder.cpp:152-178 | the file byte by byte around its entries: header with its checksum, and footer with the checksum of all before it |
| ReplayRing.ReadsEntry | tools/replay_recorder/replay_recorder.cpp:124-142 | the position computed for the i-th read holds the i-th oldest entry still kept |
| ReplayRing.ReadsWholeEntries | tools/replay_recorder/replay_recorder.cpp:124-142 | the reader stays on whole entries exactly when 33 divides the capacity or nothing was overwritten |
| ReplayRing.ReadEntries | tools/replay_recorder/replay_recorder.cpp:327-351 | checks magic number and version and reads whole entries up to the count or the end |
| ReplayRing.ReadBackExact | tools/replay_recorder/replay_recorder.cpp:327-351 | from any bytes: nothing unless they begin with magic number and version, else the entry at each place up to the count or the end |
| ReplayRing.FileRoundTrip | tools/replay_recorder/replay_recorder.cpp:147-351 | a flushed file gives back its entries, and cut at any byte from 16 to its end, inside the footer too, exactly the entries that lie whole before the cut |
| Recovery7b.RetryHolds | driver/blk/blk_7b_recovery.c:34-59 | a retry call terminates under all flag changes, succeeds exactly if it ends in Normal, and keeps the invariant |
| Recovery7b.FallBackHolds | driver/blk/blk_7b_recovery.c:61-101 | the same for a fallback call, except exactly when a step that only moves on is driven in Normal or Halted |
| Recovery7b.EnterHolds | driver/blk/blk_7b_recovery.c:19-32 | entering recovery succeeds exactly if it ends in Normal |
| Recovery7b.RetrySucceeds | driver/blk/blk_7b_recovery.c:34-59 | a retry call succeeds exactly if one of the tries left of three finds block device and meta server ready; otherwise it has used them all and stands in fallback step 1 |
| Recovery7b.EnterSucceeds | driver/blk/blk_7b_recovery.c:19-59 | entering recovery succeeds exactly if one of three delays finds both ready |
| Recovery7b.FallBackSucceeds | driver/blk/blk_7b_recovery.c:61-101 | when a fallback call succeeds, halts or moves on, exactly, step by step |
| Recovery7b.HaltsWithoutHelp | driver/blk/blk_7b_recovery.c:19-122 | without any help, entering recovery and four fallback calls halt the system, and three do not |
| Recovery7b.RunHolds | driver/blk/blk_7b_recovery.c:19-122 | over every run RetryCount is at most 3, and Halted is reached only if since fallback was last entered step 1 saw no local meta and step 2 no network |
| Recovery7b.Record.EnterRecovery | driver/blk/blk_7b_recovery.c:19-32 | starts retrying from zero; keeps the retry bound, and succeeds exactly if it ends in Normal |
| Recovery7b.Record.ProcessRetry | driver/blk/blk_7b_recovery.c:34-59 | up to three delays, then fallback; keeps the retry bound, and succeeds exactly if it ends in Normal |
| Recovery7b.Record.ProcessFallback | driver/blk/blk_7b_recovery.c:61-101 | one fallback step, which may go back to retrying; keeps the retry bound and that the step stands for what was seen |
| Recovery7b.Record.ProcessRecovery | driver/blk/blk_7b_recovery.c:103-122 | halts; the endless halt loop is a final step |

## Left out

- WalEntry.Build: only payloads with 26 + length below 2^32, because the source computes the size in 32 bits, and only payloads that are present.
- WalEntry.CancelledDamage: a size sum that wraps below 4 is a status of its own (`ReadsOutside`), because the source then looks for the footer before its data.
- WalLog.ReadEntries: not for data in which an accepted length wraps, as in `WrappedIsAccepted`; there the parser copies about 4 GiB from behind the data. Logs written, torn or damaged as in the theorems above are never such data.
- WalManager.Manager.Open: only for a manager that is not open yet, on fresh files; reopening starts over at the same segment number without seeking, so nothing is claimed across sessions. Checkpoint files, `CrashReplay` and `Close` are not modelled.
- WalManager.Segment.WriteEntry: a write takes the whole entry or nothing; after a partial write later entries of that segment are unreachable.
- WalManager.Segment.ReadAllEntries: the read system call returns the whole file.
- BootMeta.Cache.Save: a write that fails half way is not modelled. Loading from the server is not modelled.
- TinyLfuCache.WTinyLfuCache.Put: on a resident key with data, non-empty data must be passed, as the copy demands; runs are those in which callers do so.
- TinyLfuRuns.ResidentIsLatest: says nothing for a key whose blocks vary in size; overwriting keeps the first size, so a longer block is cut and a shorter one keeps old bytes at its end.
- CountMinSketch.Sketch.Add: keys are numbers; the repository's hash sees them modulo 2^64.
- NetTiming.EpisodeRun: the first attempt after a switch of servers is not spaced, because the source does not restart its timer there.
- NetTiming.BackoffIsPower: the multiplier is the integer 2 and the minimum does not exceed the maximum.
- NetworkStateMachine.StateMachine.constructor: only configurations whose doublings stay in 32 bits; elsewhere the source converts a double that does not fit, which has no defined result. All three callbacks are set, and all clock readings of one call are the same.
- L3Cache.L3SsdCache.constructor: the watermark is a number of bytes, not a floating-point share of the capacity.
- ReplayRing.ReplayRingBuffer.constructor: capacities of 33 bytes to 2^31, so that 32-bit positions do not wrap.
- ReplayRing.ReplayRingBuffer.GetAllEntries: only where `ReadsWholeEntries` shows that whole entries are read; exactly elsewhere the source reads behind the end of its buffer. The default capacity of 64 MiB is not a multiple of 33, so this ends there with the first overwrite.
- ReplayRing.ReplayRingBuffer.FlushToFile: the two reserved bytes copied behind the 16-byte header buffer are not modelled.
- BootTrace.BootIoTrace.RecordEvent: two threads recording at once are not modelled.
- Recovery7b.Record.ProcessFallback: entry times and serial output are not modelled.
- Frame encoding and decoding, statistics and hit rates, the replay analysis reports, bootdiag, and L1 caches are out of scope.
- Sockets, DHCP requests, HTTP boot, drivers, services, deployment scripts and the console are I/O or user interface.
