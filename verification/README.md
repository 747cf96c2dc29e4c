# Model of the voltage recorder and of the block assembler

Two programs of the repository are modelled and proved about.

**The recorder (`full_custom`).** Three threads share two pools of buffers. The network thread packs datagrams
into batches. The worker sorts packets into a window of six blocks of 128 packet times, hands blocks over and
counts what is missing. The file thread writes blocks in order, waits a bounded number of times for a missing
one, and starts a new file at a gap. The converter then turns a recording into one file per antenna.

**The block assembler (`half_hashpipe`).** A thread keeps two working blocks over a ring of output blocks,
optionally hands copying to a queue of jobs with many workers, copies packets into blocks with strided or
transposing copies, and sizes blocks by powers of two.

## How it is organised

| files | what they hold |
|---|---|
| `DataFormats`, `Recording` | packet header, datagrams, recording header |
| `BufferPool`, `PoolProtocol`, `PoolFifo` | the buffer pool in memory; any number of threads on it; the pool as a queue |
| `UdpBatch` | the network thread's batches and the worker's reading of them |
| `Window`, `Worker` | the worker as functions on values, and in memory, each method equal to its function |
| `WindowLedger`, `OldestFirst`, `Overtaking`, `StartedSlots`, `LeavingBlocks`, `BlockContents`, `Reception` | what holds in every state of every run of the worker |
| `Arrivals`, `Departures` | from a packet of the received batches to its place in a block and back; runs on which the worker fails |
| `Writer`, `FilePipeline`, `Progress` | the file thread; worker, pool and file thread under every schedule; why the worker's wait ends |
| `Converter`, `EndToEnd` | the converter; from packet to byte of the final file |
| `JobQueue` | the packet job queue in memory, and boss and workers under every schedule |
| `WorkingBlocks`, `OutputRing` | the two working blocks and the packet account; the ring shared with the downstream thread |
| `BlockMatrix`, `PacketCopy`, `BlockCopies`, `HeapBlocks` | a block as a matrix of cells; the copying loops; whole blocks in any packet order; the strided copy's own addresses |
| `Sizing` | power-of-two sizing with 32-bit arithmetic |
| `Radix`, `Pieces` | mixed-radix arithmetic and sequences cut into equal pieces |

Code that changes things step by step is modelled by classes, arrays and loops (`BufferPool.Pool`,
`Worker.Worker`, `Writer.FileWriter`, `JobQueue.PacketJobQueue`, `WorkingBlocks.Assembler`, and the copying
loops of `Converter`, `PacketCopy` and `UdpBatch`). Each such method is equal to a function of its input or of the
old state, and the theorems are about those functions. Threads are state machines whose steps are the critical
sections; theorems hold after every finite run.

Where the code and its documentation differ, the code is followed:

- After a discontinuity the assembler's window starts one block after the packet's own block and the packet is
  dropped (`half_hashpipe/ata_volt_outer_thread.c:1551-1555`), not at the packet's block as the comment at 950-954 says.
- The packet number written in the header of the second and later files is never that of the file's first packet
  (`full_custom/file_thread.c:57`); `Writer.HeaderCorrectOnlyInFirstFile` states exactly
  when it is right, `Writer.HeaderFormula` what it is, and `Writer.SecondFileStartsLate` gives an input with a second file.
- The converter refuses recordings of four antennas (`full_custom/converter.c:144`) although the recorder makes
  them; `Recording.HeaderFileRoundTrip` states exactly when a header is read back.
- The test for older blocks does not survive a wrap of the 38-bit packet number
  (`full_custom/processing_thread.c:179-181`); `WindowLedger.EarlierTestIff` states exactly when it is right,
  `Departures.WrapIsMissed` gives a run that fails, and the theorems about age ask that no block so far has a number
  beyond the counter.
- A second packet for the same cell is counted again (`full_custom/processing_thread.c:134-144`);
  `Arrivals.MissingCountIff` states, over the received packets, exactly when the count is right, and
  `Departures.CopiesFillABlock` gives runs that fail.
- An order of `INT_MAX` is never found (`full_custom/common.c:71-74`); `PoolProtocol.ProtocolSafety` states, for
  orders of any size, exactly what is lost and when, and `PoolProtocol.HugeOrderIsLost` gives a run.

## Model

| member | source | states |
|---|---|---|
| `EndToEnd.PacketToFile` | full_custom/processing_thread.c:124-147 | In any reachable state of worker, pool and file thread with one file: packet i of batch b of the received batches, if it is accepted, its block is in the window when its batch arrives and is written, and no later packet repeats it, puts sample x, channel c and polarisation q at offset ((packet - packetStart)*16 + x)*nchans*512 + 2c + q of its antenna's 4-bit output. |
| `EndToEnd.SentToFile` | full_custom/udp_thread.c:36-89 | The same from the senders: packet number g of those sent, through the network thread's batches, the pool under any schedule, the worker, the file thread under any schedule and the converter. |
| `EndToEnd.MissingIsZero` | full_custom/processing_thread.c:161 | If no packet was received for an antenna, channel group and packet time of a written block while the block was in the window, those bytes of the output are zero. |
| `EndToEnd.FileConverts` | full_custom/converter.c:138-149 | The file of any session is opened by the converter, with its header and data intact, if and only if there are fewer than four antennas. |
| `EndToEnd.ConvertedSession` | full_custom/converter.c:138-203 | Converting the file of a session of fewer than four antennas gives the run's own antenna ids, channel counts and start, and for every antenna the output that the end-to-end theorems are about. |
| `EndToEnd.EveryByte` | full_custom/converter.c:39-66 | Each byte of each antenna's output, for every packet time, channel group, sample and byte of the line, is the byte of the last packet the block got for that cell, or zero; which packets a block got is Reception.ReceptionTheorem. |
| `EndToEnd.Layout` | full_custom/converter.c:46-50 | The worker's cell layout and the converter's index arithmetic compose: the named output offset reads the named byte of the named cell of the block. |
| `EndToEnd.PlanIsGood` | full_custom/processing_thread.c:149-193 | The worker's hand-overs have distinct orders below the pool's limit and block 1 among the first six, as the file thread needs. |
| `Worker.FirstBatchIsGood` | full_custom/processing_thread.c:94-122 | The table and start number taken from the first batch are valid for the run; the start is the block number of some packet of the batch, and none of the batch is older. |
| `Reception.ReceptionTheorem` | full_custom/processing_thread.c:124-193 | After every run, wrap or not: orders 1..next_order-1 split exactly into handed over once and held in one slot, packet numbers follow them modulo 2^38, every block has got exactly the packets of the run kept for it, in order of arrival, and packets received equal packets not kept plus packets in handed-over blocks plus packets in the window. |
| `Reception.PlaceLogged` | full_custom/processing_thread.c:132-145 | One packet is refused, falls outside the window, or goes into the block of its number and no other. |
| `Arrivals.ArrivedIsGot` | full_custom/processing_thread.c:141-143 | A received packet whose fate is block o is in block o, at the place given by the packets kept for o before it. |
| `Arrivals.GotFrom` | full_custom/processing_thread.c:141-143 | Every packet in a block is one of the run, received for that block. |
| `Arrivals.FateIff` | full_custom/processing_thread.c:127-140 | Without wrap a packet is kept for block o if and only if it is voltage data of an antenna in the table, its channel lies in the nchans groups of 256 from firstChan, its number lies in block o, and block o is in the window. |
| `Window.AcceptsIff` | full_custom/processing_thread.c:129-132 | The worker's test accepts exactly voltage packets of an antenna in the table with firstChan <= channel < firstChan + 256*nchans, and its indices are that antenna's and the channel's group. |
| `Arrivals.SameCellTwins` | full_custom/processing_thread.c:141 | Two packets of one block share a cell if and only if antenna, channel group and packet number agree. |
| `Arrivals.MissingCountIff` | full_custom/processing_thread.c:134-145 | A block's nToFull is the number of its unwritten cells if and only if no two packets received for it have the same antenna, channel group and packet number; so it is for all blocks when the run has no such pair. |
| `Departures.CopiesFillABlock` | full_custom/processing_thread.c:134-154 | For all parameters: one packet of the first block sent packetsPerBlock times makes the block leave as full, with nothing counted missing and all cells but one unwritten. |
| `OldestFirst.LedgerTheorem` | full_custom/processing_thread.c:60-74 | After every run orders 1..next_order-1 split exactly into handed over once and held in one slot, each slot's packet number is start + (order-1)*128, and no slot is older than the last packet number sent. |
| `OldestFirst.OldestFirstTheorem` | full_custom/processing_thread.c:149-193 | Every batch that hands over any block also hands over the lowest-order block of the window. |
| `OldestFirst.FirstHandOver` | full_custom/processing_thread.c:151-193 | Block 1 is among the first six blocks ever handed over. |
| `OldestFirst.AtMostSix` | full_custom/processing_thread.c:151-193 | A batch hands over at most one block per slot. |
| `StartedSlots.AtMostFourStarted` | full_custom/processing_thread.c:166-175 | After every run without wrap at most four of the six slots have got a packet: giving up the older half leaves room. |
| `LeavingBlocks.LeavesIff` | full_custom/processing_thread.c:149-193 | After every run without wrap whose last batch has packets: of the blocks in the window once its packets are placed, a block is handed over if and only if it is full, or given up; it is given up if, with more than four blocks started but not full, its order is below next_order (counting the full ones replaced) less 3, and otherwise if its packet number is below that of the last full slot in array order. |
| `LeavingBlocks.OnlyHeldLeave` | full_custom/processing_thread.c:149-193 | Nothing but blocks of that window is handed over with the batch. |
| `LeavingBlocks.EmptyBatch` | full_custom/processing_thread.c:90-93 | A batch without packets leaves the window alone. |
| `Overtaking.LeavesWithinSix` | full_custom/processing_thread.c:149-193 | A block still in the window has seen at most five batches that hand over something since it entered. |
| `Overtaking.OvertakingBound` | full_custom/processing_thread.c:149-193 | At most fifteen later blocks are ever handed over before a given one. |
| `WindowLedger.SendFullEffect` | full_custom/processing_thread.c:151-170 | The first loop hands over exactly the full slots, keeps the ledger, and leaves as last sent the last full slot in array order. |
| `WindowLedger.SendEarlierEffect` | full_custom/processing_thread.c:177-193 | The second loop hands over exactly the slots older than the last sent, although it reuses slots as it goes, and keeps the ledger. |
| `WindowLedger.EarlierTestIff` | full_custom/processing_thread.c:179-181 | The test for older data agrees with the circular order of packet numbers if and only if the last sent is 0 or no wrap lies between within half the range. |
| `Departures.WrapIsMissed` | full_custom/processing_thread.c:179-181 | A run of two batches from the start across the wrap, after which the lowest block of the window is circularly older than the last sent, fails the test, and is passed over by a batch that hands over a newer one. |
| `Window.ChanIndexIsFloor` | full_custom/processing_thread.c:130 | The unsigned 64-bit subtraction and division, stored in an int, give the floor of the true quotient; negative exactly for channels below the first. |
| `Window.CellInBlock` | full_custom/processing_thread.c:141 | Every accepted packet's cell lies inside the block. |
| `BlockContents.BooksTheorem` | full_custom/processing_thread.c:132-145 | Over every run, wrap or not: every slot and handed-over block contains exactly the packets it has got (those received for it, by Reception.ReceptionTheorem) in order over zeros, all of its own block number, nToFull is packetsPerBlock less their number, and packets received in handed-over blocks plus noMissing equal blocks handed over times packetsPerBlock. |
| `BlockContents.MissingIsUnwritten` | full_custom/processing_thread.c:143-154 | nToFull is the number of unwritten cells if and only if no two packets the block has got fell on one cell (over the received packets: Arrivals.MissingCountIff); then it is never negative and is zero exactly when every cell is written. |
| `BlockContents.ContentAt` | full_custom/processing_thread.c:141-142 | Each cell of a block carries the data of the last packet accepted for it, or zeros. |
| `Worker.TableTheorem` | full_custom/common.c:168-184 | The antenna table has distinct ids that were seen, claimed entries first; every antenna of the batch is in it unless it is full. |
| `Worker.UpdateAntenna` | full_custom/common.c:168-184 | The array becomes the table with the antenna claimed; the result tells known, added and no room apart. |
| `Worker.GetAntIndex` | full_custom/common.c:186-197 | Returns the antenna's first index, or -1 exactly when it is absent. |
| `Worker.ScanFirst` | full_custom/processing_thread.c:97-111 | Fills the antenna table from the whole batch and returns the block number of its lowest packet. |
| `Worker.Worker.FindStructIndex` | full_custom/processing_thread.c:205-216 | Returns the first slot with the packet number, or -1 when there is none. |
| `Worker.Worker.PlacePacket` | full_custom/processing_thread.c:126-146 | Changes slots exactly as the placement function does, for exactly the packets of Window.AcceptsIff: one cell and one count of one slot, or nothing. |
| `Worker.Worker.PlacePackets` | full_custom/processing_thread.c:124-147 | Places the whole batch in order. |
| `Worker.Worker.HandOver` | full_custom/processing_thread.c:157-164 | Hands the slot's block over and makes the slot the next zeroed block. |
| `Worker.Worker.CopyIntoSlot` | full_custom/processing_thread.c:141-143 | The offset computed in the loop is the packet's cell; only that cell, the count and the slot's log change. |
| `Worker.Worker.SendIfFull` | full_custom/processing_thread.c:154-169 | One round of the first loop equals the round on values. |
| `Worker.Worker.SendIfEarlier` | full_custom/processing_thread.c:179-192 | One round of the second loop equals the round on values, with its loss count. |
| `Worker.Worker.SendFullBlocks` | full_custom/processing_thread.c:150-170 | The first loop in memory equals the first loop on values, with its count of started slots. |
| `Worker.Worker.SendEarlierBlocks` | full_custom/processing_thread.c:177-193 | The second loop in memory equals the second loop on values. |
| `Worker.Worker.ProcessBatch` | full_custom/processing_thread.c:124-193 | One later pass of the main loop equals one turn of the window; LeavingBlocks.LeavesIff and Reception.ReceptionTheorem say which blocks that turn hands over and what it keeps; a batch without packets is skipped. |
| `Worker.FirstPass` | full_custom/processing_thread.c:88-193 | The first pass, with its scan and the window set up from it, leaves the window of the run of that one batch with the scanned parameters. |
| `BufferPool.FindEmpty` | full_custom/common.c:52-65 | The first slot marked empty, or -1 exactly when there is none. |
| `BufferPool.FindLowest` | full_custom/common.c:67-81 | A slot with the lowest positive order below INT_MAX, or -1 exactly when there is none. |
| `BufferPool.Pool.SearchEmpty` | full_custom/common.c:52-65 | The search loop finds that slot. |
| `BufferPool.Pool.SearchLowest` | full_custom/common.c:67-81 | The search loop finds that slot. |
| `BufferPool.Pool.FetchEmptyBuffer` | full_custom/common.c:83-96 | Marks the first empty slot as in use, or changes nothing and says so. |
| `BufferPool.Pool.ReturnBuffer` | full_custom/common.c:107-118 | Publishes order and data and counts the slot, when the slot was in use; otherwise reports the integrity error. |
| `BufferPool.Pool.ReturnEmptyBuffer` | full_custom/common.c:120-127 | Empties the slot when it was in use; otherwise reports the integrity error. |
| `BufferPool.Pool.PollToken` | full_custom/common.c:136-149 | Takes one token exactly when there is one. |
| `BufferPool.Pool.FetchLowest` | full_custom/common.c:153-165 | Delivers the lowest ready slot with its order and data and marks it in use. |
| `PoolProtocol.ProtocolSafety` | full_custom/common.c:83-166 | After any run of any number of threads, whatever the orders: each slot is empty, ready or held by exactly one thread, the integrity checks cannot fail, ready slots equal NReady plus fetchers between their locks plus the returner between its updates plus fetches that came back empty, and a fetch past the counter comes back empty if and only if every ready order is at least INT_MAX. |
| `PoolProtocol.SmallOrdersAreFound` | full_custom/common.c:67-81 | With orders below INT_MAX no fetch of any run comes back empty, and each gets the lowest ready order. |
| `PoolProtocol.StepBalance` | full_custom/common.c:107-166 | Every critical section keeps the balance, losing one token exactly at an empty fetch. |
| `PoolProtocol.StepInv` | full_custom/common.c:83-166 | Every critical section keeps ownership and the token balance. |
| `PoolProtocol.LowestExists` | full_custom/common.c:153-165 | A fetcher that took a token finds a ready slot of lowest order. |
| `PoolProtocol.HugeOrderIsLost` | full_custom/common.c:71-74 | A run from the empty pool: one thread posts order INT_MAX, its fetch comes back empty, and the slot stays ready with no token for it. |
| `PoolFifo.FifoStep` | full_custom/udp_thread.c:76-88 | With batches numbered 1, 2, 3, ... each pool step is an enqueue, a dequeue of the head, or nothing. |
| `PoolFifo.FifoRefinement` | full_custom/processing_thread.c:76-91 | Over any run what was delivered is a prefix of what was produced, in order, and exactly the rest waits in the pool, each batch in one slot. |
| `UdpBatch.FillBatch` | full_custom/udp_thread.c:48-87 | The buffer holds, end to end, the longest run of acceptable datagrams up to 160; the loop goes on exactly when none was refused; the buffer is returned once, and twice after a receive of length zero. |
| `UdpBatch.BatchIsWhole` | full_custom/udp_thread.c:54-69 | Every datagram of a batch, except possibly the very first of all, is a whole message, and a batch ends early only at a failure, an empty receive or another length. |
| `UdpBatch.ParseInverts` | full_custom/processing_thread.c:86-91 | The worker reads out of a batch exactly the messages put into it. |
| `UdpBatch.PostsIsProduces` | full_custom/udp_thread.c:48-88 | Filled from whole datagrams, batch after batch, the posted batches are the packets sent, 160 each, in order. |
| `UdpBatch.StreamReachesWorker` | full_custom/udp_thread.c:32-88 | Under any schedule of network thread and worker the packets the worker has read are the packets sent, in order, as far as it has come, and its batch b is packets 160b to 160b+159. |
| `DataFormats.HeaderRoundTrip` | full_custom/data_formats.h:47-57 | The header macros read back every packed (antenna, channel, packet, version), and the voltage bit. |
| `DataFormats.HeaderUnpacked` | full_custom/data_formats.h:47-57 | Packing what the macros read gives the header again. |
| `DataFormats.FilterPlusRest` | full_custom/data_formats.h:25-26 | Filter and rest are the only split of a packet number into a multiple of 128 and a remainder below 128. |
| `DataFormats.DatagramRoundTrip` | README.md:8-19 | Decoding a datagram gives back the packet it was made from. |
| `DataFormats.LeDigit` | full_custom/file_thread.c:99-103 | Byte i of a stored field is its i-th digit in base 256. |
| `DataFormats.BeDigit` | README.md:10 | In a datagram's header the same digits stand in the opposite order. |
| `Recording.HeaderFileRoundTrip` | full_custom/file_thread.c:97-105 | The converter's reads invert writeHeader and leave the data untouched if and only if there are fewer than four antennas; with four it reports too many. |
| `Recording.HeaderLayout` | full_custom/file_thread.c:97-105 | Where each field of the header lies, and its width. |
| `Writer.WriterSafety` | full_custom/file_thread.c:28-91 | For every sequence of fetched blocks the written orders strictly increase from 1 to lastOrd and every file holds consecutive orders with a gap before the next file. |
| `Writer.SkippedIsDiscarded` | full_custom/file_thread.c:36-47 | An order passed over is never written later, whatever arrives, and is discarded when it comes. |
| `Writer.OutcomeIff` | full_custom/file_thread.c:34-90 | Over every run a fetched order is discarded if and only if it is at most lastOrd; the next order is always written, into the current file if there is one; a later order is written, alone in a new file, if and only if something has been written and exactly 200 put-backs have happened since the last write, and is put back otherwise. |
| `Writer.BoundedPutBacks` | full_custom/file_thread.c:49-75 | nMisses is the number of put-backs since the last write, and at most 200 happen after the first write before the next. |
| `Writer.HeaderCorrectOnlyInFirstFile` | full_custom/file_thread.c:57 | The packet number in a file's header is that of its first block if and only if it is file 0. |
| `Writer.SecondFileStartsLate` | full_custom/file_thread.c:49-64 | When block 1 and then 201 times block 3 are fetched there are two files, and the second header's packet number is 127 after its first. |
| `Writer.HeaderFormula` | full_custom/file_thread.c:55-63 | In every run each file's header is the first one with packetStart raised, for each file after file 0 up to it, by 128 times that file's first order less one. |
| `Writer.HandleWritten` | full_custom/file_thread.c:80-90 | A pass adds its order at the end of the written ones exactly when it writes. |
| `Writer.FileWriter.HandleBlock` | full_custom/file_thread.c:34-90 | One pass in memory equals the pass on values, about which Writer.OutcomeIff speaks, with its outcome. |
| `FilePipeline.Conservation` | full_custom/file_thread.c:28-91 | In every reachable state of worker, pool and file thread each handed-over order is in exactly one of written, discarded, ready and in the writer's hands, nothing else is anywhere, and every file's bytes are its blocks' bytes as the worker handed them over. |
| `FilePipeline.StepKeeps` | full_custom/common.c:107-166 | Every step of either thread keeps that, and the writer's file invariants. |
| `Progress.WriterCanMove` | full_custom/file_thread.c:28-33 | While the worker waits and no buffer is empty, the writer's next step is possible. |
| `Progress.BlockedMove` | full_custom/file_thread.c:34-79 | Each such step empties a buffer or lowers a rank, and the worker's polling changes nothing. |
| `Progress.WaitIsBounded` | full_custom/processing_thread.c:159 | However polling and writer steps interleave, the writer makes no more steps than the rank while the wait lasts. |
| `Progress.WaitEnds` | full_custom/processing_thread.c:186 | A schedule that gives the writer more steps than a fixed number ends the worker's wait. |
| `Converter.ConvertIsPermutation` | full_custom/converter.c:39-66 | Input bytes correspond one to one to (antenna, offset) pairs, both ways, covering every output byte once. |
| `Converter.ConvertOne` | full_custom/converter.c:39-50 | The loops over channel groups and samples give antenna a's output byte for byte. |
| `Converter.Convert` | full_custom/converter.c:29-69 | All antennas' buffers are filled, the input is untouched. |
| `Converter.ConvertOne8` | full_custom/converter.c:52-63 | The 8-bit loops are the 4-bit form with each byte replaced by two, whatever the two are. |
| `Converter.ConvertEight` | full_custom/converter.c:52-63 | With the program's own two nibbles the output is the widened 4-bit output, and narrowing it gives the 4-bit output back. |
| `Converter.NibblesRoundTrip` | full_custom/converter.c:57-60 | The two bytes are the signed high and low nibble, and the byte can be rebuilt from them. |
| `Converter.WidenRoundTrip` | full_custom/converter.c:55-62 | The 4-bit output can be rebuilt from the 8-bit output. |
| `Converter.ConvertFile` | full_custom/converter.c:138-203 | A refused header is refused, a header with no antennas or no channels loops for ever, and any other file gives each antenna the stream of its chunks' outputs. |
| `Converter.ConvertData` | full_custom/converter.c:189-203 | Whole chunks are converted and appended until less than one is left. |
| `Converter.AntStreamAt` | full_custom/converter.c:189-203 | Byte x of chunk t of a stream is the byte the permutation names in chunk t of the data. |
| `JobQueue.QueueSafety` | half_hashpipe/ata_volt_outer_thread.c:571-665 | In every state of every run of one boss and any workers: num_queued is the ring distance, num_pending - num_queued the jobs in hands, jobs leave in push order and each is completed or in one worker's hands, num_pending is 0 if and only if all pushed jobs are completed, the boss never sleeps then, complete_job never meets a zero counter, and a push fails exactly when one entry is left. |
| `JobQueue.StepInv` | half_hashpipe/ata_volt_outer_thread.c:571-665 | Every critical section, with its wake-ups, keeps the invariant, including that no worker sleeps on a non-empty queue. |
| `JobQueue.WaitingBossProgress` | half_hashpipe/ata_volt_outer_thread.c:655-665 | While the boss waits some thread can move without a spurious wake-up. |
| `JobQueue.WaitingMoveRank` | half_hashpipe/ata_volt_outer_thread.c:571-665 | While the boss waits every move lowers a rank, except that a spurious wake-up raises it by one. |
| `JobQueue.WaitIsBounded` | half_hashpipe/ata_volt_outer_thread.c:655-665 | No run keeps the boss waiting for more steps than the rank at its start plus twice the spurious wake-ups in it. |
| `JobQueue.PushContents` | half_hashpipe/ata_volt_outer_thread.c:586-597 | A push appends to the queue's contents, wherever the ring stands. |
| `JobQueue.PopContents` | half_hashpipe/ata_volt_outer_thread.c:617-627 | A pop removes the oldest job. |
| `JobQueue.FullIff` | half_hashpipe/ata_volt_outer_thread.c:577-583 | The index test holds exactly at one job fewer than there are entries. |
| `JobQueue.PacketJobQueue.Push` | half_hashpipe/ata_volt_outer_thread.c:571-603 | Fails exactly when full and then changes nothing; otherwise appends the job. |
| `JobQueue.PacketJobQueue.Pop` | half_hashpipe/ata_volt_outer_thread.c:606-629 | Returns the oldest job and leaves the rest. |
| `JobQueue.PacketJobQueue.Complete` | half_hashpipe/ata_volt_outer_thread.c:634-651 | Counts down and signals exactly at zero; the contents stay. |
| `WorkingBlocks.AssemblerTheorem` | half_hashpipe/ata_volt_outer_thread.c:1512-1634 | After every packet sequence the two block numbers are consecutive, finalized numbers are consecutive between reinits, every finalized, abandoned or working block counts exactly the packets whose fate is that block, npacket + ndrop = pkts_per_block if and only if npacket is at most that, every packet is exactly one of late, trigger or counted in one block, and ndrop_total plus what was flushed is the sum of drops. |
| `WorkingBlocks.BlockOfIff` | half_hashpipe/ata_volt_outer_thread.c:1433-1434 | A packet is of block n if and only if its index is one of the pktidx_per_block from n*pktidx_per_block on. |
| `WorkingBlocks.FinalCounts` | half_hashpipe/ata_volt_outer_thread.c:1512-1634 | A finalized block has counted exactly the packets with an index in its range that came in its epoch while it was in the window or next. |
| `WorkingBlocks.FlushIff` | half_hashpipe/ata_volt_outer_thread.c:1452-1510 | Both counters move to the status buffer exactly at the first index of a block that was not the last one reported; then they count only what the packet itself brought. |
| `WorkingBlocks.RingSlots` | half_hashpipe/ata_volt_outer_thread.c:183-204 | The k-th finalized block lies in ring slot k mod n_block, across reinits, and the working blocks in the next two. |
| `WorkingBlocks.FinalsDistinct` | half_hashpipe/ata_volt_outer_thread.c:1513-1535 | Between reinits the numbers of the i-th and j-th finalized blocks differ by j - i. |
| `WorkingBlocks.IndexInRange` | half_hashpipe/ata_volt_outer_thread.c:1590-1596 | After management the packet's index is -1, 0 or 1, and -1 exactly for late packets and triggers. |
| `WorkingBlocks.Assembler.HandlePacket` | half_hashpipe/ata_volt_outer_thread.c:1432-1634 | One packet in memory equals one step on values, for the block of WorkingBlocks.BlockOfIff. |
| `WorkingBlocks.Assembler.AdvanceBlocks` | half_hashpipe/ata_volt_outer_thread.c:1523-1533 | Finalize, shift and increment in memory equal the advance on values. |
| `WorkingBlocks.Assembler.ReinitBlocks` | half_hashpipe/ata_volt_outer_thread.c:1551-1555 | Both blocks are renumbered after the packet's block and reset; ring indices stay. |
| `WorkingBlocks.Assembler.FlushCounters` | half_hashpipe/ata_volt_outer_thread.c:1452-1510 | At a new first packet index both counters move to the status buffer, otherwise nothing changes. |
| `WorkingBlocks.Assembler.HandlePackets` | half_hashpipe/ata_volt_outer_thread.c:1381-1636 | An input block's packets in order equal that many steps. |
| `OutputRing.NoOverrun` | half_hashpipe/ata_volt_outer_thread.c:1523-1535 | Under any interleaving with the downstream thread no filled block is written or finalized again, blocks are taken in the order they were finalized, and the wait for a free block is never a deadlock. |
| `OutputRing.PacketInv` | half_hashpipe/ata_volt_outer_thread.c:154-181 | A packet keeps: the filled slots are exactly those of blocks finalized and not yet taken. |
| `Sizing.CalcNtimePerBlock` | half_hashpipe/hpguppi_params.c:474-488 | For all int arguments whose quotient is at least 1 the shift loop returns prevpow2 of the quotient, at most the quotient and more than half of it. |
| `Sizing.ShiftLoopEnds` | half_hashpipe/hpguppi_params.c:481-484 | The shift loop ever reaches 1 if and only if the quotient is at least 1. |
| `Sizing.PrevPow2Is` | half_hashpipe/hpguppi_mkfeng.h:235-240 | The shift by the leading zero count gives the largest power of two up to x, and 0 exactly for 0. |
| `Sizing.BlockSizing` | half_hashpipe/hpguppi_mkfeng.h:341-392 | Without 32-bit overflow the effective block is nchan rows of ntime 4-byte samples, at most block_size, and more than half of it if and only if the quotient is at least 1. |
| `Sizing.PiperblkIsPow2` | half_hashpipe/hpguppi_mkfeng.h:341-347 | With a quotient of at least 1 the packet indices per block are a power of two, at most the quotient and more than half of it. |
| `Sizing.NtimeIsPow2` | half_hashpipe/hpguppi_mkfeng.h:362-367 | The time samples of a block are a power of two whenever those of a heap are. |
| `PacketCopy.CopyStrided` | half_hashpipe/ata_volt_outer_thread.c:354-374 | The pointer loop writes the packet's row pieces down one column and nothing else. |
| `PacketCopy.SampPerPacketIs` | half_hashpipe/hpguppi_udp.c:248-251 | samp_per_packet is the one number of whole samples of all channels that the data hold. |
| `PacketCopy.TransposeByChannel` | half_hashpipe/hpguppi_udp.c:295-306 | The cache-friendly loops write the packet's transposed band and nothing else. |
| `PacketCopy.TransposeBySample` | half_hashpipe/hpguppi_udp.c:283-293 | The earlier loops write the same. |
| `BlockCopies.CopiesAgree` | half_hashpipe/hpguppi_udp.c:283-306 | Two results of the same copy are equal byte for byte, so both loop orders agree for all sizes. |
| `HeapBlocks.CopyPacketData` | half_hashpipe/ata_volt_outer_thread.c:315-374 | With the program's own slot, row and stride arithmetic the packet's cells, all inside the effective block, are written and nothing else. |
| `HeapBlocks.RowsFit` | half_hashpipe/hpguppi_mkfeng.h:306-320 | The rows of a packet of a known antenna lie below nants * nstrm * hnchan. |
| `HeapBlocks.RowIs` | half_hashpipe/hpguppi_mkfeng.h:306-320 | The first row is antenna times channels per antenna plus the packet's first channel. |
| `HeapBlocks.SlotIs` | half_hashpipe/ata_volt_outer_thread.c:331-332 | The slot is the packet index counted from the first of its block. |
| `HeapBlocks.SameBlock` | half_hashpipe/ata_volt_outer_thread.c:331-332 | The block a packet is copied for is the one it is counted in. |
| `HeapBlocks.PktIdxIff` | half_hashpipe/hpguppi_mkfeng.h:272-284 | The packet index counts whole heaps of hclocks cycles. |
| `HeapBlocks.FirstChanIff` | half_hashpipe/ata_volt_outer_thread.c:364-366 | The packet's first channel is that of its heap plus the whole row pieces in its heap offset. |
| `HeapBlocks.HeapsOverlapIff` | half_hashpipe/ata_volt_outer_thread.c:331-366 | Two packets of one block, at the addresses the program computes, write a common cell if and only if packet index and antenna agree and they share a channel. |
| `BlockCopies.OrderDoesNotMatter` | half_hashpipe/ata_volt_outer_thread.c:315-378 | Packets that do not overlap, copied in another order or some again, leave the same block. |
| `HeapBlocks.AllHeapsMakeTheBlock` | half_hashpipe/ata_volt_outer_thread.c:315-378 | If every antenna's every channel piece has come for every packet index of a block, the packets, copied in any order and possibly repeated, leave in the effective block the time series of every channel of every antenna, one row after the other. |
| `BlockCopies.StridedBlock` | half_hashpipe/ata_volt_outer_thread.c:368-374 | Columns of row pieces that cover a matrix of time series, copied in any order, make it up. |
| `BlockCopies.TransposedBlock` | half_hashpipe/hpguppi_udp.c:244-306 | All packets of a block, of any length, with the routine's own samples per packet, copied in any order, leave the transpose of their concatenated whole samples. |

## Left out

- Sockets, file descriptors, signals, sleeps, memory locking and thread start-up: received datagrams and written bytes are sequences, and a wait is a step that is not yet possible.
- Shutdown: the worker returns its six blocks without writing them and the file thread may leave first, so no theorem says that everything is drained; `anyBufFull` is not modelled.
- A receive of length zero returns the same buffer twice; UdpBatch.FillBatch says so, and the pool's theorems are about threads that return what they hold once.
- UdpBatch.StreamReachesWorker: is about senders whose datagrams all have the full 8200 bytes, the first included, because the length of the first one is not checked by the code.
- Pool buffers are values: that a thread keeps no pointer into a buffer it has returned is not modelled.
- Worker.Worker.HandOver: the pool calls of the hand-over are modelled in FilePipeline, not in the class; `sent` lists the blocks given to returnBuffer.
- lastSentPacketNo can be read before it is set; its start value is taken to be the start packet number.
- OldestFirst.LedgerTheorem: asks that no block so far has a number beyond the 38-bit counter, because packet numbers as integers and the age of the window are wrong past it; the split of orders and everything about contents is in Reception.ReceptionTheorem without that.
- Counters of the recorder (orders, packetStart, nMisses, noMissing) are unbounded; orders are below INT_MAX where the pool is involved.
- Progress.WaitEnds: fairness is a hypothesis, stated as enough writer steps in the schedule.
- Text files and the extra header file that the converter writes.
- The copying loop of the job worker is compiled out in the source; the queue's theorems are about jobs as values.
- WorkingBlocks.AssemblerTheorem: pkts_per_block is the same for all blocks of a run, and block and packet counters are unbounded.
- HeapBlocks.CopyPacketData: asks for a payload of whole row pieces, as the source's own note does, and for a channel at or after schan.
- The MeerKAT formulas are used for the assembler's geometry, since the file that includes them is only half moved to the new telescope.
- Sizing.CalcNtimePerBlock: 4 * obsnchan stays inside an int; a quotient below 1, where the loop never ends, is in ShiftLoopEnds.
- Plain packet copies, the s6 copies, the packet parsers, check_start_stop, the status buffer, rate statistics, the databuf wrappers and everything in half_hashpipe about time, astronomy and file formats.
