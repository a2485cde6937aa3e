# Lidar data path: state machines and array algorithms

This project models the parts of the lidar SDK, its ROS driver and the perception nodes that carry the data, and
proves what they promise over all inputs and all interleavings:

- `CpQueue`, `ConsumerProducer`, `ConsumerProducerRuns`, `ConsumerProducerProofs`, `ConsumerProducerExact`,
  `ConsumerProducerOutcomes`: the two-priority worker queue. The ring and the sections run under the mutex are classes;
  runs are sequences of events in which each locked section is one step and each call of the consume function, made
  outside the lock, is another, with any number of producer calls and workers.
- `Misorder`, `MisorderProofs`: the correction of packets that arrive out of order.
- `Getopt`: the in-place exchange of two argument blocks by following cycles.
- `Pcap`, `PcapFormats`, `PcapProofs`: replay of a packet capture, IPv4 fragment reassembly joined to a
  byte-stream reader.
- `SeqStats`: extension of a 16-bit counter to 64 bits and the loss statistics.
- `Replay`, `ReplayOutcomes`: packet mode against frame mode in the driver.
- `RwLock`: the lock built on one mutex and two condition variables, with sleeping, woken and spuriously woken threads.
- `RawSaver`: the raw-data recorder, with receiver, flush thread and timer interleaved.
- `GridMap`, `Picking`, `PickingScores`: hole filling, removal of isolated cells and the choice of picking points.
- `AngleTable`, `Conversion`, `ConversionPoints`: table interpolation of angles, and the sphere-to-xyz conversion
  with its sizes.
- `Options`, `Sums`: an option type, sums over sequences and counts of distinct numbers.

Classes have the source's fields; each method that changes state is proved equal to a function on the abstract state,
and the theorems are about all runs of that function. So that a theorem cannot share an error with the function it
speaks of, each function is also tied to its inputs alone, with the numbers and formats written out: which calls drop
or block, what starts the correction anew, what a header's bytes mean, which packets a frame is made of, what reaches
the cache, which points a packet gives, what a score weighs. Integers are mathematical, with the source's widths
written out where they matter (`SeqStats`, `AngleTable`); heights and times are real numbers.

Where the code does not do what its comments or its purpose suggest, the model follows the code:

- `flush_and_pause` is commented as returning with the mutex locked
  (src/drivers/seyond_lidar/src/inno_sdk/src/utils/consumer_producer.cpp:324); its local lock releases it. A head that
  a producer discarded may still be on its way to the consume function when the flush returns, because it is counted
  as dropped before the call; `QuietAfterFlush` says exactly what may be unconsumed.
- `add_job_wait_done` is meant to return after its job is done. A discarded head also sets the finished id, so this
  holds in every run exactly in blocking mode: `WaitSoundIffBlocking`.
- The recorder's comment speaks of finding the smallest cached id
  (src/drivers/seyond_lidar/src/inno_sdk/src/sdk_client/raw_recorder.cpp:248); one pass advances the expected id by at
  most the number of cached packets, so it may take several.
- Packet mode is meant to replay as the frames that frame mode publishes. A table is first sent after twenty changes of
  frame, and only if the driver has one then, so packets that need a table are replayed without one until then:
  `ReplayExact`, `OwnTableExact`, `NoOwnTableExact` and the failing run `ShortRunDiffers`.
- Both driver modes drop the first packet of a run, and the last frame is never published.

## Model

| member | source | states |
|---|---|---|
| `ConsumerProducerProofs.JobsConserved` | src/drivers/seyond_lidar/src/inno_sdk/src/utils/consumer_producer.cpp:196-245 | in every reachable state, for each priority: jobs added = finished + dropped + queued + held by a worker |
| `ConsumerProducerProofs.ConsumedAtMostOnce` | src/drivers/seyond_lidar/src/inno_sdk/src/utils/consumer_producer.cpp:377-448 | over every interleaving no job is handed to the consume function twice, and only submitted jobs ever are |
| `ConsumerProducerProofs.ConsumedExactlyOnceWhenIdle` | src/drivers/seyond_lidar/src/inno_sdk/src/utils/consumer_producer.cpp:377-448 | with nothing queued, no worker busy and no producer at work, every submitted job (enqueued, given up or discarded) was consumed exactly once |
| `ConsumerProducerProofs.IdsLeaveInOrder` | src/drivers/seyond_lidar/src/inno_sdk/src/utils/consumer_producer.h:237-247 | the ring always holds the consecutive ids that follow those already taken or discarded, so ids leave as 1, 2, 3, ...; the ring stays within its size |
| `ConsumerProducerProofs.QuietAfterFlush` | src/drivers/seyond_lidar/src/inno_sdk/src/utils/consumer_producer.cpp:303-326 | from the moment a flush leaves its loop until resume: both rings empty, no worker holds a job, all accepted jobs accounted for, and every job not yet consumed is in its own caller's or a discarding producer's hands |
| `ConsumerProducerProofs.FlushTestExact` | src/drivers/seyond_lidar/src/inno_sdk/src/utils/consumer_producer.cpp:309-323 | in every reachable state the loop test holds if and only if nothing is queued and no worker is busy; otherwise added is the larger side, as the source asserts |
| `ConsumerProducerProofs.ShutdownDrains` | src/drivers/seyond_lidar/src/inno_sdk/src/utils/consumer_producer.cpp:450-481 | when all workers have left, no producer is alive and none enqueued after shutdown, shutdown is set, both rings are empty and every job was consumed exactly once |
| `ConsumerProducerProofs.RunHolds` | src/drivers/seyond_lidar/src/inno_sdk/src/utils/consumer_producer.cpp:354-481 | the invariant of all runs: conservation, ring order, one place per job, clean exits, quiet after flush, turn-taking with one worker |
| `ConsumerProducerRuns.StepMoves` | src/drivers/seyond_lidar/src/inno_sdk/src/utils/consumer_producer.cpp:354-448 | any event changes a lane by at most one enqueue, give-up, head drop, take or completion, matching the change in busy workers |
| `ConsumerProducerRuns.PlacesStep` | src/drivers/seyond_lidar/src/inno_sdk/src/utils/consumer_producer.cpp:399-419 | any event keeps every job in exactly one place: consumed, queued, with a worker, with a discarding producer, or with its caller |
| `ConsumerProducerRuns.GenuineStep` | src/drivers/seyond_lidar/src/inno_sdk/src/utils/consumer_producer.cpp:426-434 | any event keeps queued and held jobs identical to what their caller submitted, under the id it was given; only discardable low-priority jobs are dropped |
| `ConsumerProducerRuns.SectionsAgree` | src/drivers/seyond_lidar/src/inno_sdk/src/utils/consumer_producer.cpp:378-437 | the steps of the runs change the protected state as the sections proved for the class do |
| `ConsumerProducerExact.WaitEndsAfterJob` | src/drivers/seyond_lidar/src/inno_sdk/src/utils/consumer_producer.cpp:337-351 | one worker, no low-priority head discarded so far: add_job_wait_done can only leave its loop after its own job was consumed |
| `ConsumerProducerExact.FinishedIdNeverDecreases` | src/drivers/seyond_lidar/src/inno_sdk/src/utils/consumer_producer.cpp:226 | under the same conditions no event lowers the finished id of a priority |
| `ConsumerProducerExact.DiscardEndsWaitEarly` | src/drivers/seyond_lidar/src/inno_sdk/src/utils/consumer_producer.cpp:410-418 | a reachable state, for every non-blocking configuration with one worker, in which the wait may end while the awaited job is still unconsumed |
| `ConsumerProducerExact.WaitSoundIffBlocking` | src/drivers/seyond_lidar/src/inno_sdk/src/utils/consumer_producer.cpp:337-351 | add_job_wait_done keeps its promise in every run if and only if the queue is configured in blocking mode |
| `ConsumerProducerExact.NeverBackIffBlocking` | src/drivers/seyond_lidar/src/inno_sdk/src/utils/consumer_producer.cpp:196-245 | with workers running, no event of any run lowers a finished id if and only if there is a single worker and the queue is in blocking mode |
| `ConsumerProducerExact.FinishGoesBack` | src/drivers/seyond_lidar/src/inno_sdk/src/utils/consumer_producer.cpp:226 | one worker, not blocking: a reachable state from which finishing a job takes the finished id back |
| `ConsumerProducerExact.TwoWorkersGoBack` | src/drivers/seyond_lidar/src/inno_sdk/src/utils/consumer_producer.cpp:226 | two workers, any mode: the second job finished before the first takes the finished id back |
| `ConsumerProducerExact.LongQueueLosesPreference` | src/drivers/seyond_lidar/src/inno_sdk/src/utils/consumer_producer.cpp:206-214 | a reachable state in which a job that may not be discarded was consumed with prefer = false, for every queue longer than the preferred size |
| `ConsumerProducerExact.PreferenceKeptIffSizes` | src/drivers/seyond_lidar/src/inno_sdk/src/utils/consumer_producer.cpp:206-214 | a high-priority or non-discardable job is never consumed with prefer = false if and only if the preferred size reaches the queue size |
| `ConsumerProducerOutcomes.AttemptDecides` | src/drivers/seyond_lidar/src/inno_sdk/src/utils/consumer_producer.cpp:378-437 | a producer's pass in every reachable state: it enqueues exactly when there is room and no pause; at a full ring it blocks exactly when it is of high priority, may not be discarded or no preferred size was given; otherwise it gives its own job up exactly when the oldest may not be discarded, and discards the oldest exactly when that one may |
| `ConsumerProducerOutcomes.FetchDecides` | src/drivers/seyond_lidar/src/inno_sdk/src/utils/consumer_producer.cpp:450-481 | a worker's pass: the oldest high-priority job, always preferred; without one the oldest low-priority job, preferred up to the preferred size; without either it leaves exactly after shutdown |
| `ConsumerProducerOutcomes.NeverDropsIffBlocking` | src/drivers/seyond_lidar/src/inno_sdk/src/utils/consumer_producer.cpp:375-418 | with a ring of positive size: no run drops or gives up a job if and only if no preferred size was given (blocking mode) |
| `ConsumerProducerOutcomes.HighNeverDropped` | src/drivers/seyond_lidar/src/inno_sdk/src/utils/consumer_producer.cpp:389-395 | no run drops a high-priority job, whatever the configuration |
| `ConsumerProducerOutcomes.FullRingDrops` | src/drivers/seyond_lidar/src/inno_sdk/src/utils/consumer_producer.cpp:396-417 | one more job meets the full low-priority ring: for every configuration with a preferred size, a reachable state in which a job has been dropped |
| `ConsumerProducerOutcomes.CountersCountTheLog` | src/drivers/seyond_lidar/src/inno_sdk/src/utils/consumer_producer.cpp:216-227 | over every run the finished and dropped counters together count the calls of the consume function, finished with prefer = true and dropped with prefer = false, except for work still to be done or recorded |
| `ConsumerProducerOutcomes.ReturnCodes` | src/drivers/seyond_lidar/src/inno_sdk/src/utils/consumer_producer.cpp:352-437 | the documented codes over all runs: 0 exactly for a call that never met a full ring, 1 exactly for one that did and had to wait for room, 2 exactly for one that gave up, 3 exactly for one that discarded to make room |
| `ConsumerProducerOutcomes.FinishEndsWait` | src/drivers/seyond_lidar/src/inno_sdk/src/utils/consumer_producer.cpp:346-349 | add_job_wait_done may leave as soon as the worker that ran its job has recorded it, with any number of workers |
| `ConsumerProducerOutcomes.WaitStaysOver` | src/drivers/seyond_lidar/src/inno_sdk/src/utils/consumer_producer.cpp:346-349 | with one worker and no discarded head it may leave from then on |
| `ConsumerProducerOutcomes.FlagsExact` | src/drivers/seyond_lidar/src/inno_sdk/src/utils/consumer_producer.cpp:258-335 | over every run the queue is paused exactly from a flush's beginning to the next resume, shut exactly from a shutdown on, and quiet exactly from a flush's end in the pause to the next resume |
| `ConsumerProducer.ConsumerProducer.constructor` | src/drivers/seyond_lidar/src/inno_sdk/src/utils/consumer_producer.cpp:117-164 | a new queue is empty, not paused, shut down, with all counters and ids 0 |
| `ConsumerProducer.ConsumerProducer.AddJobSection` | src/drivers/seyond_lidar/src/inno_sdk/src/utils/consumer_producer.cpp:378-437 | a producer's locked pass over the two rings and their counters refines the section function the runs use |
| `ConsumerProducer.ConsumerProducer.MakeRoom` | src/drivers/seyond_lidar/src/inno_sdk/src/utils/consumer_producer.cpp:396-417 | a full ring and no blocking: the new job is given up when the head may not be discarded, otherwise the head goes and its id counts as finished |
| `ConsumerProducer.ConsumerProducer.Enqueue` | src/drivers/seyond_lidar/src/inno_sdk/src/utils/consumer_producer.cpp:426-433 | the job goes to the end of its ring under the next id |
| `ConsumerProducer.ConsumerProducer.GetJobSection` | src/drivers/seyond_lidar/src/inno_sdk/src/utils/consumer_producer.cpp:450-481 | a worker's locked pass takes the oldest high-priority job, else the oldest low-priority one, with the length before the pop; else it leaves only on shutdown |
| `ConsumerProducer.ConsumerProducer.DoneJobSection` | src/drivers/seyond_lidar/src/inno_sdk/src/utils/consumer_producer.cpp:216-227 | completion counts as finished or dropped and records the finished id, of that priority only |
| `ConsumerProducer.ConsumerProducer.FlushDone` | src/drivers/seyond_lidar/src/inno_sdk/src/utils/consumer_producer.cpp:279-313 | the comparison of the three totals over both priorities |
| `ConsumerProducer.ConsumerProducer.Start` | src/drivers/seyond_lidar/src/inno_sdk/src/utils/consumer_producer.cpp:248-256 | opens the queue, counts the start and adds the configured number of workers to the threads; rings and counters stay |
| `ConsumerProducer.ConsumerProducer.Shutdown` | src/drivers/seyond_lidar/src/inno_sdk/src/utils/consumer_producer.cpp:258-277 | shuts the queue and leaves no thread; rings and counters stay |
| `ConsumerProducer.ConsumerProducer.SetPaused` | src/drivers/seyond_lidar/src/inno_sdk/src/utils/consumer_producer.cpp:303-335 | sets or clears the pause, changes nothing else |
| `CpQueue.CpQueue.constructor` | src/drivers/seyond_lidar/src/inno_sdk/src/utils/consumer_producer.h:64-95 | an empty ring |
| `CpQueue.CpQueue.Add` | src/drivers/seyond_lidar/src/inno_sdk/src/utils/consumer_producer.cpp:56-75 | head, tail, full, empty and count refine a bounded sequence: the job goes to its end |
| `CpQueue.CpQueue.Pop` | src/drivers/seyond_lidar/src/inno_sdk/src/utils/consumer_producer.cpp:77-115 | pop takes the oldest job, peek only shows it; both return the length before, 0 when empty |
| `MisorderProofs.RestoredIff` | src/drivers/seyond_lidar/src/inno_sdk/src/sdk_client/stage_client_read.cpp:269-345 | a gap-free stream that starts with its first packet is restored by an arrival order if and only if no packet finds ten others waiting for the awaited one, and none is more than ten frames after it; then nothing is freed and, once all have arrived, exactly the stream has been delivered |
| `MisorderProofs.EarlyBreaks` | src/drivers/seyond_lidar/src/inno_sdk/src/sdk_client/stage_client_read.cpp:290-296 | a packet that finds ten others waiting, or is too many frames early, makes something be delivered out of its place |
| `MisorderProofs.StreamRestored` | src/drivers/seyond_lidar/src/inno_sdk/src/sdk_client/stage_client_read.cpp:269-345 | so a stream whose packets overtake each other by at most ten places is restored: delivered as a prefix of itself at all times, nothing freed, no reset after the first, and delivered exactly once all have arrived |
| `MisorderProofs.TenPlacesAreTheLimit` | src/drivers/seyond_lidar/src/inno_sdk/src/sdk_client/stage_client_read.cpp:325-341 | one place further and it fails: of every gap-free stream whose second packet comes twelve places late something is delivered out of its place |
| `MisorderProofs.StartsAnewExactly` | src/drivers/seyond_lidar/src/inno_sdk/src/sdk_client/stage_client_read.cpp:289-300 | the correction starts anew exactly with the first packet, the first after a rewind, and one more than ten frames before or after the awaited frame: that packet is delivered at once and everything cached freed; every other packet frees nothing but itself at most |
| `MisorderProofs.LateIsFreed` | src/drivers/seyond_lidar/src/inno_sdk/src/sdk_client/stage_client_read.cpp:316-324 | a packet after its turn, of the awaited frame or at most ten before it, is freed and changes nothing else |
| `MisorderProofs.SkippedIsFreed` | src/drivers/seyond_lidar/src/inno_sdk/src/sdk_client/stage_client_read.cpp:316-330 | the packet passed over when the full queue forces another one out is, coming later and at most ten frames late, given back undelivered and changes nothing else |
| `MisorderProofs.DeliveriesInOrder` | src/drivers/seyond_lidar/src/inno_sdk/src/sdk_client/stage_client_read.cpp:269-345 | since the correction last started anew, by a first packet or one more than ten frames away: when the packets that arrived since belong to one stream, in any order and with any gaps, the keys delivered since strictly increase and every cached key is after the awaited one |
| `MisorderProofs.CachedSince` | src/drivers/seyond_lidar/src/inno_sdk/src/sdk_client/stage_client_read.cpp:290-295 | every cached packet arrived since the correction last started anew |
| `MisorderProofs.ReceiveInOrder` | src/drivers/seyond_lidar/src/inno_sdk/src/sdk_client/stage_client_read.cpp:297-342 | one call keeps delivered keys increasing and leaves only later keys cached |
| `MisorderProofs.EveryPacketTracked` | src/drivers/seyond_lidar/src/inno_sdk/src/sdk_client/stage_client_read.cpp:260-345 | in every run, with no assumption on the packets, arrived = delivered + cached + freed as multisets, and at most ten are cached |
| `MisorderProofs.ReceiveRestores` | src/drivers/seyond_lidar/src/inno_sdk/src/sdk_client/stage_client_read.cpp:297-342 | the awaited packet extends the restored prefix; another one that finds room and is near enough is cached in order |
| `MisorderProofs.DrainInOrder` | src/drivers/seyond_lidar/src/inno_sdk/src/sdk_client/stage_client_read.cpp:303-312 | draining keeps the order and stops before the first key that is not awaited |
| `Misorder.StageClientRead.AddDeliverPacketAfterCorrect` | src/drivers/seyond_lidar/src/inno_sdk/src/sdk_client/stage_client_read.cpp:269-345 | the method on the queue object refines the step function the run theorems are about, reset, skip and free branches included |
| `Misorder.StageClientRead.FreeCachedPacket` | src/drivers/seyond_lidar/src/inno_sdk/src/sdk_client/stage_client_read.cpp:260-267 | frees every cached packet in key order and delivers none |
| `Misorder.StageClientRead.SetFirstStep` | src/drivers/seyond_lidar/src/inno_sdk/src/sdk_client/stage_client_read.h:137-139 | sets or clears the first-step flag and nothing else |
| `Misorder.StageClientRead.DeliverExpected` | src/drivers/seyond_lidar/src/inno_sdk/src/sdk_client/stage_client_read.cpp:303-312 | delivers cached packets while the top is the awaited one |
| `Misorder.MisorderBufQueue.Push` | src/drivers/seyond_lidar/src/inno_sdk/src/sdk_client/stage_client_read.h:365-417 | the packet is added and the top remains least by (idx, sub_idx); the place among equal keys is open |
| `Misorder.MisorderBufQueue.Pop` | src/drivers/seyond_lidar/src/inno_sdk/src/sdk_client/stage_client_read.h:394-396 | removes the top and nothing else |
| `Getopt.PermuteArgs` | src/drivers/seyond_lidar/src/inno_sdk/src/utils/getopt_windows.h:157-189 | the block [start, end) and the block [end, opt_end) are exchanged in place, each keeping its order, everything outside untouched |
| `Getopt.MakePlan` | src/drivers/seyond_lidar/src/inno_sdk/src/utils/getopt_windows.h:166-188 | gcd-many cycles of length n / gcd, started at consecutive elements of the second block, partition all positions: every one is reached, none twice |
| `Getopt.OrbitOfRank` | src/drivers/seyond_lidar/src/inno_sdk/src/utils/getopt_windows.h:174-188 | every place of the reduced exchange is reached, at an explicitly given move |
| `Getopt.RankOfOrbit` | src/drivers/seyond_lidar/src/inno_sdk/src/utils/getopt_windows.h:174-188 | no place is reached by two different moves of one cycle |
| `Getopt.Move` | src/drivers/seyond_lidar/src/inno_sdk/src/utils/getopt_windows.h:177-187 | one swap settles the position it reaches and keeps the next element to place at the cycle's start |
| `Getopt.FollowCycle` | src/drivers/seyond_lidar/src/inno_sdk/src/utils/getopt_windows.h:177-187 | one inner loop settles exactly the positions of its cycle |
| `Getopt.ExchangedBack` | src/drivers/seyond_lidar/src/inno_sdk/src/utils/getopt_windows.h:157-161 | exchanging the blocks back restores the vector |
| `Getopt.SameArguments` | src/drivers/seyond_lidar/src/inno_sdk/src/utils/getopt_windows.h:157-161 | no argument is lost or doubled |
| `Getopt.Gcd` | src/drivers/seyond_lidar/src/inno_sdk/src/utils/getopt_windows.h:144-155 | Euclid's loop returns a positive common divisor that is an integer combination of both lengths |
| `Getopt.GcdIsGreatest` | src/drivers/seyond_lidar/src/inno_sdk/src/utils/getopt_windows.h:141-143 | such a number is a multiple of, and at least, every common divisor |
| `PcapProofs.CaptureReplaysPayloads` | src/drivers/seyond_lidar/src/inno_sdk/src/sdk_client/stage_client_read_pcap.cpp:122-278 | any interleaving of in-order fragment trains (section 3.2 of RFC 791), no two fragmented datagrams in progress sharing id mod 64, with whole datagrams and other frames at any time, yields the payloads of the datagrams sent to an accepted port, in completion order, each cut to its header's size, if and only if no accepted datagram claims more bytes than it carries |
| `PcapFormats.PortOfHeader` | src/drivers/seyond_lidar/src/inno_sdk/src/sdk_client/stage_client_read_pcap.h:91-96 | the port tested is the destination port that a UDP header in network order names second |
| `PcapFormats.StatedSize` | src/drivers/seyond_lidar/src/inno_sdk/src/sdk_client/stage_client_read_pcap.cpp:94-97 | a packet of 26 bytes or more is read up to the size stated least significant byte first in its bytes 10 to 13, if it is as long as that; otherwise, and when shorter than 26 bytes, as it is |
| `PcapProofs.PacketExact` | src/drivers/seyond_lidar/src/inno_sdk/src/sdk_client/stage_client_read_pcap.cpp:122-278 | for any capture at all, exactly which frames yield a packet and which bytes: an accepted whole datagram its payload; a fragment exactly when it completes those its slot keeps, their payloads joined; anything else nothing |
| `PcapProofs.CaptureExact` | src/drivers/seyond_lidar/src/inno_sdk/src/sdk_client/stage_client_read_pcap.cpp:213-275 | after any capture a slot holds what the fragments kept from the capture carry |
| `PcapProofs.ReadCapture` | src/drivers/seyond_lidar/src/inno_sdk/src/sdk_client/stage_client_read_pcap.cpp:65-102 | reading such a capture with any sequence of lengths: the pieces returned, none longer than asked, join to the beginning of the payloads, as far as the lengths reach |
| `PcapProofs.ReadAll` | src/drivers/seyond_lidar/src/inno_sdk/src/sdk_client/stage_client_read_pcap.cpp:65-102 | any sequence of reads hands out the stream without a gap, less than asked for only at its end |
| `Pcap.TrimmedIsCut` | src/drivers/seyond_lidar/src/inno_sdk/src/sdk_client/stage_client_read_pcap.cpp:88-97 | the length taken from the header cuts the packet exactly when it is no more than the packet has; otherwise bytes left over in the buffer follow |
| `PcapProofs.StreamFrom` | src/drivers/seyond_lidar/src/inno_sdk/src/sdk_client/stage_client_read_pcap.cpp:182-276 | the same from any state in which the slots hold the trains under way; when a header claims too much the bytes are strictly more |
| `PcapProofs.SharedSlotLosesBoth` | src/drivers/seyond_lidar/src/inno_sdk/src/sdk_client/stage_client_read_pcap.cpp:214-239 | why the ids must differ mod 64: a second fragmented datagram in the same slot makes the next piece of the first, and all either had collected, be thrown away |
| `PcapProofs.EveryPacketWhole` | src/drivers/seyond_lidar/src/inno_sdk/src/sdk_client/stage_client_read_pcap.cpp:122-278 | for any capture at all, with any losses, repeats and reordering: a packet is the payload of the whole datagram just captured, or the joined payloads of captured fragments of one id, in capture order, their offsets following on from each other from 0, the last one captured last and without more to follow |
| `PcapProofs.CaptureAccounted` | src/drivers/seyond_lidar/src/inno_sdk/src/sdk_client/stage_client_read_pcap.cpp:213-275 | after any capture each slot holds exactly what such a run of fragments, none of them the last of its datagram, carries, or nothing |
| `PcapProofs.FragmentCollected` | src/drivers/seyond_lidar/src/inno_sdk/src/sdk_client/stage_client_read_pcap.cpp:213-275 | exactly what a slot keeps after a fragment: a first one starts anew; another id empties it; one that does not follow on is ignored; one too long empties it; otherwise it is added, and completes a packet exactly when no more follow |
| `PcapProofs.SlotsAlwaysConsistent` | src/drivers/seyond_lidar/src/inno_sdk/src/sdk_client/stage_client_read_pcap.cpp:213-275 | for any capture at all, whenever a frame is fetched each slot has offset = len = 0 or offset = len + 8 |
| `PcapProofs.PieceFetched` | src/drivers/seyond_lidar/src/inno_sdk/src/sdk_client/stage_client_read_pcap.cpp:213-275 | what the next piece of a fragmented datagram does to its slot, to no other one, and when it completes the datagram |
| `PcapProofs.WholeFetched` | src/drivers/seyond_lidar/src/inno_sdk/src/sdk_client/stage_client_read_pcap.cpp:196-212 | a whole datagram yields its payload and touches no slot |
| `Pcap.PcapInput.ReadFd` | src/drivers/seyond_lidar/src/inno_sdk/src/sdk_client/stage_client_read_pcap.cpp:65-102 | the bytes returned are the next of the capture's stream, as many as asked for unless the capture ends; so any sequence of read lengths returns the stream piece by piece |
| `Pcap.PcapInput.ReadNextPacket` | src/drivers/seyond_lidar/src/inno_sdk/src/sdk_client/stage_client_read_pcap.cpp:122-278 | the next packet found and the rest of the capture make up the stream that was to come; at the end nothing was to come |
| `Pcap.PcapInput.ReadSome` | src/drivers/seyond_lidar/src/inno_sdk/src/sdk_client/stage_client_read_pcap.cpp:69-98 | one round of the read loop hands out a beginning of the stream and makes progress |
| `Pcap.PcapInput.MoveOn` | src/drivers/seyond_lidar/src/inno_sdk/src/sdk_client/stage_client_read_pcap.cpp:79-97 | leaving a packet read to its end for the next one loses no byte of the stream |
| `Pcap.PcapInput.TrimToHeader` | src/drivers/seyond_lidar/src/inno_sdk/src/sdk_client/stage_client_read_pcap.cpp:88-97 | the length of the packet becomes the size its header states |
| `Pcap.PcapInput.TakeFrame` | src/drivers/seyond_lidar/src/inno_sdk/src/sdk_client/stage_client_read_pcap.cpp:160-276 | one frame fills the buffers and yields a packet as the step function the stream is defined by |
| `Pcap.PcapInput.TakeFragment` | src/drivers/seyond_lidar/src/inno_sdk/src/sdk_client/stage_client_read_pcap.cpp:213-275 | one fragment in its slot: other id, wrong offset, repeated first fragment, too long, next and last |
| `Pcap.PcapInput.TakeWhole` | src/drivers/seyond_lidar/src/inno_sdk/src/sdk_client/stage_client_read_pcap.cpp:197-212 | a whole datagram in its own buffer |
| `Pcap.PcapInput.CopyCurrent` | src/drivers/seyond_lidar/src/inno_sdk/src/sdk_client/stage_client_read_pcap.cpp:69-77 | the next bytes of the current packet, at most as many as wanted |
| `Pcap.PcapInput.Release` | src/drivers/seyond_lidar/src/inno_sdk/src/sdk_client/stage_client_read_pcap.cpp:80-84 | the buffer read to its end is emptied and no byte of the stream lost |
| `SeqStats.RunTracksExtremes` | src/drivers/seyond_lidar/src/inno_sdk/src/sdk_common/inno_lidar_packet_utils.cpp:857-897 | over any run whose true counters stay in the window around the highest so far, highest and base are the true maximum and minimum and nothing underflows |
| `SeqStats.ExtensionExact` | src/drivers/seyond_lidar/src/inno_sdk/src/sdk_common/inno_lidar_packet_utils.cpp:864-894 | the true counter is recovered from its low 16 bits if and only if it lies in [H - 0x8000, H + 0x7FFF] |
| `SeqStats.ExtendedInWindow` | src/drivers/seyond_lidar/src/inno_sdk/src/sdk_common/inno_lidar_packet_utils.h:1056-1067 | the extension always lies in that window and has the packet's low bits; the newer test holds exactly when it exceeds the highest |
| `SeqStats.LossIsAFraction` | src/drivers/seyond_lidar/src/inno_sdk/src/sdk_common/inno_lidar_packet_utils.cpp:899-924 | with distinct counters the average loss fraction is in [0, 1) |
| `SeqStats.LossExact` | src/drivers/seyond_lidar/src/inno_sdk/src/sdk_common/inno_lidar_packet_utils.cpp:912-915 | with distinct counters the reported fraction of the packets sent between the lowest and the highest counter received is the number of counters in between that were not received |
| `SeqStats.ReceivedAtMostExpected` | src/drivers/seyond_lidar/src/inno_sdk/src/sdk_common/inno_lidar_packet_utils.h:1011-1013 | with distinct counters received <= highest - base + 1 |
| `SeqStats.InnoSummaryPackage.AverageLossFraction` | src/drivers/seyond_lidar/src/inno_sdk/src/sdk_common/inno_lidar_packet_utils.cpp:912-915 | the reported average; it is in [0, 1) as long as no more packets came than were expected |
| `SeqStats.InnoSummaryPackage.SetInitSeqNum` | src/drivers/seyond_lidar/src/inno_sdk/src/sdk_common/inno_lidar_packet_utils.cpp:926-930 | the first number starts at one whole cycle, for the highest and the base alike |
| `SeqStats.InnoSummaryPackage.InnoDataPacketReceiveStats` | src/drivers/seyond_lidar/src/inno_sdk/src/sdk_common/inno_lidar_packet_utils.cpp:857-897 | the method refines the statistics function of the run theorems, first packet included |
| `Replay.ReplayExact` | src/drivers/seyond_lidar/src/driver/driver_lidar.cc:494-537 | over all conversions: for every run, every aggregate number and every start, the frames (points and time stamps) replayed from the published scans are those frame mode publishes if and only if both drivers convert every published packet with the same angle table, or both without one |
| `ReplayOutcomes.FramesAreStretches` | src/drivers/seyond_lidar/src/driver/driver_lidar.cc:494-537 | frame mode publishes one frame for each change of frame index: the points of the packets of that stretch in order, the very first packet aside, transformed, with the start time of the packet that began the stretch |
| `ReplayOutcomes.ReplayedAreStretches` | src/drivers/seyond_lidar/src/driver/ros1_driver_adapter.hpp:97-148 | the replay of packet mode publishes the same stretches with its own tables, whatever the aggregate number |
| `ReplayOutcomes.TableIsFirstAnswer` | src/drivers/seyond_lidar/src/driver/driver_lidar.cc:504-513 | the driver's table is the one it starts with, otherwise the first answer to a compact packet after the first packet |
| `ReplayOutcomes.ChangesAreStarts` | src/drivers/seyond_lidar/src/driver/driver_lidar.cc:515-519 | the changes of frame counted are those of the arrivals' indices |
| `ReplayOutcomes.SentEveryTwenty` | src/drivers/seyond_lidar/src/driver/ros1_driver_adapter.hpp:120-145 | the table goes with a packet exactly when twenty changes of frame have come since it was last sent, or since the start |
| `Replay.ReplayEqualsDirect` | src/drivers/seyond_lidar/src/driver/driver_lidar.cc:494-537 | for one conversion: the frames are the same when each published packet gives the same points with the tables the two drivers convert it with |
| `Replay.OwnTableExact` | src/drivers/seyond_lidar/src/driver/ros1_driver_adapter.hpp:97-104 | a replaying driver with a table of its own, or one that takes none over, publishes the same frames if and only if frame mode converts every published packet with that very table |
| `Replay.NoOwnTableExact` | src/drivers/seyond_lidar/src/driver/ros1_driver_adapter.hpp:97-104 | without one of its own: if and only if a table has been sent by every published packet that frame mode converts with one |
| `Replay.SentIffReady` | src/drivers/seyond_lidar/src/driver/ros1_driver_adapter.hpp:140-145 | that is, for fewer than 2^32 changes of frame: the driver had a table in the frame that the twentieth change begins |
| `Replay.ShortRunDiffers` | src/drivers/seyond_lidar/src/driver/driver_lidar.cc:504-513 | a run on which the modes differ: three compact packets of frames 0, 0, 1, no table at first, and a lidar that answers with one |
| `Replay.ReplayIsFill` | src/drivers/seyond_lidar/src/driver/ros1_driver_adapter.hpp:97-148 | publishing and replaying a run is converting each packet with the table the replaying driver then has, whatever the scans |
| `Replay.TakesSentTable` | src/drivers/seyond_lidar/src/driver/ros1_driver_adapter.hpp:97-104 | a replaying driver without a table has the sender's from the first time one is sent, and none before |
| `Replay.SameTableReplays` | src/drivers/seyond_lidar/src/driver/ros1_driver_adapter.hpp:97-118 | drivers that start with the same table publish the same frames on every run |
| `Replay.TableSentIff` | src/drivers/seyond_lidar/src/driver/ros1_driver_adapter.hpp:140-145 | a table is ever sent along if and only if the driver had one in the frame the twentieth change of frame begins (fewer than 2^32 changes); one that gets it later sends none |
| `Replay.ScansSized` | src/drivers/seyond_lidar/src/driver/ros1_driver_adapter.hpp:120-148 | every published scan states its packet count, which is aggregate_num unless the scan ends a frame, when it is at most that (and at most one when aggregate_num is 0) |
| `Replay.ScansCarryAllPackets` | src/drivers/seyond_lidar/src/driver/ros1_driver_adapter.hpp:120-148 | published and pending scans hold exactly the packets after the first, in order, each with the table sent along with it |
| `Replay.DriverLidar.LidarDataCallback` | src/drivers/seyond_lidar/src/driver/driver_lidar.cc:494-537 | both modes' callback, with the request for the angle table, refines the step functions the equivalence is about |
| `Replay.ROSAdapter.Publish` | src/drivers/seyond_lidar/src/driver/ros1_driver_adapter.hpp:120-148 | closing, splitting and filling of scans, the frame count and the table sent along, as the step function |
| `Replay.ROSAdapter.Subscribe` | src/drivers/seyond_lidar/src/driver/ros1_driver_adapter.hpp:97-118 | replay of one scan, taking over the first table that comes, as the step function |
| `RwLock.WriterIsAlone` | src/drivers/seyond_lidar/src/inno_sdk/src/utils/log.h:103-119 | in every run a writer coexists with no other writer and no reader |
| `RwLock.ReadersEnterIff` | src/drivers/seyond_lidar/src/inno_sdk/src/utils/log.h:86-90 | in every run a reader that asks gets in if and only if no writer is active or pending, however many readers are inside; otherwise it sleeps |
| `RwLock.WritersEnterIff` | src/drivers/seyond_lidar/src/inno_sdk/src/utils/log.h:103-109 | in every run a writer that asks gets in if and only if no thread is inside; otherwise it sleeps |
| `RwLock.ReadersShare` | src/drivers/seyond_lidar/src/inno_sdk/src/utils/log.h:86-90 | any number of readers can be inside together |
| `RwLock.NeverStuck` | src/drivers/seyond_lidar/src/inno_sdk/src/utils/log.h:92-119 | no wake-up is lost: whenever a thread waits or is inside, some thread is inside or awake and would get in now |
| `RwLock.RunHolds` | src/drivers/seyond_lidar/src/inno_sdk/src/utils/log.h:81-128 | in every run the three fields count the threads; a free lock with pending writers has one awake; with no writer active or pending no reader sleeps |
| `RwLock.RWLock.TryRead` | src/drivers/seyond_lidar/src/inno_sdk/src/utils/log.h:86-90 | one test of the wait predicate and the entry that follows, as the runs take them |
| `RwLock.RWLock.ReleaseRead` | src/drivers/seyond_lidar/src/inno_sdk/src/utils/log.h:92-101 | the last reader signals one writer if any is pending, else all readers |
| `RwLock.RWLock.TryWrite` | src/drivers/seyond_lidar/src/inno_sdk/src/utils/log.h:106-108 | one test of the wait predicate; entering turns a request into the active writer |
| `RwLock.RWLock.RequestWrite` | src/drivers/seyond_lidar/src/inno_sdk/src/utils/log.h:105 | registers a pending writer |
| `RwLock.RWLock.ReleaseWrite` | src/drivers/seyond_lidar/src/inno_sdk/src/utils/log.h:111-119 | frees the lock and signals one writer if any is pending, else all readers |
| `RawSaver.RecordedInOrder` | src/drivers/seyond_lidar/src/inno_sdk/src/sdk_client/raw_recorder.cpp:207-277 | in every interleaving of receiver, flush thread and timer: flushed ids strictly ascend; the file is what the writes took of their payloads, one after the other, and the payloads themselves if and only if no write fell short; incomplete is false if and only if the ids are 0, 1, ..., k |
| `RawSaver.HandedOver` | src/drivers/seyond_lidar/src/inno_sdk/src/sdk_client/raw_recorder.cpp:180-185 | at every later time before the end, a packet that reached the cache is cached or was flushed, unless its id was already passed or cached when it came; then the cache stayed as it was |
| `RawSaver.FlushedAsWritten` | src/drivers/seyond_lidar/src/inno_sdk/src/sdk_client/raw_recorder.cpp:411-430 | each flushed packet had one write, which took as many bytes as it reported, none when it failed; nothing is flushed after a packet that closes the recording or a failed write |
| `RawSaver.PickExact` | src/drivers/seyond_lidar/src/inno_sdk/src/sdk_client/raw_recorder.cpp:239-254 | the expected packet is taken as soon as it is cached; otherwise the expectation moves to the first cached id within the number of cached packets, or by that number |
| `RawSaver.ReachesNext` | src/drivers/seyond_lidar/src/inno_sdk/src/sdk_client/raw_recorder.cpp:249-252 | with n packets cached the expectation reaches the next cached id in steps of n, never past it |
| `RawSaver.WorksUntilStopped` | src/drivers/seyond_lidar/src/inno_sdk/src/sdk_client/raw_recorder.cpp:207-277 | the recorder works exactly until it is first finished, timed out or destroyed; packets are received only before that, and the flush thread leaves its loop only after it |
| `RawSaver.NothingPassedOver` | src/drivers/seyond_lidar/src/inno_sdk/src/sdk_client/raw_recorder.cpp:242-253 | the skipping of missing ids never passes a cached packet: every packet put in the cache is still there, not before the expected id unless in hand, or was flushed |
| `RawSaver.FinishedExactlyOnce` | src/drivers/seyond_lidar/src/inno_sdk/src/sdk_client/raw_recorder.cpp:256-274 | finish_ runs at most once, and exactly once when the flush thread has ended |
| `RawSaver.SkipStops` | src/drivers/seyond_lidar/src/inno_sdk/src/sdk_client/raw_recorder.cpp:249-252 | the skip loop passes missing ids only and stops at the first cached one, or after its whole budget |
| `RawSaver.RawSaver.InsertRawData` | src/drivers/seyond_lidar/src/inno_sdk/src/sdk_client/raw_recorder.cpp:180-185 | late ids are dropped, and a second packet with a cached id too |
| `RawSaver.RawSaver.PickNext` | src/drivers/seyond_lidar/src/inno_sdk/src/sdk_client/raw_recorder.cpp:239-254 | the flush thread's choice, as the step function |
| `RawSaver.RawSaver.SaveToTmpFile` | src/drivers/seyond_lidar/src/inno_sdk/src/sdk_client/raw_recorder.cpp:390-432 | opening, the write or what it took, closing, the completeness flag and whether the recording is over |
| `RawSaver.RawSaver.ClearCacheBySid` | src/drivers/seyond_lidar/src/inno_sdk/src/sdk_client/raw_recorder.cpp:293-300 | exactly the packet with that id leaves the cache |
| `RawSaver.RawSaver.StopWhenFinished` | src/drivers/seyond_lidar/src/inno_sdk/src/sdk_client/raw_recorder.cpp:325-331 | working becomes stopped, later states stay |
| `GridMap.ExactMask` | src/perception/perception_utils/src/gridmap.cpp:78-105 | a cell ends Surface if and only if it was, or a raster-later neighbour was before, or a raster-earlier neighbour is after; old Surface cells are untouched |
| `GridMap.ExactHeight` | src/perception/perception_utils/src/gridmap.cpp:88-104 | a cell that was not Surface gets one point and the mean height of its Surface neighbours, written out over the eight places, earlier ones as they are afterwards and later ones as they were; without any it is untouched |
| `GridMap.WholeGridFilled` | src/perception/perception_utils/src/gridmap.cpp:78-105 | one Surface cell at (r, c) makes the whole grid Surface after max(1, r, c) calls |
| `GridMap.HeightsStayWithin` | src/perception/perception_utils/src/gridmap.cpp:99-103 | any number of calls keeps all Surface heights between the old least and greatest |
| `GridMap.SweepAt` | src/perception/perception_utils/src/gridmap.cpp:86-104 | while a cell is filled, raster-earlier cells have their final and the others their first value |
| `GridMap.FillBlankCells` | src/perception/perception_utils/src/gridmap.cpp:78-105 | the in-place loops compute the raster sweep the theorems are about |
| `GridMap.FilterIsolated` | src/perception/perception_utils/src/gridmap.cpp:107-125 | the in-place sweep removes exactly the cells isolated at the start: it equals the simultaneous removal |
| `GridMap.FilterCell` | src/perception/perception_utils/src/gridmap.cpp:116-123 | one cell is judged by its neighbours now as it would have been at the start |
| `GridMap.SurveyNeighbours` | src/perception/perception_utils/src/gridmap.cpp:91-98 | number and total height of the Surface neighbours inside the grid |
| `Picking.ComputePickPoints` | src/perception/picking_area/src/picking_area.cpp:41-129 | for every grid message: at most three picks, all of them eligible cells with their scores in (0, 1), pairwise at least 3 apart in row or column; every eligible cell left out is close to a pick scoring at least as high, or three picks all score at least as high; the first pick is the best |
| `PickingScores.ScoreExact` | src/perception/picking_area/src/picking_area.cpp:84-100 | the score is 0.3 times the height above the lowest as a share of the range, plus 0.7 times the flatness |
| `PickingScores.HigherIsBetter` | src/perception/picking_area/src/picking_area.cpp:84-100 | with the same block a higher cell scores strictly more |
| `PickingScores.FlatterIsBetter` | src/perception/picking_area/src/picking_area.cpp:84-100 | with the same height a flatter block scores strictly more |
| `PickingScores.WeightsExact` | src/perception/picking_area/src/picking_area.cpp:100 | the lowest cell in a flat block scores 0.7, and height adds less than 0.3 |
| `PickingScores.BlockExact` | src/perception/picking_area/src/picking_area.cpp:74-98 | count and variance of a block are the sums over the cell and the eight around it |
| `PickingScores.EligibleExact` | src/perception/picking_area/src/picking_area.cpp:68-82 | a cell inside may be picked if and only if it is Surface, has a point, and five or more of the eight around it are Surface |
| `PickingScores.LastCellExact` | src/perception/picking_area/src/picking_area.cpp:45-66 | each place of the grid has the last cell of the message for it, or is blank |
| `PickingScores.ExtremesExact` | src/perception/picking_area/src/picking_area.cpp:52-66 | the extremes bound every Surface cell received inside the grid and are heights of such cells, unless the starting bounds stand |
| `Picking.Select` | src/perception/picking_area/src/picking_area.cpp:118-129 | that choice, for any list sorted best first |
| `Picking.FindCandidates` | src/perception/picking_area/src/picking_area.cpp:68-109 | one candidate per eligible cell, in raster order, with the score of its block |
| `Picking.ReadGrid` | src/perception/picking_area/src/picking_area.cpp:45-66 | each cell has the last entry of the message for it; the least and greatest Surface height received |
| `Picking.ScoreInUnit` | src/perception/picking_area/src/picking_area.cpp:84-100 | a score lies strictly between 0 and 1 for any height between the extremes |
| `Picking.SortByScore` | src/perception/picking_area/src/picking_area.cpp:113-116 | a permutation, best first (stands for the library sort) |
| `AngleTable.MonotoneEverywhereIff` | src/drivers/seyond_lidar/src/inno_sdk/src/sdk_common/inno_lidar_packet_utils.h:324-335 | for a nondecreasing column the values are nondecreasing over all angles if and only if the last step is at most one unit; otherwise 8191 and 8192 are out of order |
| `AngleTable.MonotoneInside` | src/drivers/seyond_lidar/src/inno_sdk/src/sdk_common/inno_lidar_packet_utils.h:324-349 | for a nondecreasing column the output is nondecreasing in the angle below 8192, across cell borders |
| `AngleTable.ValueBetweenEntries` | src/drivers/seyond_lidar/src/inno_sdk/src/sdk_common/inno_lidar_packet_utils.h:344-349 | every output lies between its two table entries |
| `AngleTable.ValueExact` | src/drivers/seyond_lidar/src/inno_sdk/src/sdk_common/inno_lidar_packet_utils.h:324-349 | 256 k + offset past the table's start the value is the linear interpolation of entries k and k + 1, rounded down; before the start it is entry 0; past the end the last cell is used with the running offset |
| `AngleTable.FlatIsLayout` | src/drivers/seyond_lidar/src/inno_sdk/src/sdk_common/inno_lidar_packet_utils.h:342 | the position is that of the entry when facets, rows, sets and receivers are laid out one after the other |
| `AngleTable.FlatInjective` | src/drivers/seyond_lidar/src/inno_sdk/src/sdk_common/inno_lidar_packet_utils.h:342 | different facets, rows, sets or receivers have different positions |
| `AngleTable.NextRow` | src/drivers/seyond_lidar/src/inno_sdk/src/sdk_common/inno_lidar_packet_utils.h:342 | the flat step lands on the same place of the next row |
| `AngleTable.FlatBounds` | src/drivers/seyond_lidar/src/inno_sdk/src/sdk_common/inno_lidar_packet_utils.h:337-342 | that place is inside the table |
| `AngleTable.AnglesAreColumns` | src/drivers/seyond_lidar/src/inno_sdk/src/sdk_common/inno_lidar_packet_utils.h:341-355 | each receiver's angles are its two columns' values, the vertical one shifted on inset lines |
| `AngleTable.GetBlockFullAnglesInterpolate` | src/drivers/seyond_lidar/src/inno_sdk/src/sdk_common/inno_lidar_packet_utils.h:316-356 | the pointer loop computes, for each of the eight receivers, the interpolation the lemmas are about |
| `Conversion.RunSized` | src/drivers/seyond_lidar/src/inno_sdk/src/sdk_common/inno_lidar_packet_utils.cpp:368-474 | after any run of same-layout conversions with no failed call, each with an angle table or without, common.size = 70 + item_number * item_size with items of 26 or 40 bytes, within the buffer; the points are no more than get_points_count counts, and as many if and only if no conversion with a table met a point with a radius out of view |
| `ConversionPoints.PacketPoints` | src/drivers/seyond_lidar/src/inno_sdk/src/sdk_common/inno_lidar_packet_utils.h:59-146 | the points converted are exactly the places with a radius (and in view, in the compact layout with a table), each once, ordered by block, channel and return |
| `ConversionPoints.CountedAreNonZero` | src/drivers/seyond_lidar/src/inno_sdk/src/sdk_common/inno_lidar_packet_utils.h:826-853 | get_points_count is the number of places with a radius |
| `ConversionPoints.RunPoints` | src/drivers/seyond_lidar/src/inno_sdk/src/sdk_common/inno_lidar_packet_utils.cpp:368-474 | after any run with no failed call the packet holds the points of all the sources in order |
| `Conversion.MaxPointsSuffice` | src/drivers/seyond_lidar/src/inno_sdk/src/sdk_common/inno_lidar_packet_utils.h:888-899 | a buffer sized from get_max_points_count takes every conversion of the packet |
| `Conversion.ConvertMalloced` | src/drivers/seyond_lidar/src/inno_sdk/src/sdk_common/inno_lidar_packet_utils.cpp:344-366 | so the allocating conversion never fails for want of room and holds exactly the convertible points |
| `Conversion.ConvertedAreCounted` | src/drivers/seyond_lidar/src/inno_sdk/src/sdk_common/inno_lidar_packet_utils.h:826-853 | a conversion adds no more points than get_points_count counts, and as many if and only if it has no table or no point with a radius is out of view |
| `Conversion.OnlyCompactHides` | src/drivers/seyond_lidar/src/inno_sdk/src/sdk_common/inno_lidar_packet_utils.h:59-146 | in the layouts that are not compact nothing is out of view |
| `Conversion.DataPacket.ConvertToXyzPointcloud` | src/drivers/seyond_lidar/src/inno_sdk/src/sdk_common/inno_lidar_packet_utils.cpp:368-474 | fails if and only if the points do not fit, having added those that fit and left the size field alone; otherwise all of them are added in iteration order and the size grows by theirs |
| `Conversion.DataPacket.ConvertBlocks` | src/drivers/seyond_lidar/src/inno_sdk/src/sdk_common/inno_lidar_packet_utils.h:59-146 | the loops over blocks add the points in the order of the iteration macros, all of them or up to the first that does not fit |
| `Conversion.DataPacket.ConvertBlock` | src/drivers/seyond_lidar/src/inno_sdk/src/sdk_common/inno_lidar_packet_utils.h:76-82 | the same for the channels of a block |
| `Conversion.DataPacket.ConvertChannel` | src/drivers/seyond_lidar/src/inno_sdk/src/sdk_common/inno_lidar_packet_utils.h:77-81 | the same for the returns of a channel |
| `Conversion.DataPacket.WritePoint` | src/drivers/seyond_lidar/src/inno_sdk/src/sdk_common/inno_lidar_packet_utils.cpp:420-437 | a point is added if the buffer has room for it |

## Left out

Consumer-producer queue:
- Liveness: that a waiting thread is woken. A thread the source puts to sleep may run its section again at any time; `resume` clears the pause without the mutex, so a waiting producer's wake-up is not promised by the code.
- ConsumerProducer.ConsumerProducer.Start: counts the threads it creates; what they do is in the runs, which have them from their beginning. The sleep after it is left out.
- ConsumerProducer.ConsumerProducer.Shutdown: the waking of the threads and the waiting for each are not in the method; that all workers have left is a hypothesis of `ShutdownDrains`.
- One lifetime from `start` to `shutdown`; time statistics, `blocked_job_`, `max_queue_len_`, thread priorities and the fields only they use. A job handle is the number of the call that submitted it.
- ConsumerProducer.ConsumerProducer.AddJobSection: requires a ring of positive size; the source would write past a ring of size 0 (the high-priority ring is given size 0 where nothing is added to it).
- ConsumerProducerExact.FinishedIdNeverDecreases: one worker and no discarded head; `NeverBackIffBlocking` says exactly when the promise holds in all runs.

Misorder correction:
- The repair of negative time stamps, which changes no key.
- Misorder.StageClientRead.AddDeliverPacketAfterCorrect: frame indices below 2^63 - 1, because the source compares them as signed numbers.
- Misorder.MisorderBufQueue.Push: the library's heap is a sorted sequence whose order among equal keys is left open.
- `flush_cached_packet`, which nothing in the repository calls; delivery, buffers and the recorder thread behind it.

Capture replay:
- Opening the file, the link-layer headers and the extraction of the IP fields, which are inputs here (`Frame`); unsupported link types, and the rounds after a rewind.
- Pcap.PcapInput.ReadFd: frames whose first fragment lacks a UDP header and IP lengths smaller than the headers (the source's 16-bit length wraps) are excluded, and so are packets whose header states more bytes than a whole buffer holds, where the source reads past its memory. A packet that states more than it carries, but no more than its buffer, is read with the bytes left over behind it, as in the source.

Statistics, angles and conversion:
- The clock-driven printing of the loss rate, and counters within 65536 of 2^64.
- AngleTable.GetBlockFullAnglesInterpolate: the facet is below 4 and the table complete; the source indexes without a check.
- Coordinates, time stamps, ring ids, checksums, sine and cosine tables. A written point is the place it comes from.
- Conversion.DataPacket.ConvertToXyzPointcloud: does not write coordinates, time adjustment, the copied header, the type field or the checksum; packet types that are not sphere points are refused by the source and are not in the model; counts stay within the 24-bit field.

Driver:
- Replay.ReplayExact: the replaying driver is one of its own. In live packet mode the source's subscriber shares the publishing driver, and with it the table as it is when a scan is delivered.
- ROS messages, publishers, and the ROS 2 adapter, whose counters have no initialiser.
- A negative `aggregate_num`, which the source compares as a huge unsigned number, is that huge number here.

Lock and recorder:
- Only the lock of src/drivers/seyond_lidar/src/inno_sdk/src/utils/log.h:81-128; the other build's lock wraps the system's. Fairness.
- RawSaver.RawSaver.SaveToTmpFile: does not name the file, and a write interrupted by a signal is the write that follows it; a header that cannot be parsed never gets here, because such data is not cached.
- RawSaver.RecordedInOrder: renaming files and the serial number and cause texts are left out, and ids are below 2^31 - 1.
- The states a time-out may set are set at any time, so a destroyed recorder can go back to stopped, as the code allows.

Grid and picking:
- Point-cloud to grid conversion, `updateArea`, `sparseGrid` and volumes. Grids are rectangular.
- Picking.ReadGrid: cell coordinates below 2^31, where the source's conversion to signed keeps them.
- Picking.SortByScore: the library's sort, with the order among equal scores left open to its callers by the contract; turning picks into published points.
- Floating-point rounding, in all of these.

Everything else: networking, HTTP and TCP commands, file handling, NPS adjustment, frame assembly for delivery, fault and status packets, configuration, launch files and node set-up.
