# file-tracker: a verified model

file-tracker carries file changes from the kernel to a backup: an eBPF program and a userspace agent turn them into
JSON messages, Kafka carries these to a consumer, the consumer marks paths in a Redis hash, and a periodic backup hands
marked paths to restic. This project models what each part does to the data and proves what the parts promise together.
`dafny verify dfyconfig.toml` checks all of it.

How the modules follow the program:

- `Bytes`: bytes and byte strings; bit vectors appear only where the checksum needs them.
- `Register`, `Crc32`: shift registers in general, and the agent's table-driven CRC-32 (`src/wal.cpp`).
- `Framing`, `Wal`: logs of `[length][checksum][data]` frames in general, and the write-ahead log as a file (`src/wal.cpp`).
- `Probe`, `Events`, `Emissions`, `Renames`: the kernel programs, paths, the pairing of renames, and what interleaving on
  several CPUs and drops in the ring buffer do to it (`src/bpf/probe.bpf.c`, `include/common.h`, `src/main.cpp`).
- `Debounce`, `Trailing`: the debouncer as one timed automaton for each path (`src/debouncer.cpp`), and what it does
  together with duplicate suppression in the kernel.
- `Json`, `Messages`: the escaper and the messages (`src/main.cpp`), with a reader for them from RFC 8259.
- `Delivery`, `Agent`: where messages are between being sent and being delivered, and the agent as a whole
  (`src/main.cpp`, `src/kafka_producer.cpp`).
- `Store`, `Consumer`, `Daemon`, `Recovery`: the two hashes, parsing and flushing, the main loop with its commits, and what
  holds over any number of process lifetimes (`consumer/`).
- `EndToEnd`: the agent's messages as the consumer parses them.
- `Repos`, `Backup`, `Handover`, `Lock`, `Nodes`: repositories, one backup run, the interleaving of runs with the consumer,
  with crashes and with each other, the lock shared with pruning, and all of it together (`backup/backup.py`, `backup/prune.py`).

Objects that the program updates in place are classes here, and their methods are proved against pure functions; the
promises are lemmas about every run of those functions. Clocks, delivery reports, Redis failures, restic's return codes,
the order of workers and crashes are parameters that may take any value.

## Where the code keeps less than its documentation says

The model follows the code.

- At least once (`docs/TDD.md:266`, `consumer/consumer.py:91-96`): a failed flush clears the batch
  (`consumer/consumer.py:118`), messages polled while Redis is down are passed over (`consumer/main.py:174-181`), and the
  next commit covers them. `Recovery.CommitAfterFailedFlushLoses` gives a run; `Recovery.AtLeastOnceIff` says for every
  run exactly when it keeps the promise, and runs without a commit after a failed flush in the same lifetime do
  (`Recovery.CommittedWereApplied`).
- Maximum wait (`include/debouncer.h:9`): only an event looks at it, a tick does not (`src/debouncer.cpp:28`,
  `src/debouncer.cpp:52`). `Debounce.MaxWaitAloneIsNoBound` gives a run, `Debounce.SettledByDeadlineIff` says exactly when
  a wait is over by the maximum wait or any other deadline, and `Debounce.Latency` is the bound that always holds. An event
  that fires by the maximum wait is not followed up for writes suppressed after it
  (`Trailing.FollowedUpIffMaxWaitNotOver`).
- The log after a crash (`src/main.cpp:290-303`): a log is only emptied if something can be read from it, so one that
  begins with a torn record is appended to and read no further until chance makes its checksum match
  (`Delivery.StartConservesIff`, `Delivery.AppendAdds`, `Wal.StopsAtTearIff`).
- Rename pairing (`src/main.cpp:119-143`): the two halves of a rename reach the ring buffer one by one, from any CPU. Halves
  of different renames are paired when others come in between (`Emissions.InterleavedHalvesMispaired`) or are dropped
  (`Renames.DroppedHalvesMispaired`), and a rename is missed when anything comes between its halves.
  `Emissions.MispairedIff` and `Emissions.FoundAreMadeIff` say exactly when; `Renames` is the case of probes that run one
  after the other.
- The consumer catches JSON errors but not those of the UTF-8 decoder (`consumer/consumer.py:47-53`), and the agent's check
  of UTF-8 goes by bit patterns only (`src/main.cpp:60-74`), so some paths end the consumer in the parser
  (`EndToEnd.OverlongPathRaises`) and others, with encoded surrogates, in the flush, whose handler expects errors of Redis
  only (`consumer/consumer.py:111-113`, `EndToEnd.SurrogatePathRaisesInFlush`). Which paths get through is
  `EndToEnd.MtimeMessageApplicableIff`. When a commit passes a message of the others is `Recovery.RaisingMessagePassedIff`
  and `Recovery.UnencodableNeverPassed`; a process that starts at one the parser raises on never does
  (`Recovery.StuckForever`), and after a failed flush one can be passed over (`Recovery.RaisingMessagePassedOver`).
- The list handed to restic has one path a line (`backup/backup.py:106-109`), which a path with a line break does not
  survive (`Repos.ListReadBackIff`, `Repos.ListedIff`): a good run then deletes its marking without having backed it up
  (`Backup.GoodWorkerSettles`, `Handover.LostIff`).
- The lock (`backup/backup.py:143-163`): a node that outlives it lets a second one in (`Lock.SecondEntryIff`), and its last
  step can delete what the other has set aside (`Handover.StaleDeleteLoses`). `Handover.LostInRunIff` says exactly which
  steps lose a marking.

## Model

| member | source | states |
|---|---|---|
| Crc32.Crc32Table.InitTable | src/wal.cpp:9-19 | The table is built in place, once, and each entry is eight shifts of the bit-serial register |
| Crc32.Crc32Table.Checksum | src/wal.cpp:21-29 | For every input the table-driven loop returns the bit-at-a-time reflected CRC-32 of section 8 of RFC 1952 |
| Crc32.LookupIsEightSteps | src/wal.cpp:26 | One table lookup and one shift by eight are eight bit steps of the register with the byte mixed in |
| Crc32.EightStepsAreOneByte | src/wal.cpp:26 | Eight bit steps of register xor byte are the same as feeding the byte's bits one by one |
| Register.IterateDistributes | src/wal.cpp:14 | A linear step stays linear however often it is repeated |
| Register.FeedLowBits | src/wal.cpp:26 | Feeding the low bits of a word serially is stepping the register with the word already mixed in |
| Register.FeedAllInjective | src/wal.cpp:25-27 | Registers that differ keep differing when fed the same bits |
| Register.FeedAllApart | src/wal.cpp:25-27 | Registers whose difference is out of reach of n bits still differ after n bits, whatever the bits are |
| Crc32.BurstDetected | src/wal.cpp:21-29 | Two messages of one length that differ only within 32 consecutive bits have different checksums, for every length and position |
| Crc32.ByteWindowIsBurst | src/wal.cpp:21-29 | Messages that differ only within at most four consecutive bytes differ in such a burst |
| Crc32.CheckValue | src/wal.cpp:9-29 | The checksum of the digits from 1 to 9 is the published check value CBF43926 |
| Wal.LittleEndianRoundTrip | src/wal.cpp:46-47 | A number in range is read back from its little-endian field |
| Wal.NumberOfRoundTrip | src/wal.cpp:69-70 | Every field of bytes is the field of the number read from it |
| Wal.FieldBytes | src/wal.cpp:69-70 | A field is four bytes of eight bits each, lowest first |
| Wal.FormatSound | src/wal.cpp:46-54 | The log's two fields have four bytes each, and lengths up to the record limit are coded one to one |
| Wal.WrittenIsFrame | src/wal.cpp:49-52 | What append writes is one whole frame of the format, for every record the reader accepts |
| Wal.WrittenBytes | src/wal.cpp:46-52 | Byte by byte an append is the length, the checksum, both lowest byte first, and the data |
| Wal.LogFile.Append | src/wal.cpp:42-59 | An open log grows by exactly the written record and its counter by one; a log that is not open is left alone and false returned |
| Wal.LogFile.ReadRecord | src/wal.cpp:67-91 | One turn of the reading loop finds a record exactly when an intact frame starts there, and returns its data |
| Wal.LogFile.ReadAll | src/wal.cpp:61-97 | Reading ends on arbitrary bytes, and returns the records of the intact prefix |
| Wal.LogFile.Truncate | src/wal.cpp:99-114 | The file is emptied if it can be opened for writing, and the handle is lost unless it is reopened |
| Framing.Format.HeadIntactIffFrame | src/wal.cpp:67-91 | A reader accepts the head of a file exactly when some frame lies there, and then only one does |
| Framing.Format.ParseLogIsIntactPrefix | src/wal.cpp:61-97 | What is read are intact frames from the start of the file up to the first place where none starts |
| Framing.Format.IntactPrefixUnique | src/wal.cpp:61-97 | No file has two such readings |
| Framing.Format.WholeLog | src/wal.cpp:42-97 | With nothing cut off, all records appended are read back in order |
| Framing.Format.WholeBeforeIsMost | src/wal.cpp:42-97 | The count of whole records before a cut is the largest that fits in front of it |
| Framing.Format.TornLog | src/wal.cpp:42-97 | Cut anywhere, a log gives back exactly the records that lie wholly before the cut |
| Wal.TornAppends | src/wal.cpp:42-97 | The same for the log's own format |
| Framing.Format.ReadsOn | src/wal.cpp:61-97 | Whole records do not influence how what follows them is read |
| Wal.StopsAtTearIff | src/wal.cpp:61-97 | For every later append: reading goes no further than the records before a torn one exactly as long as its data are not complete again, and after that if its checksum does not match what filled the gap |
| Wal.StopsBehindIff | src/wal.cpp:67-91 | The same for any bytes behind whole records, a tear within the length field included: too few bytes, too long a length, missing data or a checksum that differs |
| Wal.DamagedData | src/wal.cpp:61-97 | A burst of up to 32 bits within the data of one record: exactly the records before it are read, whatever follows |
| Wal.DamagedChecksum | src/wal.cpp:61-97 | Any change to one checksum field: exactly the records before it are read, whatever follows |
| Delivery.OnFailKeeps | src/main.cpp:206-216 | The failure callback puts the message in exactly one more place, and the log stays readable and within its bound |
| Delivery.SendKeeps | src/kafka_producer.cpp:59-82 | A send, queued or rejected, puts the message in exactly one more place |
| Delivery.ReportConserves | src/kafka_producer.cpp:92-104 | A delivery report, good or bad, keeps the account in order |
| Delivery.BeginRetryConserves | src/main.cpp:363-366 | Emptying the log after reading it moves its records and loses none |
| Delivery.RetryConserves | src/main.cpp:358-373 | A whole retry keeps the account in order, whatever the client rejects |
| Delivery.StepConserves | src/main.cpp:206-216 | No step loses a message or makes one up |
| Delivery.StartConservesIff | src/main.cpp:290-303 | The account is in order after the startup replay exactly when the log was empty or something could be read from it |
| Delivery.AppendAdds | src/main.cpp:206-216 | What an append adds to the account is exactly what can then be read from the first place on where nothing could be read before |
| Delivery.RunFits | src/main.cpp:206-373 | In every run, whatever the log held, all messages are short enough to be read from the log again |
| Delivery.RunConserves | src/main.cpp:206-373 | In every crash-free run each message is, as often as it was submitted, delivered, in flight, in the log, being retried, or dropped at the limit |
| Delivery.RunCounts | src/main.cpp:206-373 | In every run, whatever the log held, a message was delivered as often as it was reported delivered, dropped as often as it was rejected or failed with the log at its limit, and is in flight as often as it was queued and not yet reported on |
| Delivery.StepCounts | src/kafka_producer.cpp:59-104 | A step moves the message it is about from and to the places its name says, once, and no other message |
| Delivery.LogGrowth | src/main.cpp:206-216 | A rejected or failed message lengthens the log by its frame while that is below the limit; a message queued or delivered leaves the log alone |
| Delivery.RetryTakes | src/main.cpp:363-366 | A retry that finds something to read empties the log and has all of that to send again, in order; nothing else empties it |
| Delivery.SettledRunAccounts | src/main.cpp:206-400 | With nothing in flight, only the broker, the log and the limit account for messages, and the log is at most its limit, 7 bytes and one record long |
| Delivery.CrashLosesNothingIff | src/main.cpp:363-369 | A crash loses nothing exactly if nothing is in flight and the log is not being sent again |
| Delivery.SubmitAllKeeps | src/kafka_producer.cpp:59-82 | A series of messages is submitted once each, and the account stays in order |
| Delivery.ReachedConserves | src/main.cpp:206-373 | The account stays in order through whatever sequence of steps |
| Agent.EventMessagesFit | src/main.cpp:219-231 | Whatever 20 names of 255 bytes the kernel reports, every event message is far below the log's 1 MiB record limit |
| Agent.RenameMessagesFit | src/main.cpp:238-257 | The same for the two paths of a rename message |
| Agent.Agent.OnFail | src/main.cpp:206-216 | The message is appended if the file is below the limit, and dropped otherwise |
| Agent.Agent.Send | src/kafka_producer.cpp:59-82 | An accepted message is in flight; a rejected one goes to the failure callback at once |
| Agent.Agent.Report | src/kafka_producer.cpp:92-104 | A reported message leaves the queue, delivered or to the failure callback |
| Agent.Agent.Handle | src/main.cpp:114-150 | One event submits exactly the messages it makes the debouncer send and the rename it completes |
| Agent.Agent.Tick | src/main.cpp:327-328 | A tick submits exactly the messages the debouncer releases |
| Agent.Agent.RetryLog | src/main.cpp:358-373 | The log is emptied only if something could be read, and all of that is sent again |
| Agent.Agent.FlushPending | src/main.cpp:380-382 | All pending paths are submitted and the debouncer is empty |
| Agent.Agent.Settle | src/main.cpp:400 | When every message in flight has been reported on, none is in flight, and the state is reached by report steps |
| Agent.Agent.ShutDown | src/main.cpp:377-403 | After a graceful shutdown the debouncer is empty, nothing is in flight, and delivered, log and dropped account for everything ever submitted |
| Agent.Agent.HandleAll | src/main.cpp:319-326 | One poll hands the events to the handler in order, and reaches its state by steps of the protocol |
| Agent.Agent.TakeTurn | src/main.cpp:318-375 | One turn of the main loop, with events, tick, reports and a retry if due, is a sequence of steps of the protocol |
| Agent.Agent.LiveThrough | src/main.cpp:290-403 | From replay through any number of turns to a graceful shutdown: unless the log was unreadable at its head, delivered, log and dropped account for everything ever submitted |
| Debounce.WaitBounded | src/debouncer.cpp:26-36 | While a path is pending, its last event is its first one or less than the maximum wait after it |
| Debounce.NoSpuriousMessage | src/debouncer.cpp:9-64 | Each message sent by a tick or by the maximum wait answers an event that no message, delete or flush has settled since |
| Debounce.Spacing | src/debouncer.cpp:9-64 | Two such messages for one path are at least the shorter of quiet period and maximum wait apart |
| Debounce.UnsettledStaysPending | src/debouncer.cpp:21-43 | Until something settles it, a path with a write stays pending from no later than that write |
| Debounce.Latency | src/debouncer.cpp:21-64 | With ticks at most a gap apart, every write is settled within maximum wait, quiet period and gap |
| Debounce.SettledByDeadlineIff | src/debouncer.cpp:21-64 | A wait is over by a deadline, such as the maximum wait, exactly if by then there is a delete, a flush, a write once the maximum wait is over, or a tick that finds all its writes quiet |
| Debounce.MaxWaitAloneIsNoBound | src/debouncer.cpp:52 | The maximum wait, even with the tick gap on top, bounds nothing: with a tick at every instant a write is left unsettled for longer |
| Debounce.MessageHadEvent | src/debouncer.cpp:9-81 | Messages are only sent for paths that had an event |
| Debounce.DeleteSent | src/debouncer.cpp:12-19 | Every delete sends its message at once, as a delete, and nothing else is sent as one |
| Debounce.PendingLeavesByMessage | src/debouncer.cpp:9-81 | A pending path stays pending, is deleted or is sent; only a write makes one pending, and nothing but a delete is sent for a path that is not pending |
| Debounce.WriteMessageHadWrite | src/debouncer.cpp:21-64 | A message that says a path was written to has a write to it behind it |
| Debounce.RefinesStep | src/debouncer.cpp:9-81 | A change of the table that acts on each path as the automaton does keeps the table the automaton's image |
| Debounce.Debouncer.OnEvent | src/debouncer.cpp:9-43 | After the call the table and the messages of every path are those of the per-path automaton |
| Debounce.Debouncer.Tick | src/debouncer.cpp:45-64 | The same for a tick over the whole table, in any order of its entries |
| Debounce.Debouncer.FlushAll | src/debouncer.cpp:66-81 | The same for a flush, which empties the table and returns the number of messages |
| Probe.WalkedPath | src/bpf/probe.bpf.c:70-83 | Of the path with its names cut to their slots, the names walked leave out that of the dentry where the walk stops, and nothing else |
| Probe.ShallowPathWhole | src/bpf/probe.bpf.c:70-83 | A path of at most 20 names that fit their slots is spelt in full |
| Probe.TwentyNamesWhole | src/bpf/probe.bpf.c:70-83 | In figures: a path of up to twenty names of 1 to 255 bytes is reported whole |
| Probe.TwentyNamesAtMost | src/bpf/probe.bpf.c:70-83 | Of a longer path exactly the twenty names nearest to the file are reported |
| Probe.CutAt255 | src/bpf/probe.bpf.c:78-79 | Of a longer name the first 255 bytes are kept |
| Probe.SpeltFromRoot | include/common.h:25-32 | A path is spelt from the root down with a slash before each name |
| Probe.BuildPath | include/common.h:25-32 | Leaf-first names become the path they spell, and a slash if there is none |
| Probe.Programs.Walk | src/bpf/probe.bpf.c:70-83 | The names in the reused buffer, up to the depth returned, are those of this dentry only |
| Probe.Programs.EmitEvent | src/bpf/probe.bpf.c:58-100 | An event is counted, and emitted or counted as dropped, exactly if it has a name |
| Probe.Programs.DedupCheck | src/bpf/probe.bpf.c:110-126 | A write within a second of the remembered one is skipped and counted, any other is remembered |
| Probe.Programs.TraceWrite | src/bpf/probe.bpf.c:128-142 | A write is emitted under its walked names unless it is suppressed, nameless or dropped |
| Probe.Programs.TraceRename | src/bpf/probe.bpf.c:144-155 | Both halves of a rename are emitted one after the other unless one is nameless or dropped |
| Probe.SuppressedIsCovered | src/bpf/probe.bpf.c:110-126 | Whatever is evicted, a suppressed write follows an emitted one to the same inode by less than a second |
| Probe.SuppressedIff | src/bpf/probe.bpf.c:110-126 | A write is suppressed exactly if an emitted one to its inode, not evicted since, is less than a second old |
| Trailing.SuppressedWriteReported | src/debouncer.cpp:21-64 | With a quiet period of a second or more, a message released by a tick for the covering write comes after the suppressed one |
| Trailing.FollowedUpIffMaxWaitNotOver | src/debouncer.cpp:28-30 | When only ticks follow, a later message comes exactly if the covering event did not itself find the maximum wait over |
| Events.EventCtx.HandleEvent | src/main.cpp:114-150 | Over the whole stream the renames are exactly its adjacent pairs with a path below the prefix, and the debouncer gets exactly the writes and deletes below it |
| Events.ForwardedIff | src/main.cpp:140-149 | The debouncer is told of a write to a path exactly if there is one below the prefix, and likewise of a delete |
| Events.EachForwarded | src/main.cpp:140-149 | It is told of each of them once |
| Events.DeletesReported | src/main.cpp:140-149 | Through handler and debouncer, each delete below the prefix makes exactly one message that says so, and nothing else does |
| Events.WriteMessageHasSource | src/main.cpp:140-149 | Through both, a message that says a path was written to has a write below the prefix behind it |
| Events.RenameReportedIff | src/main.cpp:119-138 | A rename is reported exactly if its halves are adjacent in the stream and one of its paths is below the prefix |
| Events.RenamesCounted | src/main.cpp:119-138 | It is reported as often as its halves are adjacent |
| Emissions.MispairedIff | src/main.cpp:119-138 | For any interleaving of emissions on any CPUs and any drops: halves of different renames are taken for one exactly if a first half and a second half are kept with nothing kept between them |
| Emissions.FoundAreMadeIff | src/main.cpp:119-143 | The pairs taken for renames are exactly those of which both halves were kept, if and only if no pair is crossed and none is interrupted by anything kept |
| Emissions.MadeAreFound | src/main.cpp:119-143 | In that case the renames found are those kept whole, in the order of their second halves |
| Emissions.InterleavedHalvesMispaired | src/bpf/probe.bpf.c:152-153 | Two renames at once, with nothing dropped: a rename is found that nobody made, and neither that was made |
| Emissions.Fire | src/bpf/probe.bpf.c:58-162 | Each emission changes the suppression map and puts into the ring what it says: nothing suppressed, nameless or dropped |
| Emissions.FireAll | src/bpf/probe.bpf.c:58-162 | Over emissions of all probes in any order, and any evictions, the ring holds exactly the events kept |
| Emissions.WholePathsEmitted | src/bpf/probe.bpf.c:58-162 | An emission that is kept and has up to twenty names is in the ring under its full path |
| Renames.SequentialRing | src/bpf/probe.bpf.c:144-155 | Probes that run one after the other are the special case in which the halves of a rename are offered with nothing between them |
| Renames.MispairedIff | src/main.cpp:119-138 | In that case halves of different renames are taken for one exactly if a second half kept alone follows, with everything between dropped, a first half kept alone |
| Renames.WholeRenamesFound | src/main.cpp:119-138 | With the probes one after the other, unless that happens, the renames found are those of which both halves were kept, in order |
| Renames.WholeUnitsPairUp | src/bpf/probe.bpf.c:144-155 | With the probes one after the other and nothing dropped, nothing is mispaired: the renames found are those made, in order |
| Renames.DroppedHalvesMispaired | src/main.cpp:125-138 | When the inner halves of two renames are dropped, one rename is found and nobody made it |
| Events.RenameHasSource | src/main.cpp:125-138 | A rename reported has its two halves next to each other in the stream and a path below the prefix |
| Events.MessageHasSource | src/main.cpp:140-149 | A debounced message is for a path below the prefix that occurred in the stream |
| Json.JsonEscape | src/main.cpp:37-86 | The index loop appends the escaped form, for every byte string |
| Json.ValidSequence | src/main.cpp:60-74 | A sequence is taken exactly if its lead byte and the continuation bytes match the bit patterns |
| Json.AcceptedSequenceIff | src/main.cpp:60-74 | The three bit patterns, with one, two and three continuation bytes |
| Json.EscapeRoundTrip | src/main.cpp:37-86 | Decoded by section 7 of RFC 8259, an escaped string is the original with every byte outside an accepted sequence replaced by U+FFFD |
| Json.SanitizeIdentityIffAccepted | src/main.cpp:59-82 | Nothing is replaced exactly when all bytes belong to accepted sequences |
| Json.BadByteReplaced | src/main.cpp:76-82 | A byte that starts no sequence is replaced by itself alone, by U+FFFD |
| Json.EscapesSpelt | src/main.cpp:42-49 | The seven short escapes, letter by letter |
| Json.ControlsSpelt | src/main.cpp:51-55 | The other control characters as four hexadecimal digits in lower case |
| Json.CodePointIsSequence | src/main.cpp:60-79 | Each code point from 80 to 10FFFF is one sequence for the escaper, as long as its encoding, whatever follows |
| Json.SequenceIffCodePoint | src/main.cpp:60-79 | The strict sequences are exactly the encodings of these code points, the proper ones those of no surrogate |
| Json.EncodedIsText | src/main.cpp:37-86 | Any text of code points is left as it is, is decoded, and is UTF-8 exactly if no surrogate is among them |
| Json.DecodableIffEncoded | consumer/consumer.py:47-48 | What the consumer decodes is exactly what spells code points |
| Json.TextIffEncoded | consumer/consumer.py:100-108 | UTF-8 is exactly what spells code points without surrogates |
| Json.ShortEscapesRead | consumer/consumer.py:47-48 | The decoder's escapes of two characters, letter by letter |
| Json.UnitEscapeRead | consumer/consumer.py:47-48 | The decoder reads four hexadecimal digits as a 16-bit unit |
| Json.PairEscapeRead | consumer/consumer.py:47-48 | The decoder reads a surrogate pair as one character |
| Json.EscapeGrowth | src/main.cpp:37-86 | Escaping grows a string at most sixfold |
| Json.EscapeHasNoControls | src/main.cpp:42-55 | No byte below 0x20 is left raw |
| Json.EscapeDecodable | consumer/consumer.py:47-48 | Escaped text is decoded by the consumer exactly when each accepted sequence is well-formed by section 3 of RFC 3629 or an encoded surrogate, which json.loads lets through |
| Json.SanitizedUtf8Iff | src/main.cpp:60-79 | What it then gets is UTF-8 by section 3 of RFC 3629 exactly when no accepted sequence violates that section |
| Json.NumberRoundTrip | src/main.cpp:92 | A decimal number is read back, and what follows it left over |
| Json.DecimalSpelt | src/main.cpp:92 | The digits are decimal ones |
| Messages.ObjectReadBack | src/main.cpp:89-101 | An object with plain keys is read back as itself, its strings sanitized |
| Messages.ObjectDecodable | consumer/consumer.py:47-48 | The consumer decodes an object exactly when it decodes all of its strings |
| Messages.BuildJson | src/main.cpp:89-101 | The text put together piece by piece is the object of the four fields |
| Messages.BuildRename | src/main.cpp:238-250 | The text put together piece by piece is the object of the five fields |
| Messages.NamesSpelt | src/main.cpp:91-98 | The keys and types of the messages, letter by letter |
| Messages.EventSpelt | src/main.cpp:89-101 | The text of an event message, letter by letter around its escaped strings |
| Messages.RenameSpelt | src/main.cpp:242-250 | The text of a rename message, the old path before the new one |
| Messages.EventSize | src/main.cpp:89-101 | An event message is at most 70 bytes and six times its strings long |
| Messages.RenameSize | src/main.cpp:238-250 | A rename message is at most 120 bytes and six times its strings long |
| EndToEnd.MtimeMessageQueues | consumer/consumer.py:45-84 | The agent's write message marks the sanitized path, or makes the parser raise, exactly when a sequence accepted is one the decoder refuses |
| EndToEnd.DeleteMessageIgnored | consumer/consumer.py:57-62 | The agent's delete message is ignored, or raises under the same condition |
| EndToEnd.RenameMessageQueues | consumer/consumer.py:64-72 | The agent's rename message moves the marking to the new path, or raises under the same condition |
| EndToEnd.WriteQueues | src/main.cpp:219-224 | The text the agent makes of a debounced write makes the consumer mark the sanitized path, or raises |
| EndToEnd.DeletePassedOver | src/main.cpp:219-224 | The text of a delete is passed over, or raises |
| EndToEnd.RenameMoves | src/main.cpp:238-250 | The text of a rename makes the consumer move the marking from the old path to the new one, or raises |
| EndToEnd.TextArrivesUnchanged | src/main.cpp:219-224 | A write to a path made of characters is a mark on that very path, byte for byte |
| EndToEnd.OverlongPathRaises | consumer/consumer.py:47-53 | A path with an overlong sequence passes the escaper and makes the parser raise |
| EndToEnd.MtimeMessageApplicableIff | consumer/consumer.py:100-108 | A write message is queued and can be applied exactly when what the escaper accepts in its path is UTF-8 |
| EndToEnd.RenameMessageApplicableIff | consumer/consumer.py:100-108 | The same for both paths of a rename message |
| EndToEnd.SurrogatePathRaisesInFlush | consumer/consumer.py:100-119 | A path with an encoded surrogate is queued and makes the flush raise |
| Consumer.SettledByTouch | consumer/consumer.py:100-108 | A key is settled by the last operation that touches it, and left alone if none does |
| Consumer.LastTouchDecides | consumer/consumer.py:100-108 | That operation decides it: marked by a write, marked as renamed by a rename to it, gone by a rename away from it |
| Consumer.LookupIsLast | consumer/consumer.py:55 | Of several members with one key the last counts |
| Consumer.QueuesMarkIff | consumer/consumer.py:73-76 | A path is queued to be marked exactly by an object whose event is mtime_change and whose path it is, not empty |
| Consumer.QueuesMoveIff | consumer/consumer.py:64-72 | A marking is queued to be moved exactly by an object whose event is rename and that names both paths |
| Consumer.IgnoredIff | consumer/consumer.py:57-76 | Passed over without an error are exactly deletes and writes without a path |
| Consumer.ReplayIdempotent | consumer/consumer.py:100-108 | Replaying any suffix of what was applied changes nothing, renames onto themselves included |
| Consumer.SplitIrrelevant | consumer/consumer.py:90-119 | Any split of the operations into flushes gives the hash of applying them one at a time |
| Consumer.EventProcessor.ParseEvent | consumer/consumer.py:45-84 | A message queues its operation, is ignored or counted as an error, or raises; the counters follow |
| Consumer.EventProcessor.FlushBatch | consumer/consumer.py:90-119 | The pipeline applies the batch in order or not at all and the batch is gone, unless a path that cannot be encoded raises, which leaves everything as it was |
| Daemon.Process.Turn | consumer/main.py:163-229 | One turn of the loop is one step of the protocol, and ends the process exactly if the parser or the flush raises |
| Daemon.Process.FlushAndCommit | consumer/main.py:183-212 | A flush that succeeds commits everything polled, one that fails only marks Redis as down, one that raises changes nothing |
| Daemon.Process.ShutDown | consumer/main.py:223-229 | What is batched is flushed, and committed if that succeeds |
| Daemon.BatchBelowHundred | consumer/main.py:203-212 | A batch never outgrows a hundred operations |
| Daemon.FullBatchFlushed | consumer/main.py:183-212 | The turn that polls the hundredth operation applies and commits the batch, as does an empty poll once the time is over; before that a turn only adds its operation |
| Daemon.DownPassesOver | consumer/main.py:174-181 | While Redis stays down a polled message is passed over, whatever it is |
| Daemon.QuietTurn | consumer/main.py:183-203 | Errors, empty polls with nothing due and messages without an operation change at most the position |
| Daemon.FailedFlush | consumer/main.py:206-212 | A failed flush gives up the batch, commits nothing and marks Redis as down |
| Daemon.PassesRaisingMessageIff | consumer/main.py:201-229 | One turn that polls, with Redis up, a message the parser raises on lets the next process resume behind it exactly if something is batched before it and the flush on the way out succeeds and commits |
| Recovery.CommitKeepsPromiseIff | consumer/main.py:183-212 | After a commit everything below the offset is applied exactly if all that this lifetime gave up has been applied after all |
| Recovery.StepKeepsPromiseIff | consumer/main.py:163-229 | Any step of any run keeps everything below the offset applied exactly if it does not commit over a loss |
| Recovery.RunHoldsBatch | consumer/main.py:163-229 | In every run the batch is what the recorded offsets queue, in the order of the log |
| Recovery.TurnExecutes | consumer/main.py:163-229 | What a turn records as applied is exactly what it has applied to the hash |
| Recovery.LostIff | consumer/main.py:174-212 | What a turn records as lost is exactly what it passed over while Redis was down or gave up in a flush that was not applied |
| Recovery.AtLeastOnceIff | consumer/main.py:163-229 | For every run over any number of lifetimes: at every moment everything below the committed offset was applied, exactly if no commit took effect while something its lifetime lost was not applied |
| Recovery.StepKeepsGood | consumer/main.py:163-229 | Every step without a commit after a failed flush of the same lifetime keeps the invariant |
| Recovery.CommittedWereApplied | consumer/main.py:163-229 | Then, in every state of every run over any number of lifetimes, each operation below the committed offset was applied |
| Recovery.ReplayRecovers | consumer/main.py:163-229 | Once a lifetime without a failed flush has read to the end of the log and has nothing batched, the hash is that of one pass over the whole log |
| Recovery.StuckForever | consumer/main.py:163-229 | A process that starts at a message the parser raises on never gets past it, and neither does any later one, whatever happens |
| Recovery.RaisingMessagePassedIff | consumer/main.py:163-229 | In every run a lifetime without a failed flush, or a step that keeps from committing after one, moves the commits over a raising message exactly if it polls it with something batched and the flush on the way out succeeds and commits |
| Recovery.RaisingMessagePassedOver | consumer/main.py:174-181 | After a failed flush a raising message can be passed over while Redis is down and committed over with no exception |
| Recovery.UnencodableNeverPassed | consumer/consumer.py:100-119 | An operation on a path that cannot be encoded is never applied in any run, and as long as no loss is committed no commit passes it |
| Recovery.CarefulCommitsNoLoss | consumer/main.py:163-229 | Runs without a commit after a failed flush of the same lifetime commit no loss |
| Recovery.CommitAfterFailedFlushLoses | consumer/consumer.py:111-119 | Without the condition an operation below the committed offset can be missing from the hash for good |
| Repos.JoinSplit | backup/backup.py:31-34 | Joining the components of a string gives the string |
| Repos.SplitJoin | backup/backup.py:31-34 | Splitting joined components that have no separator gives the components |
| Repos.SameRepoIff | backup/backup.py:26-34 | Two mapped paths share a repository exactly when they agree on their first components |
| Repos.RepoIsDirectory | backup/backup.py:26-34 | A path is its repository's directory or lies below it |
| Repos.RepoOfComponents | backup/backup.py:26-34 | A path below the base has a repository exactly if it has enough components, and then it is the first of them |
| Repos.BelowIsComponents | backup/backup.py:26-34 | Every path is either a list of components below the base or has no repository |
| Repos.ListReadBackIff | backup/backup.py:106-109 | The file list, read line by line, is the list of paths exactly when no path has a line break in it |
| Repos.ListedIff | backup/backup.py:106-109 | A path is a line of the list file exactly when it has no line break, whatever the other paths are |
| Repos.ListSpelt | backup/backup.py:106-109 | The paths of the list have a line feed between them |
| Backup.Scan | backup/backup.py:200-215 | Whatever pages come, each repository's task holds exactly its paths, and the unmapped are counted |
| Backup.OneTaskEach | backup/backup.py:207-213 | Each scanned path with a repository is in that repository's task and in no other |
| Backup.BackupRepo | backup/backup.py:82-140 | Up to three attempts end with the first that succeeds (0 or 3) or raises; the result says which |
| Backup.SucceedsIff | backup/backup.py:112-134 | Success is an exit code of 0 or 3 in the first, second or third attempt after other codes, written out, and likewise an exception |
| Backup.ExistingCounted | backup/backup.py:99 | restic is handed each existing path as often as it was scanned, and no other |
| Backup.ShareIs | backup/backup.py:250-259 | What one repository adds to the totals: its existing paths if restic succeeds, all its paths as errors if it is not ready or raises, its existing ones if restic fails |
| Backup.RepoAccounts | backup/backup.py:82-140 | A worker that returns accounts for every path; unless it fails, each path is gone or was listed in a good restic run |
| Backup.GoodWorkerSettles | backup/backup.py:82-140 | A worker that does not fail had a repository, and settles each of its paths except those with a line break that it finds present |
| Backup.SumAnyOrder | backup/backup.py:247-259 | Workers may finish in any order: the totals are the same |
| Backup.ListsPartition | backup/backup.py:207-213 | The tasks' lengths and the unmapped add up to the scan |
| Backup.TotalsAccount | backup/backup.py:238-259 | Backed up, skipped, in error and unmapped add up to the scanned count |
| Backup.TotalsByRepo | backup/backup.py:238-259 | The totals are the repositories' own figures added up |
| Backup.PutBack | backup/backup.py:262-271 | All paths of the failed repositories, and no others, become pending for a retry |
| Backup.PutBackIff | backup/backup.py:254-267 | A path is put back exactly if it is in the task of a repository with errors |
| Backup.SetAside | backup/backup.py:184-193 | A leftover is taken over and what is pending stays; otherwise all of it is set aside, if there is any |
| Backup.Run | backup/backup.py:181-274 | An undisturbed run leaves nothing set aside, exactly the failed repositories' paths pending again, and totals that add up, in whatever order workers finish |
| Backup.PendingAfterRunIff | backup/backup.py:181-274 | A run leaves a path pending exactly if it was marked while a leftover was worked on, or was worked on and its repository had errors |
| Backup.NothingForgotten | backup/backup.py:181-274 | Whatever was set aside has no repository, or is pending again, or its repository did not fail and, unless its path has a line break, it is gone or was a line of the list of a good restic run |
| Handover.StepKeepsInv | backup/backup.py:181-274 | Through every interleaving, of any number of runs, tasks stay the grouping of what a run scanned, and that is the work set aside as long as the work is not replaced or deleted |
| Handover.FirstStepsSetAside | backup/backup.py:184-193 | The check and the rename, without a flush in between, are the run's first step |
| Handover.LastStepsFinish | backup/backup.py:261-274 | The restore and the delete, without a flush in between, leave what the run leaves |
| Handover.LostIff | backup/backup.py:185-274 | A step loses a marking exactly if that is set aside, unsettled and not made again, and the step deletes or replaces work that is no longer the run's own, or deletes it with a line break in the path |
| Handover.StepKeepsAccount | backup/backup.py:241-274 | Every other step of consumers, backups and crashes keeps the marking where its fate says |
| Handover.LostInRunIff | backup/backup.py:181-274 | For every interleaving of any number of runs, the exact steps that lose a marking |
| Handover.NeverLost | backup/backup.py:181-274 | With one run at a time, in every interleaving with flushes, crashes and restarts, no marking of a path without a line break is lost, and an unsettled one is where the next run finds it |
| Handover.MarkingsAccountedFor | backup/backup.py:181-274 | Each marking is still pending or set aside, or a consumer rename, a good worker or a missing repository has settled it since, or one of those steps lost it; with one run at a time and no line break none does |
| Handover.LaterMarkingsUntouched | backup/backup.py:273-274 | A marking made after the rename stays pending however the runs end, unless the consumer itself moves it away |
| Handover.StaleDeleteLoses | backup/backup.py:273-274 | Two runs at a time: one deletes what the other has set aside since, and a marking is nowhere |
| Nodes.RunsApart | backup/backup.py:166-178 | Backups and prunes on any number of nodes, each run inside the lock, are a run of the handover and a run of the lock |
| Nodes.LockedMarkingsAccountedFor | backup/backup.py:166-274 | As long as nobody tries the lock while a node has outlived it, each marking of a path without a line break is pending, set aside or settled since, on any number of nodes, through failures and deaths |
| Lock.StepKeepsInv | backup/backup.py:147-163 | If no one inside is overdue when another tries, every step keeps exclusion and whose lock it is |
| Lock.SecondEntryIff | backup/backup.py:151 | A second node gets in exactly when the one inside has outlived its lock |
| Lock.DeadHolderBlocksIff | backup/backup.py:147-162 | A node that dies inside keeps the others out exactly until two hours after it got in, one that leaves not at all |
| Lock.OverdueReleaseOpens | backup/backup.py:160-162 | The overdue node's release then deletes the next one's lock, and a third gets in while that one is in time |
| Lock.ExclusiveIffGuarded | backup/prune.py:79-91 | For any number of nodes and every run: at most one is ever inside exactly when none tries while another is overdue |
| Lock.TimelyRunsAreSafe | backup/backup.py:166-178 | If all finish or die in time, at most one is inside and a release deletes only the releasing node's own lock |
| Lock.Server.AcquireLock | backup/backup.py:147-157 | The key is set, with its time to live, exactly if no key is alive |
| Lock.Server.ReleaseLock | backup/backup.py:160-162 | The key is deleted, whoever it belongs to |

## Left out

- Wal.LogFile.Append: a write that fails half-way, as on a full disk, is not modelled; an append is whole or does not happen.
- Agent.Agent.Send: a failed append to the log, ignored by the failure callback, is not modelled; the agent's log is open and writable throughout.
- Delivery.RunConserves: runs without a crash of the agent process, which can lose messages, as Delivery.CrashLosesNothingIff says exactly when; those pending in its debouncer are lost as well.
- Trailing.SuppressedWriteReported: look-up and update of the suppression map are one step; races of several CPUs between the two are not modelled, here or in Emissions.Fire.
- Debounce.Latency: clocks are unbounded integers; the wrap-around of 64-bit clocks is not modelled.
- Json.EscapeHasNoControls: says nothing of raw quotes; that none is left to end the string early is part of Json.EscapeRoundTrip, which reads exactly up to the closing quote.
- Messages.ObjectReadBack: the reader covers flat objects of strings and integers without white space, which is what the agent writes; other JSON a producer might send is taken as malformed.
- Recovery.CommittedWereApplied: one partition; rebalancing and several consumers are not modelled.
- Consumer.EventProcessor.FlushBatch: that redis-py encodes paths strictly as UTF-8, after it has a connection and before it sends anything, is its documented default; redis-py is not part of this model.
- Daemon.Process.Turn: a second flush on the way out of a flush that raised is not a step of its own, as it can only raise again or give up the batch, and commits nothing; an exception from `hlen` in the periodic log line, or from the Kafka client's poll, is a crash between steps.
- Backup.Run: what the consumer and other runs do meanwhile is in Handover, step by step; HSCAN is taken to return every field that is there throughout.
- Backup.BackupRepo: restic's own reading of the file list (patterns, white space) and its partial success (code 3) count as success, as in the program.
- Repos.SameRepoIff: depths are natural numbers; a negative `repo_depth` would cut components from the end.
- Lock.ExclusiveIffGuarded: a Redis failover that forgets the key is not modelled.
- Kernel attach, configuration, logging, metrics, signals, connection retries, systemd units, packaging: no property of the data depends on them.
- `backup/cli.py`: a command line around the same mapping and restic calls.
- `RepoManager.ensure` and its set of pending repositories: it blocks nobody; that no two workers share a repository follows from one task each.
- `prune_all_repos`: a listing and one restic call each; only the lock matters.
